/** `computeProof` of static/panel.js: an iterated SHA-256 chain. The first
    digest is over the UTF-8 text `ts + challenge + token`, each of the next
    MULTI_HASH_ITERS digests over the previous digest's raw bytes, and the
    result is the base64 of the last digest. The loop pauses every 1024
    iterations to let the page breathe. */
module HashChain {
  import opened Bytes
  import opened Base64
  import opened Runtime
  import TokenCodec

  /** The iteration count shared with the server. */
  const MULTI_HASH_ITERS := 5000

  /** The digest after n further applications of sha to h. */
  function Iterate(sha: seq<byte> -> Digest, n: nat, h: Digest): Digest
  {
    if n == 0 then h else sha(Iterate(sha, n - 1, h))
  }

  /** The proof for a timestamp, a challenge and a decoded token, without
      any pause: base64 of digest number 1 + MULTI_HASH_ITERS. */
  function Proof(sha: seq<byte> -> Digest, ts: string, challenge: string, token: string): string
  {
    Encode(Iterate(sha, MULTI_HASH_ITERS, sha(Utf8(ts + challenge + token))))
  }

  /** The inputs of the digest calls after n loop iterations, in order. */
  function ChainInputs(sha: seq<byte> -> Digest, first: seq<byte>, n: nat): seq<seq<byte>>
  {
    if n == 0 then [first] else ChainInputs(sha, first, n - 1) + [Iterate(sha, n - 1, sha(first))]
  }

  /** n iterations make 1 + n digest calls: the first over `first`, every
      later one over the raw bytes the call before it returned. */
  lemma {:induction false} ChainInputsShape(sha: seq<byte> -> Digest, first: seq<byte>, n: nat)
    ensures |ChainInputs(sha, first, n)| == n + 1
    ensures ChainInputs(sha, first, n)[0] == first
    ensures forall k :: 0 <= k < n ==> ChainInputs(sha, first, n)[k + 1] == sha(ChainInputs(sha, first, n)[k])
    ensures sha(ChainInputs(sha, first, n)[n]) == Iterate(sha, n, sha(first))
  {
    if n > 0 {
      ChainInputsShape(sha, first, n - 1);
      var prev := ChainInputs(sha, first, n - 1);
      assert ChainInputs(sha, first, n) == prev + [Iterate(sha, n - 1, sha(first))];
    }
  }

  lemma ChainInputsStep(sha: seq<byte> -> Digest, first: seq<byte>, n: nat)
    ensures ChainInputs(sha, first, n + 1) == ChainInputs(sha, first, n) + [Iterate(sha, n, sha(first))]
  {
  }

  /** JavaScript's `(i & 1023) === 0`. */
  predicate IsPausePoint(i: nat) {
    BitAnd(i, 1023) == 0
  }

  /** The pause fires exactly on multiples of 1024. */
  lemma PausePointMultiple(i: nat)
    ensures IsPausePoint(i) <==> i % 1024 == 0
  {
    BitAndLowMaskMod(i, 10);
    assert Pow2(10) == 1024;
  }

  /** The loop indices below n at which the pause fires. */
  function PausesBelow(n: nat): seq<nat> {
    seq((n + 1023) / 1024, k => 1024 * k)
  }

  lemma PausesStep(i: nat)
    ensures PausesBelow(i + 1) == PausesBelow(i) + (if IsPausePoint(i) then [i] else [])
  {
    PausePointMultiple(i);
    var c := (i + 1023) / 1024;
    if i % 1024 == 0 {
      assert i == 1024 * (i / 1024);
      assert c == i / 1024;
      assert (i + 1 + 1023) / 1024 == c + 1;
    } else {
      assert (i + 1 + 1023) / 1024 == c;
    }
  }

  /** One iteration of the loop of `computeProof`: the next digest, over
      the previous digest's bytes, and the pause when i is a pause point. */
  method ChainStep(browser: Browser, first: seq<byte>, i: nat, hashBuf: Digest) returns (next: Digest)
    requires hashBuf == Iterate(browser.sha, i, browser.sha(first))
    modifies browser`digested, browser`pauses
    ensures next == Iterate(browser.sha, i + 1, browser.sha(first))
    ensures browser.digested == old(browser.digested) + [Iterate(browser.sha, i, browser.sha(first))]
    ensures browser.pauses == old(browser.pauses) + (if IsPausePoint(i) then [i] else [])
  {
    next := browser.Sha256(hashBuf);
    if IsPausePoint(i) {
      browser.Pause(i);
    }
  }

  /** Over the whole chain the pause fires five times. */
  lemma PausesOfChain()
    ensures PausesBelow(MULTI_HASH_ITERS) == [0, 1024, 2048, 3072, 4096]
  {
  }

  /** `computeProof(ts, challenge, token)`. Its result is the pause-free
      proof; it calls the digest exactly 1 + MULTI_HASH_ITERS times, first
      on the UTF-8 text and then on each previous digest; it pauses exactly
      at i = 0, 1024, 2048, 3072 and 4096, and sends no request. */
  method ComputeProof(browser: Browser, ts: string, challenge: string, token: string) returns (proof: string)
    modifies browser`digested, browser`pauses
    ensures proof == Proof(browser.sha, ts, challenge, token)
    ensures browser.digested == old(browser.digested) + ChainInputs(browser.sha, Utf8(ts + challenge + token), MULTI_HASH_ITERS)
    ensures browser.pauses == old(browser.pauses) + [0, 1024, 2048, 3072, 4096]
  {
    var combined := ts + challenge + token;
    var first := Utf8(combined);
    var hashBuf := browser.Sha256(first);
    var i := 0;
    while i < MULTI_HASH_ITERS
      invariant 0 <= i <= MULTI_HASH_ITERS
      invariant hashBuf == Iterate(browser.sha, i, browser.sha(first))
      invariant browser.digested == old(browser.digested) + ChainInputs(browser.sha, first, i)
      invariant browser.pauses == old(browser.pauses) + PausesBelow(i)
    {
      ChainInputsStep(browser.sha, first, i);
      PausesStep(i);
      hashBuf := ChainStep(browser, first, i, hashBuf);
      i := i + 1;
    }
    PausesOfChain();
    proof := TokenCodec.ArrayBufferToBase64(hashBuf);
  }
}
