/** The browser services the front end calls and this model treats as
    abstract: `crypto.subtle.digest("SHA-256", ·)`, `fetch` against the
    server, and the `setTimeout(r, 0)` pause. The digest and the server are
    fixed functions chosen by whoever builds the Browser; every call is
    logged so that contracts can say which calls were made and in what
    order. */
module Runtime {
  import opened Bytes
  import opened Wrappers
  import opened Json

  const DIGEST_LENGTH := 32

  /** A SHA-256 digest (FIPS 180-4): 32 bytes. */
  type Digest = d: seq<byte> | |d| == DIGEST_LENGTH witness seq(32, _ => 0)

  /** A JavaScript number as `parseFloat` can return it. */
  datatype Number = NaN | Finite(value: real) | PositiveInfinity | NegativeInfinity

  /** A number as `JSON.stringify` writes it: a finite number as itself,
      NaN and both infinities as `null` (None). */
  function JsonNumber(a: Number): (r: Option<real>)
    ensures r.Some? <==> a.Finite?
    ensures a.Finite? ==> r == Some(a.value)
  {
    if a.Finite? then Some(a.value) else None
  }

  /** A request the front end sends. */
  datatype Request =
    | Get(url: string)
      /** POST with `JSON.stringify(body)` */
    | Post(url: string, body: Object)
      /** POST /api/recharge with `JSON.stringify({ amount, token, proof, ts })`;
          the amount as it is serialised, None standing for `null` */
    | PostRecharge(amount: Option<real>, token: string, proof: string, ts: string)

  /** What `fetch` yields: a rejection (no response at all), or a response
      whose body is `text` and, when that text parses as a JSON object,
      `json`. */
  datatype Response =
    | Failed(message: string)
    | Http(status: nat, contentType: string, text: string, json: Option<Object>)
  {
    /** `res.ok`: a status in the range 200 to 299. */
    predicate Ok() requires Http? {
      200 <= status <= 299
    }
  }

  class Browser {
    /** SHA-256, left uninterpreted. */
    const sha: seq<byte> -> Digest
    /** The server: the reply to a request, given every request sent before it. */
    const server: (seq<Request>, Request) -> Response
    /** Every request sent, in order. */
    var sent: seq<Request>
    /** The input of every digest computed, in order. */
    var digested: seq<seq<byte>>
    /** The loop index at each pause, in order. */
    var pauses: seq<nat>

    constructor (sha: seq<byte> -> Digest, server: (seq<Request>, Request) -> Response)
      ensures this.sha == sha && this.server == server
      ensures sent == [] && digested == [] && pauses == []
    {
      this.sha := sha;
      this.server := server;
      sent, digested, pauses := [], [], [];
    }

    /** `await crypto.subtle.digest("SHA-256", input)`. */
    method Sha256(input: seq<byte>) returns (d: Digest)
      modifies this`digested
      ensures d == sha(input)
      ensures digested == old(digested) + [input]
    {
      d := sha(input);
      digested := digested + [input];
    }

    /** `await fetch(...)`. */
    method Fetch(req: Request) returns (res: Response)
      modifies this`sent
      ensures res == server(old(sent), req)
      ensures sent == old(sent) + [req]
    {
      res := server(sent, req);
      sent := sent + [req];
    }

    /** `await new Promise(r => setTimeout(r, 0))` at loop index i. */
    method Pause(i: nat)
      modifies this`pauses
      ensures pauses == old(pauses) + [i]
    {
      pauses := pauses + [i];
    }
  }
}
