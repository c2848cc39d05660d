/** The recharge flow of static/panel.js: fetch a token and a challenge,
    unmask the token, bind a timestamp into the proof-of-work, and POST the
    recharge; a guard on the amount runs before any of it. */
module Recharge {
  import opened Wrappers
  import opened Bytes
  import opened Base64
  import opened Json
  import opened JsText
  import opened Runtime
  import opened TokenCodec
  import opened HashChain

  const TOKEN_URL := "/api/token"
  const ACCOUNT_URL := "/account"
  const TOKEN_ERROR := "Impossible d'obtenir le token"
  /** The message of the SyntaxError `res.json()` throws on a body that is
      not JSON (its exact wording is the browser's). */
  const JSON_ERROR := "Unexpected token in JSON"
  /** The message of the TypeError thrown when `message.replace` is called
      on a non-string `error` field. */
  const REPLACE_ERROR := "message.replace is not a function"
  const INVALID_AMOUNT := "Veuillez entrer un montant valide."
  const RECHARGE_FAILED := "Erreur lors de la recharge"
  const ERROR_PREFIX := "Erreur : "

  /** `fetchServerToken()`'s result: `json.tk` and `json.ch`, as the text
      they become where they are used (`atob(tk)`, `ts + ch + ...`). */
  datatype ServerToken = ServerToken(encodedToken: string, challenge: string)

  /** `getTokenProof()`'s result. */
  datatype TokenProof = TokenProof(tokenForServer: string, proof: string, ts: string)

  /** What `fetchServerToken` makes of the reply to GET /api/token. */
  function ServerTokenOf(res: Response): Result<ServerToken> {
    match res
    case Failed(m) => Err(m)
    case Http(_, _, _, json) =>
      if !res.Ok() then Err(TOKEN_ERROR)
      else if json.None? then Err(JSON_ERROR)
      else Ok(ServerToken(ToJsString(Field(json.value, "tk")), ToJsString(Field(json.value, "ch"))))
  }

  /** `fetchServerToken()`: one GET, and its reply read as above. */
  method FetchServerToken(browser: Browser) returns (r: Result<ServerToken>)
    modifies browser`sent
    ensures browser.sent == old(browser.sent) + [Get(TOKEN_URL)]
    ensures r == ServerTokenOf(browser.server(old(browser.sent), Get(TOKEN_URL)))
  {
    var res := browser.Fetch(Get(TOKEN_URL));
    if res.Failed? {
      return Err(res.message);
    }
    if !res.Ok() {
      return Err(TOKEN_ERROR);
    }
    if res.json.None? {
      return Err(JSON_ERROR);
    }
    var json := res.json.value;
    return Ok(ServerToken(ToJsString(Field(json, "tk")), ToJsString(Field(json, "ch"))));
  }

  /** What `getTokenProof` returns for a given reply to GET /api/token and
      a given timestamp. */
  function TokenProofOf(sha: seq<byte> -> Digest, res: Response, ts: string): Result<TokenProof> {
    match ServerTokenOf(res)
    case Err(m) => Err(m)
    case Ok(st) =>
      match Unmask(st.encodedToken)
      case None => Err(ATOB_ERROR)
      case Some(raw) => Ok(TokenProof(Encode(raw), Proof(sha, ts, st.challenge, BinaryOf(raw)), ts))
  }

  /** The digest inputs of `getTokenProof` for a given reply and timestamp:
      none when the token cannot be fetched or decoded, otherwise the chain
      over `ts + challenge + token`. */
  function TokenDigests(sha: seq<byte> -> Digest, res: Response, ts: string): seq<seq<byte>> {
    match ServerTokenOf(res)
    case Err(_) => []
    case Ok(st) =>
      match Unmask(st.encodedToken)
      case None => []
      case Some(raw) => ChainInputs(sha, Utf8(ts + st.challenge + BinaryOf(raw)), MULTI_HASH_ITERS)
  }

  /** The pause indices of `getTokenProof`: the five of the chain, when the
      chain runs at all. */
  function TokenPauses(res: Response): seq<nat> {
    match ServerTokenOf(res)
    case Err(_) => []
    case Ok(st) => if Unmask(st.encodedToken).None? then [] else PausesBelow(MULTI_HASH_ITERS)
  }

  /** The chain runs exactly when a token proof is returned: then
      1 + MULTI_HASH_ITERS digests are computed, the last one being the
      digest whose base64 is the proof, and the loop pauses five times. */
  lemma TokenWork(sha: seq<byte> -> Digest, res: Response, ts: string)
    ensures var tpr, ds, ps := TokenProofOf(sha, res, ts), TokenDigests(sha, res, ts), TokenPauses(res);
      && (tpr.Err? <==> ds == [])
      && (tpr.Err? <==> ps == [])
      && (tpr.Ok? ==> |ds| == 1 + MULTI_HASH_ITERS && ps == [0, 1024, 2048, 3072, 4096]
                      && tpr.value.proof == Encode(sha(ds[MULTI_HASH_ITERS])))
  {
    var tpr := TokenProofOf(sha, res, ts);
    if tpr.Ok? {
      var st := ServerTokenOf(res).value;
      var raw := Unmask(st.encodedToken).value;
      var first := Utf8(ts + st.challenge + BinaryOf(raw));
      ChainInputsShape(sha, first, MULTI_HASH_ITERS);
      PausesOfChain();
    }
  }

  /** `getTokenProof()`, with `Math.floor(Date.now() / 1000).toString()`
      passed in as ts. When the token cannot be fetched or decoded, no
      digest is computed; otherwise the chain is. */
  method GetTokenProof(browser: Browser, ts: string) returns (r: Result<TokenProof>)
    modifies browser`sent, browser`digested, browser`pauses
    ensures browser.sent == old(browser.sent) + [Get(TOKEN_URL)]
    ensures r == TokenProofOf(browser.sha, browser.server(old(browser.sent), Get(TOKEN_URL)), ts)
    ensures browser.digested == old(browser.digested) + TokenDigests(browser.sha, browser.server(old(browser.sent), Get(TOKEN_URL)), ts)
    ensures browser.pauses == old(browser.pauses) + TokenPauses(browser.server(old(browser.sent), Get(TOKEN_URL)))
  {
    var st := FetchServerToken(browser);
    if st.Err? {
      return Err(st.message);
    }
    var tokenStr := DecodeXorBase64(st.value.encodedToken);
    if tokenStr.Err? {
      return Err(tokenStr.message);
    }
    ghost var raw := Unmask(st.value.encodedToken).value;
    var proof := ComputeProof(browser, ts, st.value.challenge, tokenStr.value);
    PausesOfChain();
    BtoaToken(raw);
    var tokenForServer := Btoa(tokenStr.value).value;
    return Ok(TokenProof(tokenForServer, proof, ts));
  }

  /** The proof is bound to the very timestamp returned beside it, and
      `tokenForServer` is the plain base64 of the raw token: it decodes to
      the unmasked bytes, never to the masked bytes of the wire form `tk`
      (unless the token is empty). */
  lemma TokenProofFields(sha: seq<byte> -> Digest, res: Response, ts: string)
    requires TokenProofOf(sha, res, ts).Ok?
    ensures var tp, st := TokenProofOf(sha, res, ts).value, ServerTokenOf(res).value;
      var raw := Unmask(st.encodedToken).value;
      && tp.ts == ts
      && tp.proof == Proof(sha, ts, st.challenge, BinaryOf(raw))
      && Decode(tp.tokenForServer) == Some(raw)
      && (raw != [] ==> Decode(tp.tokenForServer) != Decode(st.encodedToken))
  {
    var st := ServerTokenOf(res).value;
    var raw := Unmask(st.encodedToken).value;
    DecodeEncode(raw);
    if raw != [] {
      var wire := Decode(st.encodedToken).value;
      XorXor(wire, XOR_KEY);
      XorChanges(raw, XOR_KEY);
    }
  }

  /** When the server sends the masked wire form of a raw token, the client
      returns that token's plain base64 and the proof over it. */
  lemma TokenProofOfMasked(sha: seq<byte> -> Digest, status: nat, contentType: string, text: string,
                           json: Object, raw: seq<byte>, challenge: string, ts: string)
    requires 200 <= status <= 299
    requires Field(json, "tk") == Some(JStr(Mask(raw))) && Field(json, "ch") == Some(JStr(challenge))
    ensures TokenProofOf(sha, Http(status, contentType, text, Some(json)), ts)
      == Ok(TokenProof(Encode(raw), Proof(sha, ts, challenge, BinaryOf(raw)), ts))
  {
    UnmaskMask(raw);
  }

  /** JavaScript truthiness of `parseFloat`'s result. */
  predicate NumberTruthy(a: Number) {
    match a
    case NaN => false
    case Finite(x) => x != 0.0
    case _ => true
  }

  /** `amount <= 0` (false for NaN, as every comparison with NaN is). */
  predicate NumberAtMostZero(a: Number) {
    match a
    case Finite(x) => x <= 0.0
    case NegativeInfinity => true
    case _ => false
  }

  /** The guard `!amount || amount <= 0`: it rejects a missing (NaN), zero,
      negative or minus-infinite amount and admits every positive amount,
      including +Infinity. */
  predicate AmountRejected(a: Number)
    ensures AmountRejected(a) <==> !(a.PositiveInfinity? || (a.Finite? && a.value > 0.0))
  {
    !NumberTruthy(a) || NumberAtMostZero(a)
  }

  /** What the handler shows for a reply to the recharge POST, before the
      links in it are made clickable: Err when reading the reply throws. */
  function ReplyMessage(status: nat, contentType: string, text: string, json: Option<Object>, amountText: string): Result<string>
  {
    if Includes(contentType, "application/json") then
      match json
      case None => Err(JSON_ERROR)
      case Some(data) =>
        if Truthy(Field(data, "success")) then Ok("✅ Recharge effectuée : +" + amountText + " €")
        else
          match Field(data, "error")
          case Some(JStr(e)) => Ok(if e != "" then e else RECHARGE_FAILED)
          case Some(JBool(true)) => Err(REPLACE_ERROR)
          case _ => Ok(RECHARGE_FAILED)
    else Ok(text)
  }

  /** `"Erreur : " + (err.message || err)`: an Error with an empty message
      reads as "Error". */
  function CaughtText(message: string): string {
    ERROR_PREFIX + (if message != "" then message else "Error")
  }

  /** What follows the reply to the recharge POST: the requests it leads to
      (the account reload after a success) and the text left in the result
      element. */
  function ReplyOutcome(res: Response, amountText: string): (seq<Request>, string)
  {
    match res
    case Failed(m) => ([], CaughtText(m))
    case Http(status, contentType, text, json) =>
      match ReplyMessage(status, contentType, text, json, amountText)
      case Err(m) => ([], CaughtText(m))
      case Ok(message) =>
        var reload := if Includes(contentType, "application/json") && Truthy(Field(json.value, "success"))
                      then [Get(ACCOUNT_URL)] else [];
        (reload, (if !res.Ok() then ERROR_PREFIX else "") + message)
  }

  /** The whole click handler as a value: the requests it sends, in order,
      and the text it leaves in the result element (before links are made
      clickable), given the amount, its `toFixed(2)` text and the
      timestamp. */
  function RechargeFlow(sha: seq<byte> -> Digest, server: (seq<Request>, Request) -> Response,
                        history: seq<Request>, amount: Number, amountText: string, ts: string): (seq<Request>, string)
  {
    if AmountRejected(amount) then ([], INVALID_AMOUNT)
    else AdmittedFlow(sha, server, history, amount, amountText, ts)
  }

  /** The handler after the amount passed the guard: the token GET, then
      whatever follows from the outcome of `getTokenProof`. */
  function AdmittedFlow(sha: seq<byte> -> Digest, server: (seq<Request>, Request) -> Response,
                        history: seq<Request>, amount: Number, amountText: string, ts: string): (seq<Request>, string)
  {
    var tokenReq := Get(TOKEN_URL);
    var after := AfterToken(server, history + [tokenReq], amount, amountText,
                            TokenProofOf(sha, server(history, tokenReq), ts));
    ([tokenReq] + after.0, after.1)
  }

  /** What follows `getTokenProof`: its failure is caught and shown,
      otherwise the recharge POST is sent. */
  function AfterToken(server: (seq<Request>, Request) -> Response, history: seq<Request>,
                      amount: Number, amountText: string, tpr: Result<TokenProof>): (seq<Request>, string)
  {
    match tpr
    case Err(m) => ([], CaughtText(m))
    case Ok(tp) => SendOutcome(server, history, amount, amountText, tp)
  }

  /** The recharge POST for a computed token proof, and what its reply leads
      to. */
  function SendOutcome(server: (seq<Request>, Request) -> Response, history: seq<Request>,
                       amount: Number, amountText: string, tp: TokenProof): (seq<Request>, string)
  {
    var post := PostRecharge(JsonNumber(amount), tp.tokenForServer, tp.proof, tp.ts);
    var outcome := ReplyOutcome(server(history, post), amountText);
    ([post] + outcome.0, outcome.1)
  }

  /** The amount the recharge POST carries: an admitted finite amount as
      itself, which is positive, and an admitted +Infinity as `null`. */
  lemma RechargeAmountSent(amount: Number)
    requires !AmountRejected(amount)
    ensures JsonNumber(amount).Some? ==> JsonNumber(amount).value > 0.0 && amount == Finite(JsonNumber(amount).value)
    ensures JsonNumber(amount).None? <==> amount.PositiveInfinity?
  {
  }

  /** Validation short-circuits: a rejected amount sends nothing and shows
      the validation message. */
  lemma RechargeGuard(sha: seq<byte> -> Digest, server: (seq<Request>, Request) -> Response,
                      history: seq<Request>, amount: Number, amountText: string, ts: string)
    ensures var (reqs, text) := RechargeFlow(sha, server, history, amount, amountText, ts);
      AmountRejected(amount) <==> reqs == []
    ensures AmountRejected(amount) ==> RechargeFlow(sha, server, history, amount, amountText, ts).1 == INVALID_AMOUNT
  {
  }

  /** Order: the token GET comes first; a recharge POST is sent only after
      the token was fetched and decoded, carries the admitted amount and the
      proof bound to its own ts, and at most the account reload follows it;
      nothing is retried. */
  lemma RechargeOrder(sha: seq<byte> -> Digest, server: (seq<Request>, Request) -> Response,
                      history: seq<Request>, amount: Number, amountText: string, ts: string)
    requires !AmountRejected(amount)
    ensures var reqs := RechargeFlow(sha, server, history, amount, amountText, ts).0;
      var tpr := TokenProofOf(sha, server(history, Get(TOKEN_URL)), ts);
      && 1 <= |reqs| <= 3
      && reqs[0] == Get(TOKEN_URL)
      && (tpr.Err? <==> |reqs| == 1)
      && (|reqs| >= 2 ==> reqs[1] == PostRecharge(JsonNumber(amount), tpr.value.tokenForServer, tpr.value.proof, ts))
      && (|reqs| == 3 ==> reqs[2] == Get(ACCOUNT_URL))
  {
    var tpr := TokenProofOf(sha, server(history, Get(TOKEN_URL)), ts);
    if tpr.Ok? {
      var tp := tpr.value;
      var post := PostRecharge(JsonNumber(amount), tp.tokenForServer, tp.proof, tp.ts);
      assert tp.ts == ts by { TokenProofFields(sha, server(history, Get(TOKEN_URL)), ts); }
      var res := server(history + [Get(TOKEN_URL)], post);
      if res.Http? {
        var reqs := RechargeFlow(sha, server, history, amount, amountText, ts).0;
        assert reqs[..2] == [Get(TOKEN_URL), post];
      }
    }
  }

  /** A JSON refusal such as `{success: false, error: "insufficient funds"}`
      is shown as is (after "Erreur : " on a non-2xx status) and leads to no
      further request. */
  lemma RefusalShown(status: nat, data: Object, error: string, amountText: string)
    requires Field(data, "success") == Some(JBool(false)) && Field(data, "error") == Some(JStr(error)) && error != ""
    ensures ReplyOutcome(Http(status, "application/json", "", Some(data)), amountText)
      == ([], (if 200 <= status <= 299 then "" else ERROR_PREFIX) + error)
  {
    assert Includes("application/json", "application/json") by {
      assert "application/json"[..|"application/json"|] == "application/json";
    }
  }

  /** In the whole flow, such a refusal is not retried: the token GET and the
      one POST are all that is sent. */
  lemma RechargeRefusalShown(sha: seq<byte> -> Digest, server: (seq<Request>, Request) -> Response,
                             history: seq<Request>, amount: Number, amountText: string, ts: string,
                             status: nat, data: Object, error: string)
    requires !AmountRejected(amount)
    requires TokenProofOf(sha, server(history, Get(TOKEN_URL)), ts).Ok?
    requires var tp := TokenProofOf(sha, server(history, Get(TOKEN_URL)), ts).value;
      server(history + [Get(TOKEN_URL)], PostRecharge(JsonNumber(amount), tp.tokenForServer, tp.proof, tp.ts))
        == Http(status, "application/json", "", Some(data))
    requires Field(data, "success") == Some(JBool(false)) && Field(data, "error") == Some(JStr(error)) && error != ""
    ensures var (reqs, text) := RechargeFlow(sha, server, history, amount, amountText, ts);
      |reqs| == 2 && text == (if 200 <= status <= 299 then "" else ERROR_PREFIX) + error
  {
    RefusalShown(status, data, error, amountText);
  }

  /** The handler's steps after the recharge POST: read the reply, reload
      the account after a success, and compose the text to show. */
  method HandleReply(browser: Browser, res: Response, amountText: string) returns (text: string)
    modifies browser`sent
    ensures browser.sent == old(browser.sent) + ReplyOutcome(res, amountText).0
    ensures text == ReplyOutcome(res, amountText).1
  {
    if res.Failed? {
      return CaughtText(res.message);
    }
    var message := ReplyMessage(res.status, res.contentType, res.text, res.json, amountText);
    if message.Err? {
      return CaughtText(message.message);
    }
    if Includes(res.contentType, "application/json") && Truthy(Field(res.json.value, "success")) {
      // loadAccount(): its own failures are caught and only logged
      var _ := browser.Fetch(Get(ACCOUNT_URL));
    }
    text := (if !res.Ok() then ERROR_PREFIX else "") + message.value;
  }

  /** The result element of the recharge page. */
  class RechargePanel {
    var result: string

    constructor ()
      ensures result == ""
    {
      result := "";
    }

    /** The click handler on "Recharger", with the parsed amount, its
        `toFixed(2)` text and the current timestamp as parameters. */
    method OnClick(browser: Browser, amount: Number, amountText: string, ts: string)
      modifies this, browser`sent, browser`digested, browser`pauses
      ensures var (reqs, text) := RechargeFlow(browser.sha, browser.server, old(browser.sent), amount, amountText, ts);
        browser.sent == old(browser.sent) + reqs && result == text
      ensures AmountRejected(amount) ==> browser.digested == old(browser.digested) && browser.pauses == old(browser.pauses)
      ensures !AmountRejected(amount) ==>
        var res := browser.server(old(browser.sent), Get(TOKEN_URL));
        && browser.digested == old(browser.digested) + TokenDigests(browser.sha, res, ts)
        && browser.pauses == old(browser.pauses) + TokenPauses(res)
    {
      if !NumberTruthy(amount) || NumberAtMostZero(amount) {
        result := INVALID_AMOUNT;
        return;
      }
      result := "Obtention token sécurisé...";
      var tp := GetTokenProof(browser, ts);
      ghost var afterToken := browser.sent;
      Finish(browser, amount, amountText, tp);
      assert afterToken == old(browser.sent) + [Get(TOKEN_URL)];
    }

    /** The handler's steps once the token and proof are known. */
    method Finish(browser: Browser, amount: Number, amountText: string, tp: Result<TokenProof>)
      modifies this`result, browser`sent
      ensures var (reqs, text) := AfterToken(browser.server, old(browser.sent), amount, amountText, tp);
        browser.sent == old(browser.sent) + reqs && result == text
    {
      if tp.Err? {
        result := CaughtText(tp.message);
        return;
      }
      result := "Envoi de la demande...";
      Send(browser, amount, amountText, tp.value);
    }

    /** The recharge POST and the handling of its reply. */
    method Send(browser: Browser, amount: Number, amountText: string, tp: TokenProof)
      modifies this`result, browser`sent
      ensures var (reqs, text) := SendOutcome(browser.server, old(browser.sent), amount, amountText, tp);
        browser.sent == old(browser.sent) + reqs && result == text
    {
      var post := PostRecharge(JsonNumber(amount), tp.tokenForServer, tp.proof, tp.ts);
      var res := browser.Fetch(post);
      result := HandleReply(browser, res, amountText);
    }
  }
}
