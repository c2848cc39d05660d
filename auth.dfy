/** The sign-in page of static/auth.js: a three-step exchange with the
    server (handshake, action request, login or register) and the page state
    around it (the login/register mode, the message line, the redirect). */
module Auth {
  import opened Wrappers
  import opened Bytes
  import opened Hex
  import opened Json
  import opened JsText
  import opened Runtime

  const API_BASE := "/auth"
  const HANDSHAKE_URL := API_BASE + "/handshake"
  const REQUEST_ACTION_URL := API_BASE + "/request_action"
  const HTTP_ERROR_PREFIX := "Erreur HTTP "
  const FILL_FIELDS := "Veuillez remplir les champs requis."
  const CHECKING := "⏳ Vérification en cours..."
  const LOGIN_OK := "Connexion réussie ✅"
  const REGISTER_OK := "Inscription réussie ✅"
  const UNKNOWN_ERROR := "Erreur inconnue"

  /** The message of the Error `apiPost` throws on a non-2xx status: the
      body text, or "Erreur HTTP <status>" when the body is empty. */
  function HttpErrorMessage(status: nat, text: string): (m: string)
    ensures m != ""
    ensures text != "" ==> m == text
    ensures text == "" ==> m == HTTP_ERROR_PREFIX + Decimal(status)
  {
    if text != "" then text else HTTP_ERROR_PREFIX + Decimal(status)
  }

  /** What `apiPost` resolves to for a given reply: the parsed object (an
      empty object when the body is not JSON), or the message it throws. */
  function ApiPostResult(res: Response): Result<Object> {
    match res
    case Failed(m) => Err(m)
    case Http(status, _, text, json) =>
      if !res.Ok() then Err(HttpErrorMessage(status, text))
      else Ok(json.GetOr(map[]))
  }

  /** An empty error body still yields a message that names the status, and
      different statuses yield different messages. */
  lemma HttpErrorDistinct(s1: nat, s2: nat)
    requires HttpErrorMessage(s1, "") == HttpErrorMessage(s2, "")
    ensures s1 == s2
  {
    var d1, d2 := Decimal(s1), Decimal(s2);
    assert HTTP_ERROR_PREFIX + d1 == HTTP_ERROR_PREFIX + d2;
    assert d1 == (HTTP_ERROR_PREFIX + d1)[|HTTP_ERROR_PREFIX|..];
    assert d2 == (HTTP_ERROR_PREFIX + d2)[|HTTP_ERROR_PREFIX|..];
    DecimalRoundTrip(s1);
    DecimalRoundTrip(s2);
  }

  /** `apiPost(url, data)`. */
  method ApiPost(browser: Browser, url: string, data: Object) returns (r: Result<Object>)
    modifies browser`sent
    ensures browser.sent == old(browser.sent) + [Post(url, data)]
    ensures r == ApiPostResult(browser.server(old(browser.sent), Post(url, data)))
  {
    var res := browser.Fetch(Post(url, data));
    if res.Failed? {
      return Err(res.message);
    }
    if !res.Ok() {
      return Err(HttpErrorMessage(res.status, res.text));
    }
    if res.json.None? {
      return Ok(map[]);
    }
    return Ok(res.json.value);
  }

  /** `sha256Hex(input)`: 64 lowercase hex digits of the digest of the
      UTF-8 encoding of input. */
  method Sha256Hex(browser: Browser, input: string) returns (hex: string)
    modifies browser`digested
    ensures browser.digested == old(browser.digested) + [Utf8(input)]
    ensures hex == HexOf(browser.sha(Utf8(input)))
    ensures |hex| == 2 * DIGEST_LENGTH
    ensures forall j :: 0 <= j < |hex| ==> IsLowerHexDigit(hex[j])
  {
    var digest := browser.Sha256(Utf8(input));
    HexOfAt(digest);
    hex := HexOf(digest);
  }

  /** `startHandshake()`'s result: `h.handshake_id` as received, and the
      client proof. */
  datatype Handshake = Handshake(handshakeId: Option<Json>, clientProof: string)

  /** The client proof for a handshake reply: the hex digest of its nonce
      (`undefined` is encoded as the empty string). */
  function ClientProof(sha: seq<byte> -> Digest, h: Object): string {
    HexOf(sha(Utf8(EncoderInput(Field(h, "nonce")))))
  }

  /** `startHandshake()`. */
  method StartHandshake(browser: Browser) returns (r: Result<Handshake>)
    modifies browser`sent, browser`digested
    ensures browser.sent == old(browser.sent) + [Post(HANDSHAKE_URL, map[])]
    ensures var h := ApiPostResult(browser.server(old(browser.sent), Post(HANDSHAKE_URL, map[])));
      && (h.Err? ==> r == Err(h.message) && browser.digested == old(browser.digested))
      && (h.Ok? ==> r == Ok(Handshake(Field(h.value, "handshake_id"), ClientProof(browser.sha, h.value)))
                    && browser.digested == old(browser.digested) + [Utf8(EncoderInput(Field(h.value, "nonce")))])
  {
    var h := ApiPost(browser, HANDSHAKE_URL, map[]);
    if h.Err? {
      return Err(h.message);
    }
    var clientProof := Sha256Hex(browser, EncoderInput(Field(h.value, "nonce")));
    return Ok(Handshake(Field(h.value, "handshake_id"), clientProof));
  }

  /** The body of the action request: the handshake id as received (dropped
      when undefined) and the client proof. */
  function ActionBody(handshakeId: Option<Json>, clientProof: string): (body: Object)
    ensures Field(body, "handshake_id") == handshakeId
    ensures Field(body, "client_proof") == Some(JStr(clientProof))
    ensures body.Keys <= {"handshake_id", "client_proof"}
  {
    Put(map["client_proof" := JStr(clientProof)], "handshake_id", handshakeId)
  }

  /** `requestAction(handshake_id, clientProof)`. */
  method RequestAction(browser: Browser, handshakeId: Option<Json>, clientProof: string) returns (r: Result<Object>)
    modifies browser`sent
    ensures browser.sent == old(browser.sent) + [Post(REQUEST_ACTION_URL, ActionBody(handshakeId, clientProof))]
    ensures r == ApiPostResult(browser.server(old(browser.sent), Post(REQUEST_ACTION_URL, ActionBody(handshakeId, clientProof))))
  {
    r := ApiPost(browser, REQUEST_ACTION_URL, ActionBody(handshakeId, clientProof));
  }

  /** `mode === "login" ? "login" : "register"`. */
  function Endpoint(mode: string): string {
    if mode == "login" then "login" else "register"
  }

  /** The final payload: the action id and token as received, the user id
      and PIN, and the pseudo only in register mode. */
  function Payload(action: Object, userid: string, pin: string, pseudo: string, mode: string): Object {
    var base := Put(Put(map["userid" := JStr(userid), "pin" := JStr(pin)],
                        "action_id", Field(action, "action_id")),
                    "action_token", Field(action, "action_token"));
    if mode == "register" then base["pseudo" := JStr(pseudo)] else base
  }

  /** The payload forwards every field verbatim, and carries "pseudo"
      exactly in register mode. */
  lemma PayloadFields(action: Object, userid: string, pin: string, pseudo: string, mode: string)
    ensures var p := Payload(action, userid, pin, pseudo, mode);
      && Field(p, "action_id") == Field(action, "action_id")
      && Field(p, "action_token") == Field(action, "action_token")
      && Field(p, "userid") == Some(JStr(userid))
      && Field(p, "pin") == Some(JStr(pin))
      && ("pseudo" in p <==> mode == "register")
      && (mode == "register" ==> p["pseudo"] == JStr(pseudo))
      && p.Keys <= {"action_id", "action_token", "userid", "pin", "pseudo"}
  {
  }

  /** The last request of `secureAuth`: the payload to the endpoint of the mode. */
  function FinalRequest(action: Object, userid: string, pin: string, pseudo: string, mode: string): Request {
    Post(API_BASE + "/" + Endpoint(mode), Payload(action, userid, pin, pseudo, mode))
  }

  /** The final request goes to /auth/login exactly when mode is "login",
      and to /auth/register otherwise; its body carries "pseudo" exactly when
      mode is "register", and the user id and PIN verbatim. */
  lemma FinalRequestShape(action: Object, userid: string, pin: string, pseudo: string, mode: string)
    ensures var r3 := FinalRequest(action, userid, pin, pseudo, mode);
      && (r3.url == "/auth/login" <==> mode == "login")
      && (r3.url != "/auth/login" ==> r3.url == "/auth/register")
      && ("pseudo" in r3.body <==> mode == "register")
      && Field(r3.body, "userid") == Some(JStr(userid))
      && Field(r3.body, "pin") == Some(JStr(pin))
  {
    PayloadFields(action, userid, pin, pseudo, mode);
    assert API_BASE + "/" + "login" == "/auth/login";
    assert API_BASE + "/" + "register" == "/auth/register";
  }

  /** The whole of `secureAuth(userid, pin, pseudo, mode)` as a value: the
      requests sent, in order, and what it resolves to or throws. */
  function AuthFlow(sha: seq<byte> -> Digest, server: (seq<Request>, Request) -> Response,
                    history: seq<Request>, userid: string, pin: string, pseudo: string, mode: string)
    : (seq<Request>, Result<Object>)
  {
    var r1 := Post(HANDSHAKE_URL, map[]);
    match ApiPostResult(server(history, r1))
    case Err(m) => ([r1], Err(m))
    case Ok(h) =>
      var r2 := Post(REQUEST_ACTION_URL, ActionBody(Field(h, "handshake_id"), ClientProof(sha, h)));
      match ApiPostResult(server(history + [r1], r2))
      case Err(m) => ([r1, r2], Err(m))
      case Ok(action) =>
        var r3 := FinalRequest(action, userid, pin, pseudo, mode);
        ([r1, r2, r3], ApiPostResult(server(history + [r1, r2], r3)))
  }

  /** The digest inputs of `secureAuth`: the nonce of a successful
      handshake, and nothing when the handshake throws. */
  function AuthDigests(server: (seq<Request>, Request) -> Response, history: seq<Request>): seq<seq<byte>>
  {
    match ApiPostResult(server(history, Post(HANDSHAKE_URL, map[])))
    case Err(_) => []
    case Ok(h) => [Utf8(EncoderInput(Field(h, "nonce")))]
  }

  /** One digest is computed exactly when the action request is sent, and
      that request carries the hex of this very digest as its client
      proof. */
  lemma AuthDigestsProof(sha: seq<byte> -> Digest, server: (seq<Request>, Request) -> Response,
                         history: seq<Request>, userid: string, pin: string, pseudo: string, mode: string)
    ensures var reqs := AuthFlow(sha, server, history, userid, pin, pseudo, mode).0;
      var ds := AuthDigests(server, history);
      && |ds| <= 1
      && (|ds| == 1 <==> |reqs| >= 2)
      && (|ds| == 1 ==> Field(reqs[1].body, "client_proof") == Some(JStr(HexOf(sha(ds[0])))))
  {
    AuthOrder(sha, server, history, userid, pin, pseudo, mode);
    var h := ApiPostResult(server(history, Post(HANDSHAKE_URL, map[])));
    if h.Ok? {
      var body := ActionBody(Field(h.value, "handshake_id"), ClientProof(sha, h.value));
      assert Field(body, "client_proof") == Some(JStr(ClientProof(sha, h.value)));
    }
  }

  /** `secureAuth(userid, pin, pseudo, mode)`. */
  method SecureAuth(browser: Browser, userid: string, pin: string, pseudo: string, mode: string)
    returns (r: Result<Object>)
    modifies browser`sent, browser`digested
    ensures var (reqs, result) := AuthFlow(browser.sha, browser.server, old(browser.sent), userid, pin, pseudo, mode);
      browser.sent == old(browser.sent) + reqs && r == result
    ensures browser.digested == old(browser.digested) + AuthDigests(browser.server, old(browser.sent))
  {
    ghost var history := browser.sent;
    var hs := StartHandshake(browser);
    if hs.Err? {
      return Err(hs.message);
    }
    var action := RequestAction(browser, hs.value.handshakeId, hs.value.clientProof);
    if action.Err? {
      return Err(action.message);
    }
    var endpoint := Endpoint(mode);
    var payload := Payload(action.value, userid, pin, pseudo, mode);
    assert browser.sent == history + [Post(HANDSHAKE_URL, map[]),
                                      Post(REQUEST_ACTION_URL, ActionBody(hs.value.handshakeId, hs.value.clientProof))];
    r := ApiPost(browser, API_BASE + "/" + endpoint, payload);
  }

  /** The exchange runs in order and stops at the first error: the
      handshake comes first, the action request carries the handshake id as
      received and the hex digest of the nonce, and the final request is
      sent only when both earlier steps succeeded. Fewer than three requests
      means the flow threw. */
  lemma AuthOrder(sha: seq<byte> -> Digest, server: (seq<Request>, Request) -> Response,
                  history: seq<Request>, userid: string, pin: string, pseudo: string, mode: string)
    ensures var (reqs, result) := AuthFlow(sha, server, history, userid, pin, pseudo, mode);
      var h := ApiPostResult(server(history, Post(HANDSHAKE_URL, map[])));
      && 1 <= |reqs| <= 3
      && reqs[0] == Post(HANDSHAKE_URL, map[])
      && (h.Err? <==> |reqs| == 1)
      && (|reqs| < 3 ==> result.Err?)
      && (|reqs| >= 2 ==> reqs[1] == Post(REQUEST_ACTION_URL,
                                          ActionBody(Field(h.value, "handshake_id"), ClientProof(sha, h.value))))
      && (|reqs| == 3 ==>
            var action := ApiPostResult(server(history + [reqs[0]], reqs[1]));
            action.Ok? && reqs[2] == FinalRequest(action.value, userid, pin, pseudo, mode)
            && result == ApiPostResult(server(history + [reqs[0], reqs[1]], reqs[2])))
  {
    var r1 := Post(HANDSHAKE_URL, map[]);
    var h := ApiPostResult(server(history, r1));
    if h.Ok? {
      var r2 := Post(REQUEST_ACTION_URL, ActionBody(Field(h.value, "handshake_id"), ClientProof(sha, h.value)));
      var action := ApiPostResult(server(history + [r1], r2));
      if action.Ok? {
        var (reqs, result) := AuthFlow(sha, server, history, userid, pin, pseudo, mode);
        assert reqs == [r1, r2, FinalRequest(action.value, userid, pin, pseudo, mode)];
      }
    }
  }

  /** The guard `!userid || !pin` on the trimmed inputs. */
  predicate MissingFields(useridRaw: string, pinRaw: string) {
    Trim(useridRaw) == "" || Trim(pinRaw) == ""
  }

  /** The guard fires exactly when either raw input is empty or all
      whitespace. */
  lemma MissingFieldsWhitespace(useridRaw: string, pinRaw: string)
    ensures MissingFields(useridRaw, pinRaw) <==> AllWhitespace(useridRaw) || AllWhitespace(pinRaw)
  {
    TrimEmpty(useridRaw);
    TrimEmpty(pinRaw);
  }

  /** `isLoginMode ? "login" : "register"`. */
  function ModeOf(isLoginMode: bool): string {
    if isLoginMode then "login" else "register"
  }

  /** The message shown once `secureAuth` settles. */
  function OutcomeMessage(r: Result<Object>, mode: string): (m: string)
    ensures r.Ok? && mode == "login" ==> m == LOGIN_OK
    ensures r.Ok? && mode != "login" ==> m == REGISTER_OK
    ensures r.Err? && r.message != "" ==> m == r.message
    ensures r.Err? && r.message == "" ==> m == UNKNOWN_ERROR
  {
    if r.Ok? then (if mode == "login" then LOGIN_OK else REGISTER_OK)
    else if r.message != "" then r.message
    else UNKNOWN_ERROR
  }

  /** The page's state: the mode, the message line and its colour (ok or
      not), and whether the redirect to "/" has been scheduled. */
  class AuthPage {
    var isLoginMode: bool
    var msg: string
    var msgOk: bool
    var redirectScheduled: bool

    constructor ()
      ensures isLoginMode && msg == "" && !msgOk && !redirectScheduled
    {
      isLoginMode := true;
      msg := "";
      msgOk := false;
      redirectScheduled := false;
    }

    /** The toggle button: login mode and register mode swap. */
    method Toggle()
      modifies this`isLoginMode
      ensures isLoginMode == !old(isLoginMode)
    {
      isLoginMode := !isLoginMode;
    }

    /** The part of the main button after the fields are read and trimmed. */
    method Submit(browser: Browser, userid: string, pin: string, pseudo: string)
      modifies this`msg, this`msgOk, this`redirectScheduled, browser`sent, browser`digested
      ensures userid == "" || pin == "" ==>
        && browser.sent == old(browser.sent) && browser.digested == old(browser.digested)
        && msg == FILL_FIELDS && !msgOk && redirectScheduled == old(redirectScheduled)
      ensures userid != "" && pin != "" ==>
        var mode := ModeOf(isLoginMode);
        var (reqs, r) := AuthFlow(browser.sha, browser.server, old(browser.sent), userid, pin, pseudo, mode);
        && browser.sent == old(browser.sent) + reqs
        && browser.digested == old(browser.digested) + AuthDigests(browser.server, old(browser.sent))
        && msg == OutcomeMessage(r, mode)
        && msgOk == r.Ok?
        && redirectScheduled == (old(redirectScheduled) || (r.Ok? && isLoginMode))
    {
      if userid == "" || pin == "" {
        msg, msgOk := FILL_FIELDS, false;
        return;
      }
      msg, msgOk := CHECKING, false;
      var mode := ModeOf(isLoginMode);
      var r := SecureAuth(browser, userid, pin, pseudo, mode);
      msg, msgOk := OutcomeMessage(r, mode), r.Ok?;
      if r.Ok? && isLoginMode {
        redirectScheduled := true;
      }
    }

    /** The main button, with the raw field values as parameters. A missing
        user id or PIN is reported without any request; otherwise the
        exchange runs in the current mode, its outcome is shown, and only a
        successful login schedules the redirect. */
    method Click(browser: Browser, useridRaw: string, pinRaw: string, pseudoRaw: string)
      modifies this`msg, this`msgOk, this`redirectScheduled, browser`sent, browser`digested
      ensures MissingFields(useridRaw, pinRaw) ==>
        && browser.sent == old(browser.sent) && browser.digested == old(browser.digested)
        && msg == FILL_FIELDS && !msgOk && redirectScheduled == old(redirectScheduled)
      ensures !MissingFields(useridRaw, pinRaw) ==>
        var mode := ModeOf(isLoginMode);
        var (reqs, r) := AuthFlow(browser.sha, browser.server, old(browser.sent),
                                  Trim(useridRaw), Trim(pinRaw), Trim(pseudoRaw), mode);
        && browser.sent == old(browser.sent) + reqs
        && browser.digested == old(browser.digested) + AuthDigests(browser.server, old(browser.sent))
        && msg == OutcomeMessage(r, mode)
        && msgOk == r.Ok?
        && redirectScheduled == (old(redirectScheduled) || (r.Ok? && isLoginMode))
    {
      Submit(browser, Trim(useridRaw), Trim(pinRaw), Trim(pseudoRaw));
    }
  }
}
