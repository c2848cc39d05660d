# Storefront front-end core, modelled in Dafny

This project models the client-side logic of a licence storefront. Four
browser scripts are covered:

- **`static/panel.js`** is the account panel. Its recharge button does four things:
  - it checks the amount;
  - it fetches a server token and challenge from `/api/token` and unmasks the token (base64, then XOR with the key `0x3A`);
  - it computes a proof of work: a SHA-256 chain of 1 + 5000 digests over `ts + challenge + token`, with a pause every 1024 iterations;
  - it POSTs the recharge and shows the reply.
- **`static/auth.js`** is the sign-in page. It runs a three-step exchange:
  - a handshake;
  - an action request carrying the hex SHA-256 of the server nonce;
  - the login or the registration.

  Around that exchange it keeps the login/register toggle, the message line and the redirect after a login.
- **`static/main.js`** is the storefront. Its stock list is kept up to date from socket messages:
  - an array replaces the list;
  - a single item is upserted by token.

  It renders either the category buttons (each category once, with its count of available items) or the cards of one category.
- **`static/compte.js`** holds an `escapeHtml` that is the same code as the one in panel.js up to the parameter name. It is modelled once, as `Escaping.EscapeHtml`.

Modules:

- `Wrappers` defines Option and Result. Result models a thrown `Error` and its message.
- `Bytes` covers:
  - bytes and binary strings (`String.fromCharCode` / `charCodeAt`);
  - XOR, `&` with a low-bit mask, and UTF-8 (`TextEncoder`).
- `Base64` covers:
  - `btoa`: the standard encoding of RFC 4648, section 4;
  - `atob`: the forgiving-base64 decode of the WHATWG Infra Standard, which `atob` uses.
- `Hex` is the `toString(16).padStart(2, "0")` rendering.
- `Escaping` holds the three HTML escapers.
- `JsText` covers `trim`, `includes` and decimal rendering.
- `Json` is parsed reply objects and JavaScript truthiness.
- `Runtime` is the browser services: class `Browser`.
  - The SHA-256 function and the server are fixed function fields.
  - Every digest input, request and pause is logged, so that contracts can state which calls were made and in what order.
- `TokenCodec`, `HashChain` and `Recharge` cover panel.js.
- `Auth` covers auth.js.
- `Stock` covers main.js.

The recharge guard `!amount || amount <= 0` (static/panel.js:129) admits `+Infinity`, for example from `parseFloat("1e400")`. `Recharge.AmountRejected` states the guard as written. `JSON.stringify` then writes that amount as `null`, and the recharge request carries the amount as serialised (`Runtime.JsonNumber`).

## Model

| member | source | states |
|---|---|---|
| Bytes.BinaryOf | static/panel.js:6-10 | the loop's string has one char per byte, char i having code byte i, so every code is below 256 |
| Bytes.BytesOfBinaryOf | static/panel.js:6-11 | reading the char codes back gives the original bytes |
| Bytes.BinaryOfBytesOf | static/panel.js:118 | a binary string is rebuilt exactly from its char codes |
| Bytes.BitXorBound | static/panel.js:94 | XOR of two numbers below 2^n is below 2^n; for bytes, the Uint8Array store does not truncate |
| Bytes.BitXorInvolution | static/panel.js:94 | XOR with the same key twice gives the byte back |
| Bytes.XorXor | static/panel.js:81 | masking a byte sequence twice with XOR_KEY gives it back |
| Bytes.XorChanges | static/panel.js:81 | a non-zero key changes every non-empty byte sequence |
| Bytes.BitAndLowMaskMod | static/panel.js:107 | `i & (2^n - 1)` is `i mod 2^n` |
| Bytes.Utf8Char | static/panel.js:17 | a char encodes to 1 to 4 bytes, 1 exactly below 0x80 and 2 exactly from 0x80 to 0x7FF |
| Bytes.Utf8Append | static/panel.js:103-104 | the encoding of `ts + challenge + token` is the three encodings in sequence |
| Bytes.Utf8BinaryLength | static/panel.js:103-104 | a decoded token encodes to one byte per char below 0x80 and two per char above |
| Bytes.Utf8Ascii | static/panel.js:116-117 | an ASCII text such as the decimal timestamp encodes to its own char codes |
| Base64.Encode | static/panel.js:11 | the padded standard encoding of RFC 4648, section 4: its length is 4 * ceil(n / 3) chars, a multiple of 4; Base64.DecodeEncode proves it decodes back to the bytes |
| Base64.Decode | static/panel.js:91 | the forgiving decode: whitespace stripped, up to two trailing "=" dropped, failure on a length of 1 mod 4 or a char outside the alphabet; its round trip with Encode is Base64.DecodeEncode |
| Base64.EncodeRaw | static/panel.js:11 | the unpadded encoding has 4 chars per 3 bytes and a 2- or 3-char tail, all in the base64 alphabet |
| Base64.DecodeEncode | static/panel.js:11 | decoding the encoding of any byte sequence gives it back |
| Base64.Atob | static/panel.js:91 | atob yields a binary string, and throws exactly where the forgiving decode fails |
| Base64.Btoa | static/panel.js:118 | btoa throws exactly on a string with a char code above 0xFF |
| Base64.AtobBtoa | static/panel.js:118 | `atob(btoa(s)) == s` for every binary string |
| TokenCodec.ArrayBufferToBase64 | static/panel.js:5-12 | the result is the standard encoding of the buffer and decodes back to it |
| TokenCodec.DecodeXorBase64 | static/panel.js:90-99 | the token has one char per decoded byte, char i is byte i XOR 0x3A, every code is below 256, and it throws exactly when atob does |
| TokenCodec.Unmask | static/panel.js:90-98 | the decoded bytes XOR 0x3A, or failure exactly when the decode fails; TokenCodec.DecodeXorBase64 is proved equal to it and TokenCodec.UnmaskMask inverts it |
| TokenCodec.UnmaskMask | static/panel.js:90-98 | unmasking the server's masked wire form of any raw token gives exactly that token |
| TokenCodec.BtoaToken | static/panel.js:118 | `btoa(tokenStr)` never throws and is the plain base64 of the raw token |
| Runtime.Browser.Sha256 | static/panel.js:15-19 | the digest is the SHA-256 of the input bytes, and the input is logged |
| Runtime.Browser.Fetch | static/panel.js:84 | the reply is the server's answer to the request, given all earlier requests, and the request is logged |
| Runtime.Browser.Pause | static/panel.js:107 | a pause records its loop index and touches nothing else |
| HashChain.ChainInputsShape | static/panel.js:102-108 | 5000 iterations make 5001 digest calls: the first over the UTF-8 text, each later one over the previous digest's raw bytes |
| HashChain.PausePointMultiple | static/panel.js:107 | `(i & 1023) === 0` holds exactly on multiples of 1024 |
| HashChain.PausesStep | static/panel.js:105-107 | the pause indices below i + 1 are those below i, plus i when it is a pause point |
| HashChain.ChainStep | static/panel.js:106-107 | one iteration digests the previous digest, logs it as the next chain input, and pauses exactly at a pause point |
| HashChain.Proof | static/panel.js:102-110 | base64 of digest number 1 + 5000 of the chain over the UTF-8 of `ts + challenge + token`; HashChain.ComputeProof is proved to return it and Recharge.TokenWork ties it to the last digest input |
| HashChain.ComputeProof | static/panel.js:102-110 | the result is base64 of the last digest of the pause-free chain; digest inputs are exactly the chain; pauses fire at 0, 1024, 2048, 3072 and 4096 |
| Recharge.ServerTokenOf | static/panel.js:84-87 | a rejection's message, the fixed error on a non-2xx status or a non-JSON body, otherwise `String(tk)` and `String(ch)`; Recharge.FetchServerToken is proved to return it |
| Recharge.FetchServerToken | static/panel.js:83-88 | one GET /api/token; a rejection, a non-2xx status or a non-JSON body throws; otherwise `tk` and `ch` are returned |
| Recharge.GetTokenProof | static/panel.js:113-120 | one GET, then the result for that reply; the digest inputs and pauses are those of the chain when the token was fetched and decoded, and none otherwise |
| Recharge.TokenWork | static/panel.js:113-120 | the chain runs exactly when a token proof is returned: then 5001 digests are computed, the proof is the base64 of the last, and the loop pauses at 0, 1024, 2048, 3072 and 4096 |
| Recharge.TokenProofFields | static/panel.js:113-119 | the proof is bound to the very ts returned beside it; tokenForServer decodes to the raw token, not to the masked wire bytes |
| Recharge.TokenProofOfMasked | static/panel.js:113-119 | for a masked wire token the client returns the raw token's plain base64 and the proof over it |
| Recharge.AmountRejected | static/panel.js:128-129 | the guard rejects NaN, zero, negatives and minus infinity and admits every positive amount, +Infinity included |
| Recharge.RechargeGuard | static/panel.js:128-132 | a rejected amount sends no request and shows the validation message, and an admitted one sends a request |
| Recharge.RechargeOrder | static/panel.js:139-162 | the token GET comes first; the POST follows only after the token was fetched and decoded, and carries the amount, token, proof and ts; at most the account reload follows |
| Recharge.ReplyMessage | static/panel.js:155-176 | the success text with the amount, the JSON error text or the fixed refusal text, the plain body text for a non-JSON reply, or the error thrown by `res.json()` or `message.replace`; Recharge.RefusalShown states the refusal case |
| Recharge.ReplyOutcome | static/panel.js:155-176 | the account reload after a JSON success only, and the text shown, prefixed by "Erreur : " on a non-2xx status; Recharge.HandleReply is proved to produce it |
| Recharge.RechargeFlow | static/panel.js:127-185 | the requests and the result text of the whole handler; Recharge.RechargeGuard, Recharge.RechargeOrder and Recharge.RechargeRefusalShown state its order and its guard, and Recharge.RechargePanel.OnClick is proved to follow it |
| Runtime.JsonNumber | static/panel.js:147-148 | `JSON.stringify` writes a finite number as itself and NaN or an infinity as `null` |
| Recharge.RechargeAmountSent | static/panel.js:129-148 | the POST carries an admitted finite amount as itself, which is positive, and carries `null` exactly when the amount is +Infinity |
| Recharge.RefusalShown | static/panel.js:155-176 | a JSON refusal's error text is shown as is, after "Erreur : " on a non-2xx status, with no further request |
| Recharge.RechargeRefusalShown | static/panel.js:127-185 | a refused recharge is not retried: the token GET and one POST are all that is sent |
| Recharge.HandleReply | static/panel.js:155-176 | the requests after the POST and the text shown are those of the reply outcome |
| Recharge.RechargePanel.OnClick | static/panel.js:127-185 | the requests sent and the result text are those of the whole flow; a rejected amount computes no digest and no pause, an admitted one the digests and pauses of getTokenProof |
| Recharge.RechargePanel.Finish | static/panel.js:138-182 | after getTokenProof, a failure is caught and shown as "Erreur : " and its message with nothing more sent; otherwise the recharge POST and its reply's outcome follow |
| Recharge.RechargePanel.Send | static/panel.js:143-176 | one recharge POST carrying the amount, token, proof and ts, then the requests and text of its reply's outcome |
| Hex.ByteHexDigits | static/auth.js:25 | each byte becomes two lowercase hex digits, high nibble first, zero-padded |
| Hex.HexOf | static/auth.js:24-26 | the bytes' two-digit lowercase hex renderings joined in order; Hex.HexOfAt and Hex.HexOfInjective state its shape and injectivity |
| Hex.HexOfAt | static/auth.js:24-26 | the rendering has two chars per byte, chars 2i and 2i+1 being the nibbles of byte i, all lowercase hex |
| Hex.HexOfInjective | static/auth.js:24-26 | different digests render differently |
| JsText.Trim | static/auth.js:99-101 | `String.prototype.trim` over ECMAScript's whitespace and line terminators; JsText.TrimEmpty states when it is empty |
| JsText.TrimEmpty | static/auth.js:99-100 | a trimmed field is empty exactly when the raw field is all whitespace |
| JsText.DecimalRoundTrip | static/auth.js:16 | the decimal rendering of a status reads back as that status |
| Auth.HttpErrorMessage | static/auth.js:14-17 | the thrown message is never empty: the body text, or "Erreur HTTP " and the status |
| Auth.HttpErrorDistinct | static/auth.js:16 | with an empty body, different statuses give different messages |
| Auth.ApiPostResult | static/auth.js:14-18 | the rejection's message, HttpErrorMessage on a non-2xx status, otherwise the parsed object or `{}`; Auth.ApiPost is proved to return it |
| Auth.ApiPost | static/auth.js:8-19 | one POST of the data; a rejection or non-2xx status throws; an unparseable body yields `{}` |
| Auth.Sha256Hex | static/auth.js:21-27 | one digest of the UTF-8 input, rendered as 64 lowercase hex digits |
| Auth.StartHandshake | static/auth.js:36-40 | one POST of `{}`; the handshake id is returned as received and the client proof is the hex digest of the nonce; a failure computes no digest |
| Auth.ActionBody | static/auth.js:44-47 | the body carries the handshake id verbatim and the proof under `client_proof`, and nothing else |
| Auth.RequestAction | static/auth.js:43-48 | one POST of that body, and its result |
| Auth.Endpoint | static/auth.js:55 | "login" in login mode and "register" otherwise; Auth.FinalRequestShape states the resulting URL |
| Auth.Payload | static/auth.js:56-57 | action_id, action_token, userid and pin, plus pseudo in register mode only; Auth.PayloadFields states each field |
| Auth.PayloadFields | static/auth.js:56-57 | the payload forwards action_id, action_token, userid and pin verbatim and carries pseudo exactly in register mode |
| Auth.FinalRequestShape | static/auth.js:55-59 | the last request goes to /auth/login exactly when the mode is "login" and to /auth/register otherwise |
| Auth.AuthFlow | static/auth.js:51-60 | the requests and the result of the three steps, stopping at the first error; Auth.AuthOrder states its order and Auth.SecureAuth is proved to follow it |
| Auth.SecureAuth | static/auth.js:51-60 | the requests sent and the result are those of the three-step flow; the nonce of a successful handshake is digested, and nothing is when the handshake throws |
| Auth.AuthDigestsProof | static/auth.js:36-47 | one digest is computed exactly when the action request is sent, and that request's client_proof is the hex of this digest |
| Auth.AuthOrder | static/auth.js:51-60 | the handshake comes first, the action request second, the final request only after both succeed; any error stops the flow |
| Auth.MissingFields | static/auth.js:99-103 | the guard `!userid \|\| !pin` on the trimmed values; Auth.MissingFieldsWhitespace characterises it |
| Auth.MissingFieldsWhitespace | static/auth.js:99-103 | the guard fires exactly when the user id or the PIN is empty or all whitespace |
| Auth.OutcomeMessage | static/auth.js:113-123 | a success shows "Connexion réussie ✅" in login mode and "Inscription réussie ✅" otherwise; an error shows its message, or "Erreur inconnue" when that is empty |
| Auth.AuthPage.constructor | static/auth.js:70 | the page starts in login mode with no message and no redirect |
| Auth.AuthPage.Toggle | static/auth.js:90-93 | the toggle swaps login and register mode |
| Auth.AuthPage.Submit | static/auth.js:103-124 | empty fields send nothing and digest nothing; otherwise the flow runs in the current mode with its digest, its outcome is shown, and only a successful login schedules the redirect |
| Auth.AuthPage.Click | static/auth.js:98-125 | the same, on the trimmed raw field values |
| Escaping.EscapeHtml | static/panel.js:69-77 | "" for the empty string, otherwise the five replaceAll calls with `&` first; Escaping.EscapeHtmlSinglePass, EscapeHtmlInert, EscapeHtmlPlain and EscapeHtmlInjective constrain it |
| Escaping.EscapeHtmlValue | static/panel.js:69-71 | the guard `if (!s) return ""` on a reply value, then `String(s)` escaped; Escaping.EscapeHtmlValueCases states its cases |
| Escaping.ReplaceAll | static/panel.js:72 | a string without the pattern char is unchanged |
| Escaping.ChainOne | static/compte.js:7-11 | because `&` is replaced first, each special char becomes exactly one entity, e.g. `<` becomes `&lt;` and never `&amp;lt;` |
| Escaping.EscapeHtmlSinglePass | static/panel.js:69-77 | the replaceAll chain equals one pass mapping each char to its entity, so every other char keeps its place and order |
| Escaping.EscapeHtmlValueCases | static/panel.js:69-71 | a falsy value (undefined, null, false, "") escapes to ""; a string escapes as itself does; `true` becomes "true"; no output holds `<`, `>`, `"` or `'` |
| Escaping.EscapeHtmlInert | static/panel.js:71-76 | the output contains no `<`, `>`, `"` or `'` |
| Escaping.EscapeHtmlPlain | static/compte.js:4-12 | a string with none of the five special chars is returned unchanged |
| Escaping.EscapeHtmlInjective | static/compte.js:4-12 | different inputs escape differently |
| Escaping.UnescapeExpand | static/panel.js:71-76 | decoding the entities gives the input back |
| Escaping.EscapeHtmlOnePass | static/main.js:110-114 | one regex pass mapping each special char to its entity, `'` to `&#39;`; Escaping.EscapeHtmlOnePassInert, EscapeHtmlOnePassPlain and EscapeHtmlOnePassInjective constrain it |
| Escaping.EscapeHtmlOnePassInert | static/main.js:110-114 | the one-pass output contains no `<`, `>`, `"` or `'` |
| Escaping.EscapeHtmlOnePassPlain | static/main.js:110-114 | a string with none of the five special chars is returned unchanged |
| Escaping.EscapeHtmlOnePassInjective | static/main.js:110-114 | different inputs escape differently |
| Escaping.EscapersAgreeWithoutApostrophe | static/main.js:110-114 | without an apostrophe the two escapers agree; they differ only in `&#39;` against `&#039;` |
| Stock.FindIndex | static/main.js:18 | -1 exactly when no entry has the token, otherwise the first entry with it |
| Stock.Upsert | static/main.js:18-20 | an unseen token is appended; a known one replaces the first matching entry at its index, and the length and all other entries are unchanged |
| Stock.UpsertFound | static/main.js:18-20 | after the merge, a lookup of the token finds the merged entry |
| Stock.UpsertIdempotent | static/main.js:18-20 | receiving the same entry twice equals receiving it once |
| Stock.UpsertDistinct | static/main.js:18-20 | pairwise distinct tokens stay distinct after a single-entry merge |
| Stock.Merge | static/main.js:15-21 | an array message replaces the stock, a single item is upserted by token; Stock.Upsert and Stock.MergeDistinct constrain it |
| Stock.MergeDistinct | static/main.js:15-21 | distinct tokens survive every message that does not itself repeat a token |
| Stock.Distinct | static/main.js:39 | every value appears exactly once, and nothing else appears |
| Stock.DistinctOrder | static/main.js:39 | values are listed in the order of their first occurrence |
| Stock.CategoriesOf | static/main.js:39 | one category per entry, in stock order |
| Stock.Categories | static/main.js:39 | `[...new Set(stockData.map(i => i.category))]`; Stock.CategoriesListed and Stock.DistinctOrder state its members and order |
| Stock.CategoriesListed | static/main.js:39 | a category is listed exactly when some entry has it |
| Stock.AvailableIn | static/main.js:61 | the filter keeps exactly the available entries of the category |
| Stock.AvailableInAppend | static/main.js:61 | the filter keeps stock order (it distributes over concatenation) |
| Stock.CountBound | static/main.js:42 | a category's available count never exceeds its number of entries |
| Stock.StockPage.constructor | static/main.js:4-5 | the page starts with an empty stock and no chosen category |
| Stock.StockPage.RenderCategories | static/main.js:32-51 | one button per listed category with its escaped caption and available count; no cards, no chosen category, message cleared |
| Stock.StockPage.RenderItems | static/main.js:54-75 | one card per available entry of the category, in stock order; "Aucun article disponible" when there is none, otherwise the message is unchanged |
| Stock.StockPage.OnMessage | static/main.js:14-24 | the message is merged into the stock, then the chosen category is re-rendered, or the category list when none is chosen (null or "") |

## Left out

- SHA-256 is the function field `Browser.sha`, left uninterpreted, with a 32-byte result. `crypto.subtle.digest` is a foreign call.
- The network is the function field `Browser.server`:
  - the reply to a request, given every earlier request;
  - `fetch` rejections are replies of the form `Failed(message)`.

  Concurrency between requests is not modelled.
- Async scheduling (`await`, `setTimeout(r, 0)`) is not modelled. A pause is only logged with its loop index.
- Floating point:
  - `parseFloat` yields an abstract `Number`: NaN, a finite real or an infinity;
  - the `toFixed(2)` text of the amount is a parameter;
  - `Date.now()` enters as the `ts` string.
- JSON:
  - reply values are strings, booleans or null; numbers, arrays and nested objects inside a reply are not modelled;
  - a body that is not a JSON object counts as unparseable;
  - key order in `JSON.stringify` is not modelled, since the body is a map.
- Engine-specific messages (`res.json()` on a non-JSON body, `atob` on bad input, `message.replace` on a non-string) are represented by fixed strings.
- The linkify step at static/panel.js:172-174 is not modelled: its output is raw HTML. The model shows the message text it is applied to.
- The DOM is not modelled:
  - `innerHTML` templates, the row animation and its MutationObserver;
  - `updateUI` at static/auth.js:76-88, `showMessage` styling and fade timers;
  - button disabling, and the 800 ms delay before the redirect.

  The model keeps only the state the handlers change: texts, views, mode and the redirect flag.
- `loadAccount` (static/panel.js:39-66): the model records only its GET /account request. Its rendering and its silently caught errors are not modelled.
- WebSocket connection and reconnection (static/main.js:9-12, 26-28) and `buyItem` (static/main.js:78-91) are not modelled. Neither is anything in static/compte.js beyond `escapeHtml`.
- Socket messages are already parsed. A message that is not valid JSON throws inside the listener and changes nothing.
- Items have string `token`, `category` and `montant` fields. Categories that are not strings, where `escapeHTML` would throw, are not modelled.
- The particle animation (static/main.js:123-157) and static/acceuil.js are not modelled.
- Escaping.EscapeHtmlValue: a value is a reply value (a string, a boolean or null, or undefined). Numbers, where `if (!s)` also maps 0 and NaN to "" and `String(s)` renders the rest, are not represented.
- Strings are sequences of Unicode scalar values. JavaScript strings are UTF-16, and a lone surrogate, which `TextEncoder` (static/panel.js:17, static/auth.js:22) encodes as U+FFFD (bytes EF BF BD), is not represented.
- Auth.ApiPostResult: a 2xx reply whose body is the JSON literal `null` is read as an unparseable body and gives `{}`. In the source `apiPost` returns `null`. `h.nonce` then throws a TypeError (static/auth.js:38), and so does the destructuring of a `null` action reply (static/auth.js:53), so `secureAuth` stops there. The model instead goes on: it digests the empty nonce and sends the action request, and possibly also the login or register POST. On the recharge path such a body already gives an error, but with a different message.
