/** The three HTML escapers of the front end: `escapeHtml` in static/panel.js
    and static/compte.js (the same code in both files up to the parameter
    name: a chain of five `replaceAll` calls) and `escapeHTML` in
    static/main.js (one regex pass). */
module Escaping {
  import opened Wrappers
  import opened Json

  /** `s.replaceAll(c, rep)` for a one-char pattern. */
  function ReplaceAll(s: string, c: char, rep: string): (r: string)
    ensures c !in s ==> r == s
  {
    if s == [] then "" else (if s[0] == c then rep else [s[0]]) + ReplaceAll(s[1..], c, rep)
  }

  lemma {:induction false} ReplaceAllAppend(a: string, b: string, c: char, rep: string)
    ensures ReplaceAll(a + b, c, rep) == ReplaceAll(a, c, rep) + ReplaceAll(b, c, rep)
  {
    if a == [] {
      assert a + b == b;
    } else {
      assert (a + b)[1..] == a[1..] + b;
      ReplaceAllAppend(a[1..], b, c, rep);
    }
  }

  /** The five replacements in the order the source applies them. */
  function Chain(s: string): string {
    ReplaceAll(ReplaceAll(ReplaceAll(ReplaceAll(ReplaceAll(s, '&', "&amp;"), '<', "&lt;"), '>', "&gt;"), '"', "&quot;"), '\'', "&#039;")
  }

  /** `escapeHtml(s)`: "" for a falsy (empty) string, otherwise the chain. */
  function EscapeHtml(s: string): string {
    if s == "" then "" else Chain(s)
  }

  /** Each char with its replacement applied in one pass. */
  function Expand(s: string, f: char -> string): string
  {
    if s == [] then "" else f(s[0]) + Expand(s[1..], f)
  }

  predicate IsSpecial(c: char) {
    c == '&' || c == '<' || c == '>' || c == '"' || c == '\''
  }

  /** What each char becomes under `escapeHtml`. */
  function ChainEntity(c: char): string {
    match c
    case '&' => "&amp;"
    case '<' => "&lt;"
    case '>' => "&gt;"
    case '"' => "&quot;"
    case '\'' => "&#039;"
    case _ => [c]
  }

  /** What each char becomes under `escapeHTML` of static/main.js. */
  function RegexEntity(c: char): string {
    match c
    case '&' => "&amp;"
    case '<' => "&lt;"
    case '>' => "&gt;"
    case '"' => "&quot;"
    case '\'' => "&#39;"
    case _ => [c]
  }

  /** `escapeHTML(str)` of static/main.js: `str.replace(/[&<>"']/g, ...)`. */
  function EscapeHtmlOnePass(s: string): string {
    Expand(s, RegexEntity)
  }

  lemma ReplaceAllOne(c: char, p: char, rep: string)
    ensures ReplaceAll([c], p, rep) == if c == p then rep else [c]
  {
    assert [c][1..] == [];
  }

  /** The last four steps of the chain leave a text without '<', '>', '"'
      and '\'' unchanged. */
  lemma ChainTailInert(t: string)
    requires '<' !in t && '>' !in t && '"' !in t && '\'' !in t
    ensures ReplaceAll(ReplaceAll(ReplaceAll(ReplaceAll(t, '<', "&lt;"), '>', "&gt;"), '"', "&quot;"), '\'', "&#039;") == t
  {
  }

  lemma ChainAmp()
    ensures Chain("&") == "&amp;"
  {
    ReplaceAllOne('&', '&', "&amp;");
    ChainTailInert("&amp;");
  }

  lemma ChainLt()
    ensures Chain("<") == "&lt;"
  {
    ReplaceAllOne('<', '&', "&amp;");
    ReplaceAllOne('<', '<', "&lt;");
    assert '>' !in "&lt;" && '"' !in "&lt;" && '\'' !in "&lt;";
  }

  lemma ChainGt()
    ensures Chain(">") == "&gt;"
  {
    ReplaceAllOne('>', '&', "&amp;");
    ReplaceAllOne('>', '<', "&lt;");
    ReplaceAllOne('>', '>', "&gt;");
    assert '"' !in "&gt;" && '\'' !in "&gt;";
  }

  lemma ChainQuot()
    ensures Chain("\"") == "&quot;"
  {
    ReplaceAllOne('"', '&', "&amp;");
    ReplaceAllOne('"', '<', "&lt;");
    ReplaceAllOne('"', '>', "&gt;");
    ReplaceAllOne('"', '"', "&quot;");
    assert '\'' !in "&quot;";
  }

  lemma ChainApos()
    ensures Chain("'") == "&#039;"
  {
    ReplaceAllOne('\'', '&', "&amp;");
    ReplaceAllOne('\'', '<', "&lt;");
    ReplaceAllOne('\'', '>', "&gt;");
    ReplaceAllOne('\'', '"', "&quot;");
    ReplaceAllOne('\'', '\'', "&#039;");
  }

  /** Chain with its five steps written out, for the one-char case. */
  lemma ChainOne(c: char)
    ensures Chain([c]) == ChainEntity(c)
  {
    match c
    case '&' => ChainAmp();
    case '<' => ChainLt();
    case '>' => ChainGt();
    case '"' => ChainQuot();
    case '\'' => ChainApos();
    case _ =>
      ReplaceAllOne(c, '&', "&amp;");
      ChainTailInert([c]);
  }

  lemma ChainAppend(a: string, b: string)
    ensures Chain(a + b) == Chain(a) + Chain(b)
  {
    var x1 := ReplaceAll(a, '&', "&amp;");
    var y1 := ReplaceAll(b, '&', "&amp;");
    ReplaceAllAppend(a, b, '&', "&amp;");
    var x2 := ReplaceAll(x1, '<', "&lt;");
    var y2 := ReplaceAll(y1, '<', "&lt;");
    ReplaceAllAppend(x1, y1, '<', "&lt;");
    var x3 := ReplaceAll(x2, '>', "&gt;");
    var y3 := ReplaceAll(y2, '>', "&gt;");
    ReplaceAllAppend(x2, y2, '>', "&gt;");
    var x4 := ReplaceAll(x3, '"', "&quot;");
    var y4 := ReplaceAll(y3, '"', "&quot;");
    ReplaceAllAppend(x3, y3, '"', "&quot;");
    ReplaceAllAppend(x4, y4, '\'', "&#039;");
  }

  /** Because '&' is replaced first, the chain of `replaceAll` calls equals a
      single pass: every special char becomes exactly one entity ('<' becomes
      "&lt;", never "&amp;lt;") and every other char is kept, in order. */
  lemma {:induction false} EscapeHtmlSinglePass(s: string)
    ensures EscapeHtml(s) == Expand(s, ChainEntity)
  {
    if s != [] {
      EscapeHtmlSinglePass(s[1..]);
      assert s == [s[0]] + s[1..];
      ChainAppend([s[0]], s[1..]);
      ChainOne(s[0]);
    }
  }

  /** No '<', '>', '"' or '\'' in t. */
  predicate IsInert(t: string) {
    forall i :: 0 <= i < |t| ==> t[i] != '<' && t[i] != '>' && t[i] != '"' && t[i] != '\''
  }

  lemma {:induction false} ExpandInert(s: string, f: char -> string)
    requires forall i :: 0 <= i < |s| ==> IsInert(f(s[i]))
    ensures IsInert(Expand(s, f))
  {
    if s != [] {
      assert forall i :: 0 <= i < |s[1..]| ==> s[1..][i] == s[i + 1];
      ExpandInert(s[1..], f);
      var h, t := f(s[0]), Expand(s[1..], f);
      assert Expand(s, f) == h + t;
      forall i | 0 <= i < |h + t| ensures (h + t)[i] != '<' && (h + t)[i] != '>' && (h + t)[i] != '"' && (h + t)[i] != '\'' {
        if i < |h| { assert (h + t)[i] == h[i]; } else { assert (h + t)[i] == t[i - |h|]; }
      }
    }
  }

  lemma {:induction false} ExpandIdentity(s: string, f: char -> string)
    requires forall i :: 0 <= i < |s| ==> f(s[i]) == [s[i]]
    ensures Expand(s, f) == s
  {
    if s != [] {
      ExpandIdentity(s[1..], f);
    }
  }

  lemma EntitiesInert(c: char)
    ensures IsInert(ChainEntity(c)) && IsInert(RegexEntity(c))
  {
  }

  /** The output of `escapeHtml` never holds '<', '>', '"' or '\''. */
  lemma EscapeHtmlInert(s: string)
    ensures IsInert(EscapeHtml(s))
  {
    EscapeHtmlSinglePass(s);
    forall i | 0 <= i < |s| ensures IsInert(ChainEntity(s[i])) {
      EntitiesInert(s[i]);
    }
    ExpandInert(s, ChainEntity);
  }

  /** `escapeHtml(v)` on a property value as the pages pass it: the guard
      `if (!s) return ""` maps undefined, null, false and "" to "", and any
      other value is converted by `String(v)` before the chain. */
  function EscapeHtmlValue(v: Option<Json>): string {
    if !Truthy(v) then "" else EscapeHtml(ToJsString(v))
  }

  /** A falsy value escapes to "", a string value escapes as the string
      itself does, `true` renders as "true", and no value yields '<', '>',
      '"' or '\''. */
  lemma EscapeHtmlValueCases(v: Option<Json>)
    ensures !Truthy(v) ==> EscapeHtmlValue(v) == ""
    ensures v.Some? && v.value.JStr? ==> EscapeHtmlValue(v) == EscapeHtml(v.value.s)
    ensures v == Some(JBool(true)) ==> EscapeHtmlValue(v) == "true"
    ensures IsInert(EscapeHtmlValue(v))
  {
    EscapeHtmlInert(ToJsString(v));
    EscapeHtmlPlain("true");
  }

  /** A string with none of the five special chars comes back unchanged. */
  lemma EscapeHtmlPlain(s: string)
    requires forall i :: 0 <= i < |s| ==> !IsSpecial(s[i])
    ensures EscapeHtml(s) == s
  {
    EscapeHtmlSinglePass(s);
    ExpandIdentity(s, ChainEntity);
  }

  /** The same two facts for `escapeHTML` of static/main.js. */
  lemma EscapeHtmlOnePassInert(s: string)
    ensures IsInert(EscapeHtmlOnePass(s))
  {
    forall i | 0 <= i < |s| ensures IsInert(RegexEntity(s[i])) {
      EntitiesInert(s[i]);
    }
    ExpandInert(s, RegexEntity);
  }

  lemma EscapeHtmlOnePassPlain(s: string)
    requires forall i :: 0 <= i < |s| ==> !IsSpecial(s[i])
    ensures EscapeHtmlOnePass(s) == s
  {
    ExpandIdentity(s, RegexEntity);
  }

  /** The two escapers differ only in the apostrophe's entity. */
  lemma {:induction false} EscapersAgreeWithoutApostrophe(s: string)
    requires forall i :: 0 <= i < |s| ==> s[i] != '\''
    ensures EscapeHtml(s) == EscapeHtmlOnePass(s)
  {
    EscapeHtmlSinglePass(s);
    ExpandAgree(s);
  }

  lemma {:induction false} ExpandAgree(s: string)
    requires forall i :: 0 <= i < |s| ==> s[i] != '\''
    ensures Expand(s, ChainEntity) == Expand(s, RegexEntity)
  {
    if s != [] {
      ExpandAgree(s[1..]);
    }
  }

  /** Reference decoder: reads the entities back, so that an injective
      escaper is one whose output it inverts. */
  function Unescape(t: string): string
  {
    if t == [] then ""
    else if |t| >= 5 && t[..5] == "&amp;" then "&" + Unescape(t[5..])
    else if |t| >= 4 && t[..4] == "&lt;" then "<" + Unescape(t[4..])
    else if |t| >= 4 && t[..4] == "&gt;" then ">" + Unescape(t[4..])
    else if |t| >= 6 && t[..6] == "&quot;" then "\"" + Unescape(t[6..])
    else if |t| >= 6 && t[..6] == "&#039;" then "'" + Unescape(t[6..])
    else if |t| >= 5 && t[..5] == "&#39;" then "'" + Unescape(t[5..])
    else [t[0]] + Unescape(t[1..])
  }

  lemma UnescapeAmp(rest: string)
    ensures Unescape("&amp;" + rest) == "&" + Unescape(rest)
  {
    var t := "&amp;" + rest;
    assert t[..5] == "&amp;" && t[5..] == rest;
  }

  lemma UnescapeAngles(rest: string)
    ensures Unescape("&lt;" + rest) == "<" + Unescape(rest)
    ensures Unescape("&gt;" + rest) == ">" + Unescape(rest)
  {
    var t := "&lt;" + rest;
    assert t[1] == 'l' && t[..4] == "&lt;" && t[4..] == rest;
    var u := "&gt;" + rest;
    assert u[1] == 'g' && u[..4] == "&gt;" && u[4..] == rest;
  }

  lemma UnescapeQuot(rest: string)
    ensures Unescape("&quot;" + rest) == "\"" + Unescape(rest)
  {
    var t := "&quot;" + rest;
    assert t[1] == 'q' && t[..6] == "&quot;" && t[6..] == rest;
  }

  lemma UnescapeApos(rest: string)
    ensures Unescape("&#039;" + rest) == "'" + Unescape(rest)
  {
    var t := "&#039;" + rest;
    assert t[1] == '#' && t[2] == '0' && t[..6] == "&#039;" && t[6..] == rest;
  }

  lemma UnescapeShortApos(rest: string)
    ensures Unescape("&#39;" + rest) == "'" + Unescape(rest)
  {
    var u := "&#39;" + rest;
    assert u[1] == '#' && u[2] == '3' && u[3] == '9' && u[..5] == "&#39;" && u[5..] == rest;
  }

  lemma UnescapePlain(c: char, rest: string)
    requires c != '&'
    ensures Unescape([c] + rest) == [c] + Unescape(rest)
  {
    var t := [c] + rest;
    assert t[0] == c && t[1..] == rest;
    assert |t| >= 4 ==> t[..4][0] == c;
    assert |t| >= 5 ==> t[..5][0] == c;
    assert |t| >= 6 ==> t[..6][0] == c;
  }

  lemma UnescapeEntity(c: char, rest: string, f: char -> string)
    requires f == ChainEntity || f == RegexEntity
    ensures Unescape(f(c) + rest) == [c] + Unescape(rest)
  {
    var e := f(c);
    if c == '&' {
      assert e == "&amp;";
      UnescapeAmp(rest);
    } else if c == '<' {
      assert e == "&lt;";
      UnescapeAngles(rest);
    } else if c == '>' {
      assert e == "&gt;";
      UnescapeAngles(rest);
    } else if c == '"' {
      assert e == "&quot;";
      UnescapeQuot(rest);
    } else if c == '\'' {
      assert e == "&#039;" || e == "&#39;";
      UnescapeApos(rest);
      UnescapeShortApos(rest);
    } else {
      assert e == [c];
      UnescapePlain(c, rest);
    }
  }

  /** Escaping is lossless: unescaping the output gives back the input, for
      both escapers. */
  lemma {:induction false} UnescapeExpand(s: string, f: char -> string)
    requires f == ChainEntity || f == RegexEntity
    ensures Unescape(Expand(s, f)) == s
  {
    if s != [] {
      UnescapeExpand(s[1..], f);
      UnescapeEntity(s[0], Expand(s[1..], f), f);
    }
  }

  lemma EscapeHtmlInjective(s: string, t: string)
    requires EscapeHtml(s) == EscapeHtml(t)
    ensures s == t
  {
    EscapeHtmlSinglePass(s);
    EscapeHtmlSinglePass(t);
    UnescapeExpand(s, ChainEntity);
    UnescapeExpand(t, ChainEntity);
  }

  lemma EscapeHtmlOnePassInjective(s: string, t: string)
    requires EscapeHtmlOnePass(s) == EscapeHtmlOnePass(t)
    ensures s == t
  {
    UnescapeExpand(s, RegexEntity);
    UnescapeExpand(t, RegexEntity);
  }
}
