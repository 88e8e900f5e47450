/**
 * The four fixed regular expressions of solver/utils.py, each written as a scanner
 * anchored at the start of a text, together with a declarative description of the
 * texts it matches and the group it captures, and `re.search` as a leftmost scan.
 *
 * Every pattern here is a sequence of literals and greedy character-class runs in
 * which each run is followed by a character outside its class (or by the end of the
 * pattern), so backtracking never finds a second way to match: the greedy scanner
 * is exact.
 */
module Patterns {
  import opened Wrappers

  /** `[A-Za-z0-9+/=]` */
  predicate IsBase64Char(c: char) {
    ('A' <= c <= 'Z') || ('a' <= c <= 'z') || ('0' <= c <= '9') || c == '+' || c == '/' || c == '='
  }

  /** `"` or `'` */
  predicate IsQuote(c: char) {
    c == '"' || c == '\''
  }

  /** Python's `\s` on a str pattern: exactly the code points for which str.isspace() holds. */
  predicate IsSpace(c: char) {
    ('\t' <= c <= '\r') || ('\U{1c}' <= c <= '\U{1f}') || c == ' ' || c == '\U{85}' || c == '\U{a0}'
    || c == '\U{1680}' || ('\U{2000}' <= c <= '\U{200a}') || c == '\U{2028}' || c == '\U{2029}'
    || c == '\U{202f}' || c == '\U{205f}' || c == '\U{3000}'
  }

  /** The character classes the patterns repeat. */
  datatype CharClass = Base64 | NotSemicolon | NotQuote | NotDoubleQuote | Space

  predicate InClass(c: char, k: CharClass) {
    match k
    case Base64 => IsBase64Char(c)
    case NotSemicolon => c != ';'
    case NotQuote => !IsQuote(c)
    case NotDoubleQuote => c != '"'
    case Space => IsSpace(c)
  }

  predicate AllIn(s: string, k: CharClass) {
    forall j :: 0 <= j < |s| ==> InClass(s[j], k)
  }

  predicate StartsWith(t: string, lit: string) {
    |lit| <= |t| && t[..|lit|] == lit
  }

  /** The prefix up to `j` is the prefix up to `i` followed by the slice from `i` to `j`. */
  lemma SplitPrefix(t: string, i: nat, j: nat)
    requires i <= j <= |t|
    ensures t[..j] == t[..i] + t[i..j]
  {
  }

  /** The slice from `i` to `k` is the slice up to `j` followed by the slice from `j`. */
  lemma SplitSlice(t: string, i: nat, j: nat, k: nat)
    requires i <= j <= k <= |t|
    ensures t[i..k] == t[i..j] + t[j..k]
  {
  }

  /** The prefix up to `i + 1` is the prefix up to `i` followed by the character at `i`. */
  lemma PrefixSnoc(t: string, i: nat)
    requires i < |t|
    ensures t[..i + 1] == t[..i] + [t[i]]
  {
  }

  /** The one-character slice at `i`. */
  lemma SliceOne(t: string, i: nat)
    requires i < |t|
    ensures t[i..i + 1] == [t[i]]
  {
  }

  /** Where each of three concatenated parts sits in a text that begins with them. */
  lemma Parts(t: string, a: string, b: string, c: string)
    requires StartsWith(t, a + b + c)
    ensures t[..|a|] == a
    ensures t[|a| .. |a| + |b|] == b
    ensures t[|a| + |b| .. |a| + |b| + |c|] == c
  {
    var w := t[..|a| + |b| + |c|];
    assert t[..|a|] == w[..|a|];
    assert t[|a| .. |a| + |b|] == w[|a| .. |a| + |b|];
    assert t[|a| + |b| .. |a| + |b| + |c|] == w[|a| + |b| ..];
  }

  /**
   * The index just past the longest run of class-`k` characters of `s` that begins at
   * `i`: what a greedy repetition of `k` consumes.
   */
  function RunEnd(s: string, i: nat, k: CharClass): (e: nat)
    requires i <= |s|
    ensures i <= e <= |s|
    ensures forall j :: i <= j < e ==> InClass(s[j], k)
    ensures e == |s| || !InClass(s[e], k)
    decreases |s| - i
  {
    if i == |s| || !InClass(s[i], k) then i else RunEnd(s, i + 1, k)
  }

  /** A run of class-`k` characters that cannot be extended is the one RunEnd finds. */
  lemma RunEndIs(s: string, i: nat, k: CharClass, e: nat)
    requires i <= e <= |s|
    requires forall j :: i <= j < e ==> InClass(s[j], k)
    requires e == |s| || !InClass(s[e], k)
    ensures RunEnd(s, i, k) == e
  {
  }

  /** `https?://` at index `i` of `t`: the index just past it. */
  function SchemeEnd(t: string, i: nat): (r: Option<nat>)
    requires i <= |t|
    ensures r.Some? ==> i + 7 <= r.value <= |t|
  {
    if StartsWith(t[i..], "https://") then Some(i + 8)
    else if StartsWith(t[i..], "http://") then Some(i + 7)
    else None
  }

  /** What follows `https?://` up to `e` completes an http(s) URL whose scheme part holds no quote. */
  lemma SchemeThenRun(t: string, i: nat, e: nat)
    requires i <= |t| && SchemeEnd(t, i).Some? && SchemeEnd(t, i).value < e <= |t|
    ensures IsHttpUrl(t[i..e])
    ensures forall j :: i <= j < SchemeEnd(t, i).value ==> !IsQuote(t[j])
    ensures forall k :: k == NotQuote || k == NotDoubleQuote ==>
      (forall j :: SchemeEnd(t, i).value <= j < e ==> InClass(t[j], k)) ==> AllIn(t[i..e], k)
  {
    var h := SchemeEnd(t, i).value;
    var u := t[i..e];
    if h == i + 8 {
      assert t[i..][..8] == "https://";
      assert u[..8] == t[i..][..8];
    } else {
      assert t[i..][..7] == "http://";
      assert u[..7] == t[i..][..7];
    }
    forall j | i <= j < h ensures !IsQuote(t[j]) {
      assert t[j] == t[i..][j - i];
    }
  }

  // ---------------------------------------------------------------------------
  // Anchored scanners: the match of each pattern that begins at index 0 of `t`,
  // as the value of its capture group.
  // ---------------------------------------------------------------------------

  /** `data:[^;]+;base64,([A-Za-z0-9+/=]+)` */
  function DataUriAt(t: string): (r: Option<string>)
    ensures r.Some? ==> |r.value| > 0 && AllIn(r.value, Base64)
  {
    if !StartsWith(t, "data:") then None
    else
      var j := RunEnd(t, 5, NotSemicolon);
      if j == 5 || !StartsWith(t[j..], ";base64,") then None
      else
        var e := RunEnd(t, j + 8, Base64);
        if e == j + 8 then None else Some(t[j + 8 .. e])
  }

  /** `([A-Za-z0-9+/=]{100,})` */
  function LongRunAt(t: string): (r: Option<string>)
    ensures r.Some? ==> |r.value| >= 100 && AllIn(r.value, Base64)
  {
    var e := RunEnd(t, 0, Base64);
    if e >= 100 then Some(t[..e]) else None
  }

  /**
   * `https?://` at index `i` of `t`, then a non-empty greedy run of class `k`, then a
   * character outside `k`: the index of that closing character.
   */
  function UrlEnd(t: string, i: nat, k: CharClass): (r: Option<nat>)
    requires i <= |t| && (k == NotQuote || k == NotDoubleQuote)
    ensures r.Some? ==> i < r.value < |t| && !InClass(t[r.value], k)
    ensures r.Some? ==> IsHttpUrl(t[i..r.value]) && AllIn(t[i..r.value], k)
  {
    match SchemeEnd(t, i)
    case None => None
    case Some(h) =>
      var e := RunEnd(t, h, k);
      if e == h || e == |t| then None
      else SchemeThenRun(t, i, e); Some(e)
  }

  /** `action=["'](https?://[^"']+)["']` */
  function FormActionAt(t: string): (r: Option<string>)
    ensures r.Some? ==> IsHttpUrl(r.value) && AllIn(r.value, NotQuote)
  {
    if !StartsWith(t, "action=") || |t| == 7 || !IsQuote(t[7]) then None
    else match UrlEnd(t, 8, NotQuote)
      case None => None
      case Some(e) => Some(t[8..e])
  }

  /** `"submit_url"\s*:\s*"`: the index just past the opening quote of the value. */
  function FieldValueStart(t: string): (r: Option<nat>)
    ensures r.Some? ==> 14 <= r.value <= |t|
  {
    if !StartsWith(t, "\"submit_url\"") then None
    else
      var c := RunEnd(t, 12, Space);
      if !StartsWith(t[c..], ":") then None
      else
        var q := RunEnd(t, c + 1, Space);
        if !StartsWith(t[q..], "\"") then None else Some(q + 1)
  }

  /** `"submit_url"\s*:\s*"(https?://[^"]+)"` */
  function SubmitUrlFieldAt(t: string): (r: Option<string>)
    ensures r.Some? ==> IsHttpUrl(r.value) && AllIn(r.value, NotDoubleQuote)
  {
    match FieldValueStart(t)
    case None => None
    case Some(u) =>
      match UrlEnd(t, u, NotDoubleQuote)
      case None => None
      case Some(e) => Some(t[u..e])
  }

  /** An absolute http(s) URL with at least one character after the `://`. */
  predicate IsHttpUrl(u: string) {
    (StartsWith(u, "http://") && |u| > 7) || (StartsWith(u, "https://") && |u| > 8)
  }

  // ---------------------------------------------------------------------------
  // What each pattern matches, stated on the parts of the text, and the proof
  // that each scanner finds exactly that.
  // ---------------------------------------------------------------------------

  /**
   * `t` begins `data:<m>;base64,<b>` where `m` is one or more characters other than
   * `;`, `b` is one or more alphabet characters, and the character after `b` (if any)
   * is outside the alphabet, so greedy repetition stops exactly at the end of `b`.
   */
  ghost predicate DataUriShape(t: string, m: string, b: string) {
    StartsWith(t, "data:" + m + ";base64," + b)
    && |m| > 0 && AllIn(m, NotSemicolon)
    && |b| > 0 && AllIn(b, Base64)
    && (13 + |m| + |b| == |t| || !IsBase64Char(t[13 + |m| + |b|]))
  }

  /** The data-URI pattern matches at the start of `t` with capture group `b`. */
  ghost predicate DataUriMatch(t: string, b: string) {
    exists m :: DataUriShape(t, m, b)
  }

  lemma DataUriComplete(t: string, m: string, b: string)
    requires DataUriShape(t, m, b)
    ensures DataUriAt(t) == Some(b)
  {
    var j := 5 + |m|;
    var e := j + 8 + |b|;
    Parts(t, "data:" + m, ";base64,", b);
    var head := t[..j];
    assert t[..5] == head[..5] == "data:";
    forall i | 5 <= i < j ensures InClass(t[i], NotSemicolon) {
      assert t[i] == head[i] == m[i - 5];
    }
    RunEndIs(t, 5, NotSemicolon, j);
    assert t[j..][..8] == t[j..j + 8];
    forall i | j + 8 <= i < e ensures InClass(t[i], Base64) {
      assert t[i] == t[j + 8 .. e][i - j - 8];
    }
    RunEndIs(t, j + 8, Base64, e);
  }

  lemma DataUriSound(t: string)
    requires DataUriAt(t).Some?
    ensures DataUriMatch(t, DataUriAt(t).value)
  {
    var j := RunEnd(t, 5, NotSemicolon);
    var e := RunEnd(t, j + 8, Base64);
    assert t[j..j + 8] == t[j..][..8];
    SplitPrefix(t, j + 8, e);
    SplitPrefix(t, j, j + 8);
    SplitPrefix(t, 5, j);
    assert DataUriShape(t, t[5..j], t[j + 8 .. e]);
  }

  lemma DataUriAtIff(t: string, b: string)
    ensures DataUriAt(t) == Some(b) <==> DataUriMatch(t, b)
  {
    if DataUriAt(t) == Some(b) {
      DataUriSound(t);
    }
    if DataUriMatch(t, b) {
      var m :| DataUriShape(t, m, b);
      DataUriComplete(t, m, b);
    }
  }

  /**
   * The long-run pattern matches at the start of `t` with group `b`: `t` begins with
   * `b`, a run of at least 100 alphabet characters that the next character (if any)
   * does not extend.
   */
  ghost predicate LongRunMatch(t: string, b: string) {
    StartsWith(t, b)
    && |b| >= 100 && AllIn(b, Base64)
    && (|b| == |t| || !IsBase64Char(t[|b|]))
  }

  lemma LongRunAtIff(t: string, b: string)
    ensures LongRunAt(t) == Some(b) <==> LongRunMatch(t, b)
  {
    if LongRunMatch(t, b) {
      forall i | 0 <= i < |b| ensures InClass(t[i], Base64) {
        assert t[i] == t[..|b|][i] == b[i];
      }
      RunEndIs(t, 0, Base64, |b|);
    }
  }

  /** A scheme the pattern `https?` accepts. */
  predicate IsHttpScheme(scheme: string) {
    scheme == "http" || scheme == "https"
  }

  /**
   * `t` begins `action=<q1><scheme>://<host><q2>` where both quotes are `"` or `'`
   * (not necessarily the same one) and `host` is one or more non-quote characters.
   */
  ghost predicate FormActionShape(t: string, q1: char, scheme: string, host: string, q2: char) {
    StartsWith(t, "action=" + [q1] + (scheme + "://" + host) + [q2])
    && IsQuote(q1) && IsQuote(q2)
    && IsHttpScheme(scheme)
    && |host| > 0 && AllIn(host, NotQuote)
  }

  /** The form-action pattern matches at the start of `t` with capture group `g`. */
  ghost predicate FormActionMatch(t: string, g: string) {
    exists q1, scheme, host, q2 ::
      FormActionShape(t, q1, scheme, host, q2) && g == scheme + "://" + host
  }

  /** `https?://` followed by `host`, at index `i` of `t`, is recognised by SchemeEnd. */
  lemma SchemeEndOf(t: string, i: nat, scheme: string, host: string)
    requires IsHttpScheme(scheme) && |host| > 0
    requires i + |scheme| + 3 + |host| <= |t|
    requires t[i .. i + |scheme| + 3 + |host|] == scheme + "://" + host
    ensures SchemeEnd(t, i) == Some(i + |scheme| + 3)
  {
    var u := t[i..];
    var n := |scheme| + 3 + |host|;
    assert u[..n] == scheme + "://" + host;
    if scheme == "https" {
      assert u[..8] == u[..n][..8];
    } else {
      assert u[4] == ':';
      assert u[..7] == u[..n][..7];
    }
  }

  /** A URL `scheme://host` at index `i`, closed by a character outside `k`, is what UrlEnd finds. */
  lemma UrlEndOf(t: string, i: nat, scheme: string, host: string, k: CharClass)
    requires k == NotQuote || k == NotDoubleQuote
    requires IsHttpScheme(scheme) && |host| > 0 && AllIn(host, k)
    requires i + |scheme| + 3 + |host| < |t|
    requires t[i .. i + |scheme| + 3 + |host|] == scheme + "://" + host
    requires !InClass(t[i + |scheme| + 3 + |host|], k)
    ensures UrlEnd(t, i, k) == Some(i + |scheme| + 3 + |host|)
  {
    var h := i + |scheme| + 3;
    var e := h + |host|;
    SchemeEndOf(t, i, scheme, host);
    forall j | h <= j < e ensures InClass(t[j], k) {
      assert t[j] == t[i..e][j - i];
    }
    RunEndIs(t, h, k, e);
  }

  /** What UrlEnd finds splits into a scheme the pattern accepts, `://`, and a non-empty class-`k` run. */
  lemma UrlEndParts(t: string, i: nat, k: CharClass)
    requires i <= |t| && (k == NotQuote || k == NotDoubleQuote) && UrlEnd(t, i, k).Some?
    ensures var h := SchemeEnd(t, i).value;
      var e := UrlEnd(t, i, k).value;
      i + 3 < h < e && t[i..h - 3] == (if h == i + 8 then "https" else "http") && t[h - 3 .. h] == "://"
      && AllIn(t[h..e], k)
  {
    var h := SchemeEnd(t, i).value;
    if h == i + 8 {
      assert t[i..h] == t[i..][..8];
    } else {
      assert t[i..h] == t[i..][..7];
    }
    assert t[i..h - 3] == t[i..h][..h - 3 - i];
    assert t[h - 3 .. h] == t[i..h][h - 3 - i..];
  }

  lemma FormActionComplete(t: string, q1: char, scheme: string, host: string, q2: char)
    requires FormActionShape(t, q1, scheme, host, q2)
    ensures FormActionAt(t) == Some(scheme + "://" + host)
  {
    var e := 8 + |scheme| + 3 + |host|;
    Parts(t, "action=" + [q1], scheme + "://" + host, [q2]);
    var head := t[..8];
    assert t[..7] == head[..7] == "action=";
    assert t[7] == head[7] == q1;
    assert t[e] == t[e .. e + 1][0] == q2;
    UrlEndOf(t, 8, scheme, host, NotQuote);
  }

  /** The prefix of `t` the form-action scanner reads, reassembled from its pieces. */
  lemma FormActionPieces(t: string, h: nat, e: nat, scheme: string)
    requires 11 <= h < e < |t|
    requires t[..7] == "action=" && t[8..h - 3] == scheme && t[h - 3 .. h] == "://"
    ensures t[..e + 1] == "action=" + [t[7]] + (scheme + "://" + t[h..e]) + [t[e]]
    ensures t[8..e] == scheme + "://" + t[h..e]
  {
    PrefixSnoc(t, e);
    SplitPrefix(t, 8, e);
    PrefixSnoc(t, 7);
    SplitSlice(t, 8, h, e);
    SplitSlice(t, 8, h - 3, h);
  }

  lemma FormActionSound(t: string) returns (q1: char, scheme: string, host: string, q2: char)
    requires FormActionAt(t).Some?
    ensures FormActionShape(t, q1, scheme, host, q2)
    ensures FormActionAt(t).value == scheme + "://" + host
  {
    var h := SchemeEnd(t, 8).value;
    var e := UrlEnd(t, 8, NotQuote).value;
    scheme := if h == 16 then "https" else "http";
    q1, host, q2 := t[7], t[h..e], t[e];
    UrlEndParts(t, 8, NotQuote);
    FormActionPieces(t, h, e, scheme);
  }

  lemma FormActionAtIff(t: string, g: string)
    ensures FormActionAt(t) == Some(g) <==> FormActionMatch(t, g)
  {
    if FormActionAt(t) == Some(g) {
      var q1, scheme, host, q2 := FormActionSound(t);
    }
    if FormActionMatch(t, g) {
      var q1, scheme, host, q2 :| FormActionShape(t, q1, scheme, host, q2) && g == scheme + "://" + host;
      FormActionComplete(t, q1, scheme, host, q2);
    }
  }

  /** `"submit_url"<w1>:<w2>"`, the text before the captured URL of a field. */
  function FieldOpening(w1: string, w2: string): string {
    "\"submit_url\"" + (w1 + ":") + (w2 + "\"")
  }

  /**
   * `t` begins `"submit_url"<w1>:<w2>"<scheme>://<host>"` where `w1` and `w2` are
   * (possibly empty) whitespace and `host` is one or more characters other than `"`.
   */
  ghost predicate SubmitUrlFieldShape(t: string, w1: string, w2: string, scheme: string, host: string) {
    StartsWith(t, FieldOpening(w1, w2) + (scheme + "://" + host) + "\"")
    && AllIn(w1, Space) && AllIn(w2, Space)
    && IsHttpScheme(scheme)
    && |host| > 0 && AllIn(host, NotDoubleQuote)
  }

  /** The `"submit_url"` field pattern matches at the start of `t` with capture group `g`. */
  ghost predicate SubmitUrlFieldMatch(t: string, g: string) {
    exists w1, w2, scheme, host ::
      SubmitUrlFieldShape(t, w1, w2, scheme, host) && g == scheme + "://" + host
  }

  /** A run of whitespace `w` at index `i` of `t`, closed by the non-space `ch`, is the run RunEnd finds. */
  lemma SpacesThen(t: string, i: nat, w: string, ch: char)
    requires AllIn(w, Space) && !IsSpace(ch)
    requires i + |w| < |t| && t[i .. i + |w| + 1] == w + [ch]
    ensures RunEnd(t, i, Space) == i + |w| && t[i + |w|] == ch
  {
    var s := t[i .. i + |w| + 1];
    forall j | i <= j < i + |w| ensures InClass(t[j], Space) {
      assert t[j] == s[j - i] == w[j - i];
    }
    assert t[i + |w|] == s[|w|];
    RunEndIs(t, i, Space, i + |w|);
  }

  /** FieldValueStart read through the pieces of a field opening. */
  lemma FieldValueStartOf(t: string, c: nat, q: nat)
    requires 12 <= c < q < |t| && t[..12] == "\"submit_url\""
    requires RunEnd(t, 12, Space) == c && t[c] == ':'
    requires RunEnd(t, c + 1, Space) == q && t[q] == '"'
    ensures FieldValueStart(t) == Some(q + 1)
  {
    assert t[c..][..1] == ":";
    assert t[q..][..1] == "\"";
  }

  /** FieldValueStart steps over a field opening that `t` begins with. */
  lemma FieldOpeningScan(t: string, w1: string, w2: string)
    requires AllIn(w1, Space) && AllIn(w2, Space)
    requires |FieldOpening(w1, w2)| <= |t| && t[..|FieldOpening(w1, w2)|] == FieldOpening(w1, w2)
    ensures FieldValueStart(t) == Some(|FieldOpening(w1, w2)|)
  {
    var c := 12 + |w1|;
    var q := c + 1 + |w2|;
    Parts(t, "\"submit_url\"", w1 + ":", w2 + "\"");
    SpacesThen(t, 12, w1, ':');
    SpacesThen(t, c + 1, w2, '"');
    FieldValueStartOf(t, c, q);
  }

  /** Where the pieces FieldValueStart steps over lie. */
  lemma FieldValueStartParts(t: string) returns (c: nat, q: nat)
    requires FieldValueStart(t).Some?
    ensures 12 <= c < q < |t| && FieldValueStart(t).value == q + 1
    ensures t[..12] == "\"submit_url\"" && t[c] == ':' && t[q] == '"'
    ensures AllIn(t[12..c], Space) && AllIn(t[c + 1 .. q], Space)
  {
    c := RunEnd(t, 12, Space);
    q := RunEnd(t, c + 1, Space);
    assert t[c] == ':' by { assert t[c..][..1] == ":"; }
    assert t[q] == '"' by { assert t[q..][..1] == "\""; }
  }

  /** A prefix made of those pieces is a field opening. */
  lemma FieldOpeningOfParts(t: string, c: nat, q: nat)
    requires 12 <= c < q < |t|
    requires t[..12] == "\"submit_url\"" && t[c] == ':' && t[q] == '"'
    ensures t[..q + 1] == FieldOpening(t[12..c], t[c + 1 .. q])
  {
    SliceOne(t, c);
    SliceOne(t, q);
    SplitPrefix(t, c + 1, q + 1);
    SplitPrefix(t, 12, c + 1);
    SplitSlice(t, 12, c, c + 1);
    SplitSlice(t, c + 1, q, q + 1);
  }

  /** What FieldValueStart steps over is a field opening. */
  lemma FieldOpeningParts(t: string) returns (w1: string, w2: string)
    requires FieldValueStart(t).Some?
    ensures AllIn(w1, Space) && AllIn(w2, Space)
    ensures t[..FieldValueStart(t).value] == FieldOpening(w1, w2)
  {
    var c, q := FieldValueStartParts(t);
    FieldOpeningOfParts(t, c, q);
    w1, w2 := t[12..c], t[c + 1 .. q];
  }

  /** The prefix of `t` the `"submit_url"` scanner reads, reassembled from its pieces. */
  lemma SubmitUrlFieldPieces(t: string, u: nat, h: nat, e: nat, opening: string, scheme: string)
    requires u + 3 <= h < e < |t|
    requires t[..u] == opening && t[u..h - 3] == scheme && t[h - 3 .. h] == "://"
    ensures t[..e + 1] == opening + (scheme + "://" + t[h..e]) + [t[e]]
    ensures t[u..e] == scheme + "://" + t[h..e]
  {
    PrefixSnoc(t, e);
    SplitPrefix(t, u, e);
    SplitSlice(t, u, h, e);
    SplitSlice(t, u, h - 3, h);
  }

  /** Where the scanner's steps land on a text of the field's shape. */
  lemma SubmitUrlFieldScan(t: string, w1: string, w2: string, scheme: string, host: string) returns (u: nat, e: nat)
    requires SubmitUrlFieldShape(t, w1, w2, scheme, host)
    ensures u <= e <= |t| && t[u..e] == scheme + "://" + host
    ensures FieldValueStart(t) == Some(u) && UrlEnd(t, u, NotDoubleQuote) == Some(e)
  {
    u := |FieldOpening(w1, w2)|;
    e := u + |scheme| + 3 + |host|;
    Parts(t, FieldOpening(w1, w2), scheme + "://" + host, "\"");
    FieldOpeningScan(t, w1, w2);
    assert t[e] == t[e .. e + 1][0] == '"';
    UrlEndOf(t, u, scheme, host, NotDoubleQuote);
  }

  /** SubmitUrlFieldAt read through the steps of its scan. */
  lemma SubmitUrlFieldOf(t: string, u: nat, e: nat)
    requires FieldValueStart(t) == Some(u) && UrlEnd(t, u, NotDoubleQuote) == Some(e)
    ensures SubmitUrlFieldAt(t) == Some(t[u..e])
  {
  }

  lemma SubmitUrlFieldComplete(t: string, w1: string, w2: string, scheme: string, host: string)
    requires SubmitUrlFieldShape(t, w1, w2, scheme, host)
    ensures SubmitUrlFieldAt(t) == Some(scheme + "://" + host)
  {
    var u, e := SubmitUrlFieldScan(t, w1, w2, scheme, host);
    SubmitUrlFieldOf(t, u, e);
  }

  /** The text the scanner's steps cross has the field's shape. */
  lemma SubmitUrlFieldShapeOf(t: string, u: nat, e: nat) returns (w1: string, w2: string, scheme: string, host: string)
    requires FieldValueStart(t) == Some(u) && UrlEnd(t, u, NotDoubleQuote) == Some(e)
    ensures SubmitUrlFieldShape(t, w1, w2, scheme, host)
    ensures t[u..e] == scheme + "://" + host
  {
    var h := SchemeEnd(t, u).value;
    scheme := if h == u + 8 then "https" else "http";
    host := t[h..e];
    w1, w2 := FieldOpeningParts(t);
    UrlEndParts(t, u, NotDoubleQuote);
    SubmitUrlFieldPieces(t, u, h, e, FieldOpening(w1, w2), scheme);
  }

  lemma SubmitUrlFieldSound(t: string) returns (w1: string, w2: string, scheme: string, host: string)
    requires SubmitUrlFieldAt(t).Some?
    ensures SubmitUrlFieldShape(t, w1, w2, scheme, host)
    ensures SubmitUrlFieldAt(t).value == scheme + "://" + host
  {
    var u := FieldValueStart(t).value;
    var e := UrlEnd(t, u, NotDoubleQuote).value;
    w1, w2, scheme, host := SubmitUrlFieldShapeOf(t, u, e);
  }

  lemma SubmitUrlFieldAtIff(t: string, g: string)
    ensures SubmitUrlFieldAt(t) == Some(g) <==> SubmitUrlFieldMatch(t, g)
  {
    if SubmitUrlFieldAt(t) == Some(g) {
      var w1, w2, scheme, host := SubmitUrlFieldSound(t);
    }
    if SubmitUrlFieldMatch(t, g) {
      var w1, w2, scheme, host :| SubmitUrlFieldShape(t, w1, w2, scheme, host) && g == scheme + "://" + host;
      SubmitUrlFieldComplete(t, w1, w2, scheme, host);
    }
  }

  // ---------------------------------------------------------------------------
  // re.search: the leftmost start index at which a pattern matches.
  // ---------------------------------------------------------------------------

  /** The four patterns of solver/utils.py. */
  datatype Pattern = DataUri | LongRun | FormAction | SubmitUrlField

  /** The anchored scanner of pattern `p`. */
  function Scanner(p: Pattern): string -> Option<string> {
    match p
    case DataUri => DataUriAt
    case LongRun => LongRunAt
    case FormAction => FormActionAt
    case SubmitUrlField => SubmitUrlFieldAt
  }

  /** The group of pattern `p` matched at the start of `t`, if it matches there. */
  function MatchAt(p: Pattern, t: string): Option<string> {
    Scanner(p)(t)
  }

  /** The declarative description of what pattern `p` matches at the start of a text. */
  ghost function Description(p: Pattern): (string, string) -> bool {
    match p
    case DataUri => DataUriMatch
    case LongRun => LongRunMatch
    case FormAction => FormActionMatch
    case SubmitUrlField => SubmitUrlFieldMatch
  }

  /** Pattern `p` matches at the start of `t` with capture group `g`, stated on the parts of `t`. */
  ghost predicate Matches(p: Pattern, t: string, g: string) {
    Description(p)(t, g)
  }

  lemma MatchAtIff(p: Pattern, t: string, g: string)
    ensures MatchAt(p, t) == Some(g) <==> Matches(p, t, g)
  {
    match p
    case DataUri => DataUriAtIff(t, g);
    case LongRun => LongRunAtIff(t, g);
    case FormAction => FormActionAtIff(t, g);
    case SubmitUrlField => SubmitUrlFieldAtIff(t, g);
  }

  /** A successful `re.search`: where the match starts and what its group captured. */
  datatype Match = Match(start: nat, group: string)

  /**
   * `re.search` restricted to start indices `i` and later, for an anchored matcher
   * `m`: the first index at which `m` succeeds, with the group it captured.
   */
  function SearchFrom(m: string -> Option<string>, s: string, i: nat): (r: Option<Match>)
    requires i <= |s|
    ensures r.Some? ==> i <= r.value.start <= |s| && m(s[r.value.start..]) == Some(r.value.group)
    ensures r.Some? ==> forall k :: i <= k < r.value.start ==> m(s[k..]).None?
    ensures r.None? ==> forall k :: i <= k <= |s| ==> m(s[k..]).None?
    decreases |s| - i
  {
    match m(s[i..])
    case Some(g) => Some(Match(i, g))
    case None => if i == |s| then None else SearchFrom(m, s, i + 1)
  }

  /** `re.search(p, s)`. */
  function Search(p: Pattern, s: string): (r: Option<Match>)
    ensures r.Some? ==> r.value.start <= |s| && MatchAt(p, s[r.value.start..]) == Some(r.value.group)
    ensures r.Some? ==> forall k :: 0 <= k < r.value.start ==> MatchAt(p, s[k..]).None?
    ensures r.None? ==> forall k :: 0 <= k <= |s| ==> MatchAt(p, s[k..]).None?
  {
    SearchFrom(Scanner(p), s, 0)
  }

  /** `p` matches `s` at index `k` with group `g`, and at no earlier index. */
  ghost predicate LeftmostMatch(p: Pattern, s: string, k: nat, g: string) {
    k <= |s| && Matches(p, s[k..], g)
    && forall j, g' :: 0 <= j < k ==> !Matches(p, s[j..], g')
  }

  /** `p` matches somewhere in `s`. */
  ghost predicate ContainsMatch(p: Pattern, s: string) {
    exists k, g :: 0 <= k <= |s| && Matches(p, s[k..], g)
  }

  /** No match at index `j` in the scanner's terms means none in the declarative terms. */
  lemma NoMatchAt(p: Pattern, t: string)
    ensures MatchAt(p, t).None? <==> forall g :: !Matches(p, t, g)
  {
    if MatchAt(p, t).Some? {
      MatchAtIff(p, t, MatchAt(p, t).value);
    }
    forall g | Matches(p, t, g) ensures MatchAt(p, t).Some? {
      MatchAtIff(p, t, g);
    }
  }

  /** The anchored matcher `m` succeeds on the suffix at `k` with `g`, and on no earlier suffix. */
  predicate FirstHit(m: string -> Option<string>, s: string, k: nat, g: string) {
    k <= |s| && m(s[k..]) == Some(g) && forall j :: 0 <= j < k ==> m(s[j..]).None?
  }

  /** The scan from index 0 stops exactly at the first hit. */
  lemma SearchFromFirstHit(m: string -> Option<string>, s: string, k: nat, g: string)
    ensures SearchFrom(m, s, 0) == Some(Match(k, g)) <==> FirstHit(m, s, k, g)
  {
    var r := SearchFrom(m, s, 0);
    if FirstHit(m, s, k, g) {
      assert r.Some? && r.value.start == k;
    }
  }

  /** The leftmost match in the pattern's terms is the scanner's first hit. */
  lemma LeftmostFirstHit(p: Pattern, s: string, k: nat, g: string)
    ensures LeftmostMatch(p, s, k, g) <==> FirstHit(Scanner(p), s, k, g)
  {
    if k <= |s| {
      MatchAtIff(p, s[k..], g);
      forall j | 0 <= j < k ensures MatchAt(p, s[j..]).None? <==> forall g' :: !Matches(p, s[j..], g') {
        NoMatchAt(p, s[j..]);
      }
    }
  }

  /** re.search returns the leftmost match, and only it. */
  lemma SearchIff(p: Pattern, s: string, k: nat, g: string)
    ensures Search(p, s) == Some(Match(k, g)) <==> LeftmostMatch(p, s, k, g)
  {
    SearchFromFirstHit(Scanner(p), s, k, g);
    LeftmostFirstHit(p, s, k, g);
  }

  /** re.search returns None exactly when the pattern matches nowhere. */
  lemma SearchNoneIff(p: Pattern, s: string)
    ensures Search(p, s).None? <==> !ContainsMatch(p, s)
  {
    if Search(p, s).None? {
      forall k, g | 0 <= k <= |s| ensures !Matches(p, s[k..], g) {
        NoMatchAt(p, s[k..]);
      }
    } else {
      var m := Search(p, s).value;
      MatchAtIff(p, s[m.start..], m.group);
    }
  }
}
