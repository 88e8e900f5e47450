/**
 * solver/utils.py: the two page-content extractors. Each tries its patterns in a
 * fixed order and the first pattern that matches anywhere in the page wins; within
 * one pattern the leftmost match wins (`re.search`).
 */
module Utils {
  import opened Wrappers
  import opened Patterns

  // ---------------------------------------------------------------------------
  // extract_base64
  // ---------------------------------------------------------------------------

  /**
   * The encoded text of the first `data:<mime>;base64,<payload>` URI in `html`;
   * failing that, the first run of 100 or more base64-alphabet characters; failing
   * that, None. Nothing is decoded and nothing is raised.
   */
  function ExtractBase64(html: string): (r: Option<string>)
    ensures r.Some? ==> |r.value| > 0 && AllIn(r.value, Base64)
  {
    match Search(DataUri, html)
    case Some(m) => Some(m.group)
    case None =>
      match Search(LongRun, html)
      case Some(m2) => Some(m2.group)
      case None => None
  }

  /**
   * What extract_base64 returns: the group of the leftmost data-URI match, or, when
   * no data URI matches anywhere, the group of the leftmost long-run match.
   */
  lemma ExtractBase64Iff(html: string, b: string)
    ensures ExtractBase64(html) == Some(b) <==>
      (exists k :: LeftmostMatch(DataUri, html, k, b))
      || (!ContainsMatch(DataUri, html) && exists k :: LeftmostMatch(LongRun, html, k, b))
  {
    SearchNoneIff(DataUri, html);
    match Search(DataUri, html)
    case Some(m) =>
      SearchIff(DataUri, html, m.start, m.group);
      forall k | LeftmostMatch(DataUri, html, k, b) ensures b == m.group {
        SearchIff(DataUri, html, k, b);
      }
    case None =>
      forall k | LeftmostMatch(DataUri, html, k, b) ensures false {
        SearchIff(DataUri, html, k, b);
      }
      match Search(LongRun, html)
      case Some(m2) =>
        SearchIff(LongRun, html, m2.start, m2.group);
        forall k | LeftmostMatch(LongRun, html, k, b) ensures b == m2.group {
          SearchIff(LongRun, html, k, b);
        }
      case None =>
        forall k | LeftmostMatch(LongRun, html, k, b) ensures false {
          SearchIff(LongRun, html, k, b);
        }
  }

  /** extract_base64 returns None exactly when neither pattern matches anywhere. */
  lemma ExtractBase64NoneIff(html: string)
    ensures ExtractBase64(html).None? <==> !ContainsMatch(DataUri, html) && !ContainsMatch(LongRun, html)
  {
    SearchNoneIff(DataUri, html);
    SearchNoneIff(LongRun, html);
  }

  /**
   * A data URI wins over anything before it that is not a data URI: after a prefix
   * in which the data-URI pattern matches nowhere (it may hold a long base64 run),
   * `data:<m>;base64,<b>` yields exactly `b`.
   */
  lemma ExtractBase64AfterPrefix(pre: string, t: string, m: string, b: string)
    requires DataUriShape(t, m, b)
    requires forall k, g :: 0 <= k < |pre| ==> !Matches(DataUri, (pre + t)[k..], g)
    ensures ExtractBase64(pre + t) == Some(b)
  {
    var html := pre + t;
    assert html[|pre|..] == t;
    assert Matches(DataUri, html[|pre|..], b);
    assert LeftmostMatch(DataUri, html, |pre|, b);
    ExtractBase64Iff(html, b);
  }

  /** A page that begins with `data:<m>;base64,<b>`, where no alphabet character follows `b`, yields `b`. */
  lemma ExtractBase64OfDataUri(t: string, m: string, b: string)
    requires DataUriShape(t, m, b)
    ensures ExtractBase64(t) == Some(b)
  {
    assert [] + t == t;
    ExtractBase64AfterPrefix([], t, m, b);
  }

  /** `s` holds 100 base64-alphabet characters in a row starting at index `k`. */
  predicate HasRunOf100At(s: string, k: nat) {
    k + 100 <= |s| && AllIn(s[k .. k + 100], Base64)
  }

  lemma LongRunAtIffRunOf100(s: string, k: nat)
    requires k <= |s|
    ensures LongRunAt(s[k..]).Some? <==> HasRunOf100At(s, k)
  {
    var t := s[k..];
    var e := RunEnd(t, 0, Base64);
    var w := if k + 100 <= |s| then s[k .. k + 100] else [];
    if e >= 100 {
      forall j | 0 <= j < 100 ensures InClass(w[j], Base64) {
        assert w[j] == t[j];
      }
    }
    if HasRunOf100At(s, k) {
      forall j | 0 <= j < 100 ensures InClass(t[j], Base64) {
        assert w[j] == t[j];
      }
    }
  }

  /**
   * `b` is the whole of the leftmost maximal run of base64-alphabet characters in `s`
   * that is 100 or more characters long; it starts at index `k`.
   */
  ghost predicate IsLeftmostLongRun(s: string, k: nat, b: string) {
    k + |b| <= |s| && s[k .. k + |b|] == b
    && |b| >= 100 && AllIn(b, Base64)
    && (k == 0 || !IsBase64Char(s[k - 1]))
    && (k + |b| == |s| || !IsBase64Char(s[k + |b|]))
    && forall j :: 0 <= j < k ==> !HasRunOf100At(s, j)
  }

  /** A long-run match whose first character extends a run to its left is not leftmost. */
  lemma RunExtendsLeft(s: string, k: nat, b: string)
    requires 0 < k && k + |b| <= |s| && s[k .. k + |b|] == b && |b| >= 100 && AllIn(b, Base64)
    requires IsBase64Char(s[k - 1])
    ensures HasRunOf100At(s, k - 1)
  {
    var w := s[k - 1 .. k + 99];
    forall j | 0 <= j < 100 ensures InClass(w[j], Base64) {
      if j > 0 {
        assert w[j] == b[j - 1];
      }
    }
  }

  /** The long-run group leftmost in the pattern's terms is the leftmost maximal run. */
  lemma LeftmostLongRunMatch(html: string, k: nat, b: string)
    requires LeftmostMatch(LongRun, html, k, b)
    ensures IsLeftmostLongRun(html, k, b)
  {
    MatchAtIff(LongRun, html[k..], b);
    assert html[k..][..|b|] == b;
    assert html[k .. k + |b|] == b;
    forall j | 0 <= j < k ensures !HasRunOf100At(html, j) {
      NoMatchAt(LongRun, html[j..]);
      LongRunAtIffRunOf100(html, j);
    }
    if k > 0 && IsBase64Char(html[k - 1]) {
      RunExtendsLeft(html, k, b);
    }
  }

  /** And the leftmost maximal run is the long-run group of the leftmost match. */
  lemma LongRunMatchOfLeftmost(html: string, k: nat, b: string)
    requires IsLeftmostLongRun(html, k, b)
    ensures LeftmostMatch(LongRun, html, k, b)
  {
    assert html[k..][..|b|] == html[k .. k + |b|];
    assert LongRunMatch(html[k..], b);
    forall j, g | 0 <= j < k ensures !Matches(LongRun, html[j..], g) {
      NoMatchAt(LongRun, html[j..]);
      LongRunAtIffRunOf100(html, j);
    }
  }

  /**
   * When no data URI matches, extract_base64's fallback returns exactly the whole
   * leftmost maximal base64 run of length 100 or more.
   */
  lemma ExtractBase64Fallback(html: string, b: string)
    requires !ContainsMatch(DataUri, html)
    ensures ExtractBase64(html) == Some(b) <==> exists k: nat :: IsLeftmostLongRun(html, k, b)
  {
    ExtractBase64Iff(html, b);
    if ExtractBase64(html) == Some(b) {
      var k: nat :| LeftmostMatch(LongRun, html, k, b);
      LeftmostLongRunMatch(html, k, b);
    }
    if exists k: nat :: IsLeftmostLongRun(html, k, b) {
      var k: nat :| IsLeftmostLongRun(html, k, b);
      LongRunMatchOfLeftmost(html, k, b);
    }
  }

  // ---------------------------------------------------------------------------
  // extract_submit_url
  // ---------------------------------------------------------------------------

  /** Python's ValueError, with its message. */
  datatype ValueError = ValueError(message: string)

  const SubmitUrlNotFound: string := "Submit URL not found on page"

  /**
   * The URL of the first form `action="http(s)://…"` attribute in `html`; failing
   * that, the URL of the first `"submit_url": "http(s)://…"` field; failing that,
   * ValueError. There is no default URL.
   */
  function ExtractSubmitUrl(html: string): (r: Result<string, ValueError>)
    ensures r.Ok? ==> IsHttpUrl(r.value) && AllIn(r.value, NotDoubleQuote)
    ensures r.Err? ==> r.error == ValueError(SubmitUrlNotFound)
  {
    match Search(FormAction, html)
    case Some(m) => Ok(m.group)
    case None =>
      match Search(SubmitUrlField, html)
      case Some(m2) => Ok(m2.group)
      case None => Err(ValueError(SubmitUrlNotFound))
  }

  /**
   * What extract_submit_url returns: the URL of the leftmost form-action match, or,
   * when no form action matches anywhere, that of the leftmost `"submit_url"` field.
   */
  lemma ExtractSubmitUrlIff(html: string, u: string)
    ensures ExtractSubmitUrl(html) == Ok(u) <==>
      (exists k :: LeftmostMatch(FormAction, html, k, u))
      || (!ContainsMatch(FormAction, html) && exists k :: LeftmostMatch(SubmitUrlField, html, k, u))
  {
    SearchNoneIff(FormAction, html);
    match Search(FormAction, html)
    case Some(m) =>
      SearchIff(FormAction, html, m.start, m.group);
      forall k | LeftmostMatch(FormAction, html, k, u) ensures u == m.group {
        SearchIff(FormAction, html, k, u);
      }
    case None =>
      forall k | LeftmostMatch(FormAction, html, k, u) ensures false {
        SearchIff(FormAction, html, k, u);
      }
      match Search(SubmitUrlField, html)
      case Some(m2) =>
        SearchIff(SubmitUrlField, html, m2.start, m2.group);
        forall k | LeftmostMatch(SubmitUrlField, html, k, u) ensures u == m2.group {
          SearchIff(SubmitUrlField, html, k, u);
        }
      case None =>
        forall k | LeftmostMatch(SubmitUrlField, html, k, u) ensures false {
          SearchIff(SubmitUrlField, html, k, u);
        }
  }

  /** extract_submit_url raises ValueError exactly when neither pattern matches anywhere. */
  lemma ExtractSubmitUrlErrIff(html: string)
    ensures ExtractSubmitUrl(html).Err? <==> !ContainsMatch(FormAction, html) && !ContainsMatch(SubmitUrlField, html)
  {
    SearchNoneIff(FormAction, html);
    SearchNoneIff(SubmitUrlField, html);
  }

  /**
   * The leftmost form action is returned wherever it stands, even after a
   * `"submit_url"` field.
   */
  lemma FormActionTakesPrecedence(html: string, k: nat, u: string)
    requires LeftmostMatch(FormAction, html, k, u)
    ensures ExtractSubmitUrl(html) == Ok(u)
  {
    ExtractSubmitUrlIff(html, u);
  }

  /** When any form action matches, the URL returned contains neither `"` nor `'`. */
  lemma FormActionResultHasNoQuotes(html: string)
    requires ContainsMatch(FormAction, html)
    ensures ExtractSubmitUrl(html).Ok? && AllIn(ExtractSubmitUrl(html).value, NotQuote)
  {
    SearchNoneIff(FormAction, html);
  }

  /** The two quotes around a form action need not be the same kind. */
  lemma FormActionQuotesNeedNotMatch()
    ensures ExtractSubmitUrl("action=\"http://q.test'") == Ok("http://q.test")
  {
    var t := "action=\"http://q.test'";
    assert t[..|t|] == t == "action=" + ['"'] + ("http" + "://" + "q.test") + ['\''];
    assert FormActionShape(t, '"', "http", "q.test", '\'');
    assert "http" + "://" + "q.test" == "http://q.test";
    assert t[0..] == t;
    assert LeftmostMatch(FormAction, t, 0, "http://q.test");
    FormActionTakesPrecedence(t, 0, "http://q.test");
  }
}
