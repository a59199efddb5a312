/**
 * The ordered regular-expression chain the extractor runs over a fetched page when the
 * embedded JSON gave no answer, and the unescaping applied to what it finds.
 *
 * Every pattern of the chain has one of two shapes, matched here exactly as `re.search`
 * matches them (leftmost match first):
 *   "key":"(CAPTURE)"                 where CAPTURE is [^"]+ or [^"]*\.ext[^"]*
 *   "anchor".*?"key":"([^"]+)"        with re.DOTALL, so .*? also crosses newlines
 */
module TextPatterns {
  import opened Wrappers
  import opened Strings

  const Quote: char := '"'

  /** What the capture group of a field pattern accepts. */
  datatype Capture =
    | NonEmpty                        // ([^"]+)
    | Containing(exts: seq<string>)   // ([^"]*\.ext[^"]*), one alternative per spelling of ext

  datatype Pattern =
    | Field(key: string, capture: Capture)   // "key":"(capture)"
    | After(anchor: string, key: string)     // "anchor".*?"key":"([^"]+)"

  /** The text `"key":"` that opens a field pattern. */
  function KeyLiteral(key: string): string {
    [Quote] + key + [Quote, ':', Quote]
  }

  /** The text `"anchor"` that opens an anchored pattern. */
  function AnchorLiteral(anchor: string): string {
    [Quote] + anchor + [Quote]
  }

  /**
   * The run of non-quote characters starting at `i`, provided a closing quote ends it: the
   * only text `[^"]*` can capture before a `"`.
   */
  function QuotedValue(s: string, i: nat): (r: Option<string>)
    ensures r.Some? ==> i + |r.value| < |s| && s[i..i + |r.value|] == r.value
    ensures r.Some? ==> s[i + |r.value|] == Quote && Quote !in r.value
  {
    match IndexOf(s, [Quote], i)
    case None => None
    case Some(j) =>
      assert s[j..j + 1] == [Quote];
      assert forall k :: i <= k < j ==> !IsPrefixAt([Quote], s, k);
      assert forall k :: i <= k < j ==> s[k] != Quote by {
        forall k | i <= k < j ensures s[k] != Quote {
          assert !IsPrefixAt([Quote], s, k);
          assert s[k..k + 1] == [s[k]];
        }
      }
      Some(s[i..j])
  }

  /** `v` stands in `s` at `i`, and a quote follows it. */
  predicate ClosedRunAt(s: string, i: nat, v: string) {
    i + |v| < |s| && s[i..i + |v|] == v && s[i + |v|] == Quote
  }

  /** The capture group accepts the value. */
  predicate Accepts(capture: Capture, v: string) {
    match capture
    case NonEmpty => v != ""
    case Containing(exts) => exists e :: e in exts && Contains(v, e)
  }

  /** The field pattern `"key":"(capture)"` matching at position `p`, with its capture. */
  function FieldAt(s: string, p: nat, key: string, capture: Capture): Option<string> {
    var lit := KeyLiteral(key);
    if !IsPrefixAt(lit, s, p) then None
    else
      match QuotedValue(s, p + |lit|)
      case Some(v) => if Accepts(capture, v) then Some(v) else None
      case None => None
  }

  /** Every extension a capture must contain is a real (non-empty) text. */
  predicate Sound(pat: Pattern) {
    pat.Field? && pat.capture.Containing? ==> forall e :: e in pat.capture.exts ==> e != []
  }

  /** Anchored patterns are defined through field patterns: this ranks them for termination. */
  function Rank(pat: Pattern): nat {
    if pat.After? then 1 else 0
  }

  /** The pattern matching at start position `p`, with what its group captures. */
  function MatchAt(s: string, p: nat, pat: Pattern): Option<string>
    decreases Rank(pat), 0
  {
    match pat
    case Field(key, capture) => FieldAt(s, p, key, capture)
    case After(anchor, key) =>
      // the lazy .*? stops at the first place after the anchor where the field matches
      if !IsPrefixAt(AnchorLiteral(anchor), s, p) then None
      else
        Group(SearchFrom(s, Field(key, NonEmpty), p + |AnchorLiteral(anchor)|))
  }

  /**
   * The leftmost start position at or after `from` where the pattern matches, with its capture:
   * `re.search` tries start positions one after another.
   */
  function SearchFrom(s: string, pat: Pattern, from: nat): (r: Option<(nat, string)>)
    ensures r.Some? ==> from <= r.value.0 <= |s| && MatchAt(s, r.value.0, pat) == Some(r.value.1)
    ensures r.Some? ==> forall q: nat :: from <= q < r.value.0 ==> MatchAt(s, q, pat).None?
    ensures r.None? ==> forall q: nat :: from <= q <= |s| ==> MatchAt(s, q, pat).None?
    decreases Rank(pat), |s| + 1 - from
  {
    if from > |s| then None
    else
      match MatchAt(s, from, pat)
      case Some(v) => Some((from, v))
      case None => SearchFrom(s, pat, from + 1)
  }

  /** The captured text of a match, if there is one. */
  function Group(m: Option<(nat, string)>): Option<string> {
    match m
    case Some((_, v)) => Some(v)
    case None => None
  }

  /** `re.search(pattern, s).group(1)`, or `None` when there is no match. */
  function Search(s: string, pat: Pattern): Option<string> {
    Group(SearchFrom(s, pat, 0))
  }

  /**
   * A start position where the pattern matches, with no match between `from` and it, is what
   * the search finds.
   */
  lemma SearchFromFirst(s: string, pat: Pattern, from: nat, p: nat, v: string)
    requires from <= p <= |s| && MatchAt(s, p, pat) == Some(v)
    requires forall q: nat :: from <= q < p ==> MatchAt(s, q, pat).None?
    ensures SearchFrom(s, pat, from) == Some((p, v))
  {
  }

  /**
   * What any pattern captures is text of the page, verbatim: a non-empty run without quotes
   * that a quote closes.
   */
  lemma SearchCapturesQuotedRun(s: string, pat: Pattern, v: string)
    requires Sound(pat) && Search(s, pat) == Some(v)
    ensures v != [] && Quote !in v
    ensures exists i: nat :: ClosedRunAt(s, i, v)
  {
    var r := SearchFrom(s, pat, 0);
    assert r.Some? && r.value.1 == v;
    var i := MatchCapturesQuotedRun(s, r.value.0, pat, v);
  }

  /** A pattern matching at `p` captures a quoted run at some later position `i`. */
  lemma MatchCapturesQuotedRun(s: string, p: nat, pat: Pattern, v: string) returns (i: nat)
    requires Sound(pat) && MatchAt(s, p, pat) == Some(v)
    ensures v != [] && Quote !in v && ClosedRunAt(s, i, v)
  {
    if pat.Field? {
      FieldCapturesQuotedRun(s, p, pat.key, pat.capture, v);
      i := p + |KeyLiteral(pat.key)|;
    } else {
      var f := SearchFrom(s, Field(pat.key, NonEmpty), p + |AnchorLiteral(pat.anchor)|);
      FieldCapturesQuotedRun(s, f.value.0, pat.key, NonEmpty, v);
      i := f.value.0 + |KeyLiteral(pat.key)|;
    }
  }

  /** A field pattern captures the quoted run right after its `"key":"`. */
  lemma FieldCapturesQuotedRun(s: string, p: nat, key: string, capture: Capture, v: string)
    requires capture.Containing? ==> forall e :: e in capture.exts ==> e != []
    requires FieldAt(s, p, key, capture) == Some(v)
    ensures v != [] && Quote !in v
    ensures ClosedRunAt(s, p + |KeyLiteral(key)|, v)
  {
    assert QuotedValue(s, p + |KeyLiteral(key)|) == Some(v) && Accepts(capture, v);
    if capture.Containing? {
      var e :| e in capture.exts && Contains(v, e);
      assert e != [];
    }
  }

  /** A quote ahead is always found: the value is the run up to the first quote after `i`. */
  lemma QuotedValueFound(s: string, i: nat, v: string)
    requires Quote !in v && ClosedRunAt(s, i, v)
    ensures QuotedValue(s, i) == Some(v)
  {
    var j := i + |v|;
    assert s[j..j + 1] == [Quote];
    assert IsPrefixAt([Quote], s, j);
  }

  /** There is no quoted value exactly when no quote follows. */
  lemma QuotedValueNoneIff(s: string, i: nat)
    ensures QuotedValue(s, i).None? <==> forall k :: i <= k < |s| ==> s[k] != Quote
  {
    if QuotedValue(s, i).None? {
      forall k | i <= k < |s| ensures s[k] != Quote {
        assert !IsPrefixAt([Quote], s, k);
        assert s[k..k + 1] == [s[k]];
      }
    } else {
      var k := IndexOf(s, [Quote], i).value;
      assert s[k..k + 1] == [Quote];
    }
  }

  /**
   * The converse of `FieldCapturesQuotedRun`: `"key":"` at `p` followed by a quote-closed run
   * the capture accepts is matched, with that run.
   */
  lemma FieldFound(s: string, p: nat, key: string, capture: Capture, v: string)
    requires IsPrefixAt(KeyLiteral(key), s, p)
    requires Quote !in v && ClosedRunAt(s, p + |KeyLiteral(key)|, v) && Accepts(capture, v)
    ensures FieldAt(s, p, key, capture) == Some(v)
  {
    QuotedValueFound(s, p + |KeyLiteral(key)|, v);
  }

  /** A page that opens with `"key":"v"` gives `v` for the field pattern, whatever follows. */
  lemma FieldAtStart(key: string, capture: Capture, v: string, rest: string)
    requires Quote !in v && Accepts(capture, v)
    ensures Search(KeyLiteral(key) + v + [Quote] + rest, Field(key, capture)) == Some(v)
  {
    var s := KeyLiteral(key) + v + [Quote] + rest;
    var n := |KeyLiteral(key)|;
    assert s[0..n] == KeyLiteral(key);
    assert s[n..n + |v|] == v && s[n + |v|] == Quote;
    FieldFound(s, 0, key, capture, v);
    SearchFromFirst(s, Field(key, capture), 0, 0, v);
  }

  /** `"display_url":"https://x/i.jpg"` gives `https://x/i.jpg`. */
  lemma DisplayUrlExample()
    ensures Search("\"display_url\":\"https://x/i.jpg\"", DisplayUrl) == Some("https://x/i.jpg")
  {
    assert KeyLiteral("display_url") == "\"display_url\":\"";
    assert "\"display_url\":\"https://x/i.jpg\"" ==
           "\"display_url\":\"" + "https://x/i.jpg" + [Quote] + "";
    FieldAtStart("display_url", NonEmpty, "https://x/i.jpg", "");
  }

  /** No match from `from` on means no match from any later position either. */
  lemma SearchFromLater(s: string, pat: Pattern, from: nat, later: nat)
    requires from <= later && SearchFrom(s, pat, from).None?
    ensures SearchFrom(s, pat, later).None?
  {
  }

  /**
   * The lazy pattern `"anchor".*?"key":"([^"]+)"` gives the first field match after the FIRST
   * occurrence of the anchor: a later anchor can only see fewer candidates.
   */
  lemma AfterFirstAnchor(s: string, anchor: string, key: string, p0: nat)
    requires FirstAt(AnchorLiteral(anchor), s, p0)
    ensures Search(s, After(anchor, key)) ==
              Group(SearchFrom(s, Field(key, NonEmpty), p0 + |AnchorLiteral(anchor)|))
  {
    var pat := After(anchor, key);
    var f0 := SearchFrom(s, Field(key, NonEmpty), p0 + |AnchorLiteral(anchor)|);
    NoMatchBeforeAnchor(s, anchor, key, p0);
    if f0.Some? {
      assert MatchAt(s, p0, pat) == Some(f0.value.1);
      SearchFromFirst(s, pat, 0, p0, f0.value.1);
    } else {
      NoMatchAfterAnchor(s, anchor, key, p0);
      assert SearchFrom(s, pat, 0).None?;
    }
  }

  /** Before the first anchor, the anchored pattern cannot start. */
  lemma NoMatchBeforeAnchor(s: string, anchor: string, key: string, p0: nat)
    requires FirstAt(AnchorLiteral(anchor), s, p0)
    ensures forall q: nat :: q < p0 ==> MatchAt(s, q, After(anchor, key)).None?
  {
    forall q: nat | q < p0
      ensures MatchAt(s, q, After(anchor, key)).None?
    {
      assert !IsPrefixAt(AnchorLiteral(anchor), s, q);
    }
  }

  /**
   * When no field follows the first anchor, none follows a later one either, so the anchored
   * pattern matches nowhere from the first anchor on.
   */
  lemma NoMatchAfterAnchor(s: string, anchor: string, key: string, p0: nat)
    requires SearchFrom(s, Field(key, NonEmpty), p0 + |AnchorLiteral(anchor)|).None?
    ensures forall p: nat :: p0 <= p <= |s| ==> MatchAt(s, p, After(anchor, key)).None?
  {
    var a := AnchorLiteral(anchor);
    forall p: nat | p0 <= p <= |s|
      ensures MatchAt(s, p, After(anchor, key)).None?
    {
      if IsPrefixAt(a, s, p) {
        SearchFromLater(s, Field(key, NonEmpty), p0 + |a|, p + |a|);
      }
    }
  }

  /** Without the anchor in the page, an anchored pattern finds nothing. */
  lemma AfterNoAnchor(s: string, anchor: string, key: string)
    requires !Contains(s, AnchorLiteral(anchor))
    ensures Search(s, After(anchor, key)) == None
  {
    forall p: nat | p <= |s|
      ensures MatchAt(s, p, After(anchor, key)).None?
    {
      assert !IsPrefixAt(AnchorLiteral(anchor), s, p);
    }
  }

  /** The first pattern of the list that matches, and its capture. */
  function FirstHit(s: string, pats: seq<Pattern>): Option<string> {
    if pats == [] then None
    else if Search(s, pats[0]).Some? then Search(s, pats[0])
    else FirstHit(s, pats[1..])
  }

  /** Trying a list in two halves: the second half is reached only if the first finds nothing. */
  lemma {:induction false} FirstHitAppend(s: string, a: seq<Pattern>, b: seq<Pattern>)
    ensures FirstHit(s, a + b) == if FirstHit(s, a).Some? then FirstHit(s, a) else FirstHit(s, b)
  {
    if a == [] {
      assert a + b == b;
    } else {
      assert (a + b)[0] == a[0];
      assert (a + b)[1..] == a[1..] + b;
      FirstHitAppend(s, a[1..], b);
    }
  }

  /**
   * The first pattern of the list that matches decides, whatever follows it; when none
   * matches, nothing is found.
   */
  lemma {:induction false} FirstHitAt(s: string, pats: seq<Pattern>, k: nat)
    requires k <= |pats|
    requires forall j :: 0 <= j < k ==> Search(s, pats[j]).None?
    ensures k < |pats| && Search(s, pats[k]).Some? ==> FirstHit(s, pats) == Search(s, pats[k])
    ensures k == |pats| ==> FirstHit(s, pats) == None
  {
    if k > 0 {
      FirstHitAt(s, pats[1..], k - 1);
    }
  }

  /** `.replace('\\u0026', '&').replace('\\/', '/')`: the escapes JSON text leaves in a URL. */
  function Unescape(v: string): string {
    Replace(Replace(v, "\\u0026", "&"), "\\/", "/")
  }

  /** A value without a backslash has nothing to unescape. */
  lemma UnescapeClean(v: string)
    requires '\\' !in v
    ensures Unescape(v) == v
  {
    if Contains(v, "\\u0026") {
      ContainsChar(v, "\\u0026");
    }
    ReplaceAbsent(v, "\\u0026", "&");
    if Contains(v, "\\/") {
      ContainsChar(v, "\\/");
    }
    ReplaceAbsent(v, "\\/", "/");
  }

  /** On a clean value unescaping twice is unescaping once. */
  lemma UnescapeIdempotentOnClean(v: string)
    requires '\\' !in v
    ensures Unescape(Unescape(v)) == Unescape(v)
  {
    UnescapeClean(v);
  }

  /** An escaped URL as it sits in page JSON comes out with its `/` and `&` restored. */
  lemma UnescapeExample()
    ensures Unescape("a\\/b\\u0026c") == "a/b&c"
  {
    UnescapeAmpersandStep();
    UnescapeSlashStep();
  }

  /** The first replacement turns `\u0026` into `&`. */
  lemma UnescapeAmpersandStep()
    ensures Replace("a\\/b\\u0026c", "\\u0026", "&") == "a\\/b&c"
  {
    var v := "a\\/b\\u0026c";
    assert IsPrefixAt("\\u0026", v, 4);
    forall q: nat | q < 4 ensures !IsPrefixAt("\\u0026", v, q) {
      assert v[q..q + 6][0] == v[q] && v[q..q + 6][1] == v[q + 1];
    }
    assert IndexOf(v, "\\u0026", 0) == Some(4);
    assert v[10..] == "c";
    assert Replace("c", "\\u0026", "&") == "c";
  }

  /** The second replacement turns `\/` into `/`. */
  lemma UnescapeSlashStep()
    ensures Replace("a\\/b&c", "\\/", "/") == "a/b&c"
  {
    var w := "a\\/b&c";
    assert w[0..2][0] == w[0];
    assert IsPrefixAt("\\/", w, 1) && !IsPrefixAt("\\/", w, 0);
    assert IndexOf(w, "\\/", 0) == Some(1);
    assert w[3..] == "b&c";
    assert forall q: nat :: !IsPrefixAt("\\/", "b&c", q);
    assert Replace("b&c", "\\/", "/") == "b&c";
  }

  // The pattern lists of the page scan, in the order they are tried.
  const VideoUrl := Field("video_url", NonEmpty)
  const DisplayUrl := Field("display_url", NonEmpty)
  const MoreVideoPatterns: seq<Pattern> := [
    After("video_versions", "url"),
    Field("url", Containing([".mp4"])),
    Field("playback_url", NonEmpty),
    Field("src", Containing([".mp4"]))
  ]
  const MoreImagePatterns: seq<Pattern> := [
    After("display_resources", "src"),
    Field("src", Containing([".jpg", ".jpeg"])),
    Field("src", Containing([".png"])),
    Field("display_url", NonEmpty)
  ]

  /** The whole chain, in order. */
  function PagePatterns(): seq<Pattern> {
    [VideoUrl, DisplayUrl] + MoreVideoPatterns + MoreImagePatterns
  }

  /** What the page scan returns: the first capture of the chain, unescaped. */
  function PageText(content: string): Option<string> {
    match FirstHit(content, PagePatterns())
    case Some(v) => Some(Unescape(v))
    case None => None
  }

  /** Whatever the list finds, one of its patterns found it. */
  lemma {:induction false} FirstHitFrom(s: string, pats: seq<Pattern>, v: string)
    requires FirstHit(s, pats) == Some(v)
    ensures exists k :: 0 <= k < |pats| && Search(s, pats[k]) == Some(v)
  {
    if Search(s, pats[0]).None? {
      FirstHitFrom(s, pats[1..], v);
      var k :| 0 <= k < |pats[1..]| && Search(s, pats[1..][k]) == Some(v);
      assert pats[k + 1] == pats[1..][k];
    }
  }

  /** When the list finds nothing, none of its patterns matches. */
  lemma {:induction false} FirstHitNone(s: string, pats: seq<Pattern>, k: nat)
    requires FirstHit(s, pats) == None && k < |pats|
    ensures Search(s, pats[k]) == None
  {
    if k > 0 {
      FirstHitNone(s, pats[1..], k - 1);
    }
  }

  /** Every pattern of the page chain is sound. */
  lemma PagePatternsSound(pat: Pattern)
    requires pat in PagePatterns()
    ensures Sound(pat)
  {
    var exts := [[".mp4"], [".jpg", ".jpeg"], [".png"]];
    assert pat.Field? && pat.capture.Containing? ==> pat.capture.exts in exts;
  }

  /** A `"video_url":"..."` field anywhere in the page wins over every other pattern. */
  lemma VideoUrlFirst(s: string, v: string)
    requires Search(s, VideoUrl) == Some(v)
    ensures PageText(s) == Some(Unescape(v))
  {
    FirstHitAt(s, PagePatterns(), 0);
  }

  /**
   * Without `"video_url"`, a `"display_url":"..."` field wins over the video patterns that
   * follow it (`video_versions`, `.mp4` URLs, `playback_url`).
   */
  lemma DisplayUrlOutranksVideoPatterns(s: string, v: string)
    requires Search(s, VideoUrl) == None
    requires Search(s, DisplayUrl) == Some(v)
    ensures PageText(s) == Some(Unescape(v))
  {
    FirstHitAt(s, PagePatterns(), 1);
  }

  /**
   * The last image pattern repeats `"display_url"`, which was already tried second: whenever
   * the scan reaches it, it cannot match, so dropping it changes nothing.
   */
  lemma LastImagePatternIsDead(s: string)
    ensures FirstHit(s, PagePatterns()) == FirstHit(s, PagePatterns()[..|PagePatterns()| - 1])
  {
    var pats := PagePatterns();
    var init := pats[..|pats| - 1];
    assert pats == init + [DisplayUrl];
    FirstHitAppend(s, init, [DisplayUrl]);
    if FirstHit(s, init).None? {
      FirstHitNone(s, init, 1);
      assert init[1] == DisplayUrl;
    }
  }

  /**
   * The page scan returns page text, unescaped: a non-empty run of the page, free of quotes and
   * closed by one, passed through `Unescape`.
   */
  lemma PageTextIsUnescapedCapture(s: string, u: string)
    requires PageText(s) == Some(u)
    ensures exists v :: u == Unescape(v) && v != [] && Quote !in v &&
                        exists i: nat :: ClosedRunAt(s, i, v)
  {
    var pats := PagePatterns();
    var v := FirstHit(s, pats).value;
    FirstHitFrom(s, pats, v);
    var k :| 0 <= k < |pats| && Search(s, pats[k]) == Some(v);
    PagePatternsSound(pats[k]);
    SearchCapturesQuotedRun(s, pats[k], v);
  }

  /** `for pattern in patterns: match = re.search(...); if match: return ...` */
  method FirstMatch(content: string, patterns: seq<Pattern>) returns (m: Option<string>)
    ensures m == FirstHit(content, patterns)
  {
    for i := 0 to |patterns|
      invariant FirstHit(content, patterns) == FirstHit(content, patterns[i..])
    {
      assert patterns[i..][1..] == patterns[i + 1..];
      m := Search(content, patterns[i]);
      if m.Some? {
        return m;
      }
    }
    return None;
  }

  /** The page scan: the two field patterns, then the two pattern lists, first hit returned. */
  method ScanPageText(content: string) returns (r: Option<string>)
    ensures r == PageText(content)
  {
    var head := [VideoUrl, DisplayUrl];
    FirstHitAppend(content, head + MoreVideoPatterns, MoreImagePatterns);
    FirstHitAppend(content, head, MoreVideoPatterns);
    assert head[1..] == [DisplayUrl] && [DisplayUrl][1..] == [];
    var m := Search(content, VideoUrl);
    if m.Some? {
      return Some(Unescape(m.value));
    }
    m := Search(content, DisplayUrl);
    if m.Some? {
      return Some(Unescape(m.value));
    }
    m := FirstMatch(content, MoreVideoPatterns);
    if m.Some? {
      return Some(Unescape(m.value));
    }
    m := FirstMatch(content, MoreImagePatterns);
    if m.Some? {
      return Some(Unescape(m.value));
    }
    return None;
  }
}
