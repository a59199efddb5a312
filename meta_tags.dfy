/**
 * The last resort of the extractor: the `<meta>` tags of the page fetched with the alternate
 * headers, tried in a fixed order, matched ignoring case, the value returned as it stands.
 *
 * Each pattern reads `<meta[^>]*ATTR="VALUE"[^>]*content="([^"]+)"`. Both `[^>]*` stay inside
 * the tag (before its first `>`), and because they are greedy the engine settles on the LAST
 * `content="` of the tag that has the attribute before it and opens a non-empty quoted value.
 */
module MetaTags {
  import opened Wrappers
  import opened Strings
  import opened TextPatterns

  /** The attribute a tag must carry, e.g. `property="og:video"`. */
  datatype MetaPattern = Meta(attr: string, value: string)

  const TagOpen := "<meta"
  const ContentLiteral := "content=\""

  /** The text `attr="value"`. */
  function AttrLiteral(m: MetaPattern): string {
    m.attr + "=\"" + m.value + "\""
  }

  /** The first `>` at or after `i`, or the end of the text: where `[^>]*` must stop. */
  function TagEnd(s: string, i: nat): (e: nat)
    requires i <= |s|
    ensures i <= e <= |s| && (e < |s| ==> s[e] == '>')
    ensures forall k :: i <= k < e ==> s[k] != '>'
    decreases |s| - i
  {
    if i == |s| || s[i] == '>' then i else TagEnd(s, i + 1)
  }

  /** The attribute literal occurs (ignoring case) between `lo` and `b`. */
  predicate AttrBefore(s: string, lo: nat, b: nat, lit: string) {
    exists a: nat :: lo <= a && a + |lit| <= b && CiPrefixAt(lit, s, a)
  }

  /**
   * `content="` at `b` inside the tag text `lo..e`, with the attribute before it, opening a
   * non-empty quoted value: that value.
   */
  function ContentAt(s: string, lo: nat, e: nat, b: nat, m: MetaPattern): (r: Option<string>)
    ensures r.Some? ==> r.value != [] && Quote !in r.value
    ensures r.Some? ==> ClosedRunAt(s, b + |ContentLiteral|, r.value)
  {
    if b + |ContentLiteral| <= e && CiPrefixAt(ContentLiteral, s, b) &&
       AttrBefore(s, lo, b, AttrLiteral(m))
    then
      match QuotedValue(s, b + |ContentLiteral|)
      case Some(v) => if v != [] then Some(v) else None
      case None => None
    else None
  }

  /** The greatest `b` below `top` (and from `lo` on) where `ContentAt` gives a value. */
  function LastContent(s: string, lo: nat, e: nat, top: nat, m: MetaPattern)
    : (r: Option<(nat, string)>)
    ensures r.Some? ==> lo <= r.value.0 < top && ContentAt(s, lo, e, r.value.0, m) == Some(r.value.1)
    ensures r.Some? ==> forall b: nat :: r.value.0 < b < top ==> ContentAt(s, lo, e, b, m).None?
    ensures r.None? ==> forall b: nat :: lo <= b < top ==> ContentAt(s, lo, e, b, m).None?
    decreases top
  {
    if top <= lo then None
    else if ContentAt(s, lo, e, top - 1, m).Some? then
      Some((top - 1, ContentAt(s, lo, e, top - 1, m).value))
    else LastContent(s, lo, e, top - 1, m)
  }

  /** Where the attribute text of a tag opened at `p` begins. */
  function TagBody(p: nat): nat {
    p + |TagOpen|
  }

  /** The meta pattern matching at start position `p`, with its capture. */
  function MetaAt(s: string, p: nat, m: MetaPattern): Option<string> {
    if !CiPrefixAt(TagOpen, s, p) then None
    else
      var e := TagEnd(s, TagBody(p));
      Group(LastContent(s, TagBody(p), e, e, m))
  }

  /** The leftmost start position at or after `from` where the meta pattern matches. */
  function MetaSearchFrom(s: string, m: MetaPattern, from: nat): (r: Option<(nat, string)>)
    ensures r.Some? ==> from <= r.value.0 <= |s| && MetaAt(s, r.value.0, m) == Some(r.value.1)
    ensures r.Some? ==> forall q: nat :: from <= q < r.value.0 ==> MetaAt(s, q, m).None?
    ensures r.None? ==> forall q: nat :: from <= q <= |s| ==> MetaAt(s, q, m).None?
    decreases |s| + 1 - from
  {
    if from > |s| then None
    else
      match MetaAt(s, from, m)
      case Some(v) => Some((from, v))
      case None => MetaSearchFrom(s, m, from + 1)
  }

  /** `re.search(pattern, s, re.IGNORECASE).group(1)`, or `None`. */
  function MetaSearch(s: string, m: MetaPattern): Option<string> {
    Group(MetaSearchFrom(s, m, 0))
  }

  /** The six tags, in the order they are tried. */
  const MetaPatterns: seq<MetaPattern> := [
    Meta("property", "og:video"),
    Meta("property", "og:video:url"),
    Meta("property", "og:video:secure_url"),
    Meta("property", "og:image"),
    Meta("name", "twitter:image"),
    Meta("property", "og:image:url")
  ]

  /** The first pattern of the list that matches, and its capture. */
  function FirstMeta(s: string, ms: seq<MetaPattern>): Option<string> {
    if ms == [] then None
    else if MetaSearch(s, ms[0]).Some? then MetaSearch(s, ms[0])
    else FirstMeta(s, ms[1..])
  }

  /** What the meta-tag scan returns. */
  function MetaText(content: string): Option<string> {
    FirstMeta(content, MetaPatterns)
  }

  /** `for pattern in meta_patterns: match = re.search(...); if match: return match.group(1)` */
  method ScanMetaTags(content: string) returns (r: Option<string>)
    ensures r == MetaText(content)
  {
    for i := 0 to |MetaPatterns|
      invariant FirstMeta(content, MetaPatterns) == FirstMeta(content, MetaPatterns[i..])
    {
      assert MetaPatterns[i..][1..] == MetaPatterns[i + 1..];
      var m := MetaSearch(content, MetaPatterns[i]);
      if m.Some? {
        return m;
      }
    }
    return None;
  }

  /**
   * The first tag pattern of the list that matches decides, whatever follows it; when none
   * matches, nothing is found.
   */
  lemma {:induction false} FirstMetaAt(s: string, ms: seq<MetaPattern>, k: nat)
    requires k <= |ms|
    requires forall j :: 0 <= j < k ==> MetaSearch(s, ms[j]).None?
    ensures k < |ms| && MetaSearch(s, ms[k]).Some? ==> FirstMeta(s, ms) == MetaSearch(s, ms[k])
    ensures k == |ms| ==> FirstMeta(s, ms) == None
  {
    if k > 0 {
      FirstMetaAt(s, ms[1..], k - 1);
    }
  }

  /** Whatever the list finds, one of its patterns found it. */
  lemma {:induction false} FirstMetaFrom(s: string, ms: seq<MetaPattern>, v: string)
    requires FirstMeta(s, ms) == Some(v)
    ensures exists k :: 0 <= k < |ms| && MetaSearch(s, ms[k]) == Some(v)
  {
    if MetaSearch(s, ms[0]).None? {
      FirstMetaFrom(s, ms[1..], v);
      var k :| 0 <= k < |ms[1..]| && MetaSearch(s, ms[1..][k]) == Some(v);
      assert ms[k + 1] == ms[1..][k];
    }
  }

  /**
   * A tag that matches is decided by its last usable `content="`: the value is the one that
   * follows it, and no later `content="` of the same tag would do.
   */
  lemma MetaAtIsLastContent(s: string, p: nat, m: MetaPattern, v: string)
    requires MetaAt(s, p, m) == Some(v)
    ensures CiPrefixAt(TagOpen, s, p)
    ensures exists b: nat :: TagBody(p) <= b &&
              ContentAt(s, TagBody(p), TagEnd(s, TagBody(p)), b, m) == Some(v) &&
              forall b': nat :: b < b' < TagEnd(s, TagBody(p)) ==>
                ContentAt(s, TagBody(p), TagEnd(s, TagBody(p)), b', m).None?
  {
    var e := TagEnd(s, TagBody(p));
    var r := LastContent(s, TagBody(p), e, e, m);
    assert r.Some?;
  }

  /**
   * The converse of `ContentAt`'s contract: a `content="` inside the tag text, after the
   * attribute and opening a non-empty quoted value, yields that value.
   */
  lemma ContentFound(s: string, lo: nat, e: nat, b: nat, m: MetaPattern, v: string)
    requires b + |ContentLiteral| <= e && CiPrefixAt(ContentLiteral, s, b)
    requires AttrBefore(s, lo, b, AttrLiteral(m))
    requires v != [] && Quote !in v && ClosedRunAt(s, b + |ContentLiteral|, v)
    ensures ContentAt(s, lo, e, b, m) == Some(v)
  {
    QuotedValueFound(s, b + |ContentLiteral|, v);
  }

  /** A `content="` with no `>` before it in the tag lies wholly inside the tag. */
  lemma ContentInsideTag(s: string, lo: nat, b: nat)
    requires lo <= b && CiPrefixAt(ContentLiteral, s, b)
    requires forall k :: lo <= k < b ==> s[k] != '>'
    ensures b + |ContentLiteral| <= TagEnd(s, lo)
  {
    forall k | b <= k < b + |ContentLiteral|
      ensures s[k] != '>'
    {
      assert Lower(s[b..b + |ContentLiteral|])[k - b] == LowerChar(s[k]);
      assert Lower(ContentLiteral)[k - b] != '>';
    }
  }

  /** The tag ends at the first `>`. */
  lemma TagEndAt(s: string, i: nat, e: nat)
    requires i <= e < |s| && s[e] == '>'
    requires forall k :: i <= k < e ==> s[k] != '>'
    ensures TagEnd(s, i) == e
  {
  }

  /**
   * A `<meta` tag that holds the attribute and, after it and before the tag's first `>`, a
   * `content="` opening a non-empty quoted value is matched; when no later `content="` of the
   * tag is usable, that value is the capture.
   */
  lemma MetaFound(s: string, p: nat, m: MetaPattern, b: nat, v: string)
    requires CiPrefixAt(TagOpen, s, p)
    requires CiPrefixAt(ContentLiteral, s, b) && AttrBefore(s, TagBody(p), b, AttrLiteral(m))
    requires forall k :: TagBody(p) <= k < b ==> s[k] != '>'
    requires v != [] && Quote !in v && ClosedRunAt(s, b + |ContentLiteral|, v)
    ensures MetaAt(s, p, m).Some?
    ensures (forall b': nat :: b < b' < TagEnd(s, TagBody(p)) ==>
               ContentAt(s, TagBody(p), TagEnd(s, TagBody(p)), b', m).None?) ==>
            MetaAt(s, p, m) == Some(v)
  {
    var lo := TagBody(p);
    ContentInsideTag(s, lo, b);
    var e := TagEnd(s, lo);
    ContentFound(s, lo, e, b, m, v);
    assert LastContent(s, lo, e, e, m).Some?;
  }

  /** The tag `<meta ATTR="VALUE" content="v">`, alone in the text. */
  function SingleTag(m: MetaPattern, v: string): string {
    TagOpen + " " + AttrLiteral(m) + " " + ContentLiteral + v + [Quote, '>']
  }

  /** Where the single tag's `>` stands. */
  function SingleTagEnd(m: MetaPattern, v: string): nat {
    |SingleTag(m, v)| - 1
  }

  /**
   * A page made of the single tag `<meta ATTR="VALUE" content="v">` gives `v` for that
   * tag's pattern, when neither the attribute nor `v` holds a `>` and `v` no quote.
   */
  lemma SingleTagValue(m: MetaPattern, v: string)
    requires '>' !in m.attr && '>' !in m.value
    requires v != [] && Quote !in v && '>' !in v
    ensures MetaSearch(SingleTag(m, v), m) == Some(v)
  {
    var s := SingleTag(m, v);
    var b := |AttrLiteral(m)| + 7;
    SingleTagLayout(m, v);
    ContentInsideTag(s, 5, b);
    TagEndAt(s, 5, |s| - 1);
    assert TagBody(0) == 5 && TagEnd(s, TagBody(0)) == SingleTagEnd(m, v);
    NoLaterContent(m, v);
    forall b': nat | b < b' < TagEnd(s, TagBody(0))
      ensures ContentAt(s, TagBody(0), TagEnd(s, TagBody(0)), b', m).None?
    {
      assert ContentAt(s, 5, SingleTagEnd(m, v), b', m).None?;
    }
    MetaFound(s, 0, m, b, v);
    assert MetaAt(s, 0, m) == Some(v);
  }

  /** Where the parts of the single tag stand. */
  lemma SingleTagLayout(m: MetaPattern, v: string)
    requires '>' !in m.attr && '>' !in m.value
    requires v != [] && Quote !in v && '>' !in v
    ensures CiPrefixAt(TagOpen, SingleTag(m, v), 0)
    ensures CiPrefixAt(ContentLiteral, SingleTag(m, v), |AttrLiteral(m)| + 7)
    ensures AttrBefore(SingleTag(m, v), 5, |AttrLiteral(m)| + 7, AttrLiteral(m))
    ensures ClosedRunAt(SingleTag(m, v), |AttrLiteral(m)| + 7 + |ContentLiteral|, v)
    ensures forall k :: 5 <= k < |SingleTag(m, v)| - 1 ==> SingleTag(m, v)[k] != '>'
    ensures SingleTag(m, v)[|SingleTag(m, v)| - 1] == '>'
  {
    var s := SingleTag(m, v);
    var lit := AttrLiteral(m);
    var n := |lit|;
    var b := n + 7;
    assert '>' !in lit;
    assert s[0..5] == TagOpen;
    assert s[6..6 + n] == lit;
    assert CiPrefixAt(lit, s, 6);
    assert s[b..b + |ContentLiteral|] == ContentLiteral;
    assert s[b + 9..b + 9 + |v|] == v;
    assert s[b + 9 + |v|] == Quote;
    forall k | 5 <= k < |s| - 1 ensures s[k] != '>' {
      if 6 <= k < 6 + n {
        assert s[k] == lit[k - 6];
      } else if b <= k < b + 9 {
        assert s[k] == ContentLiteral[k - b];
      } else if b + 9 <= k < b + 9 + |v| {
        assert s[k] == v[k - b - 9];
      }
    }
  }

  /** Inside the single tag, no `content="` after the real one yields a value. */
  lemma NoLaterContent(m: MetaPattern, v: string)
    requires '>' !in m.attr && '>' !in m.value
    requires v != [] && Quote !in v && '>' !in v
    ensures forall b': nat :: |AttrLiteral(m)| + 7 < b' < SingleTagEnd(m, v) ==>
              ContentAt(SingleTag(m, v), 5, SingleTagEnd(m, v), b', m).None?
  {
    var s := SingleTag(m, v);
    var b := |AttrLiteral(m)| + 7;
    var e := |s| - 1;
    assert s[b + 9..b + 9 + |v|] == v && s[b + 9 + |v|] == Quote && e == b + 10 + |v|;
    assert s[e] == '>';
    forall b': nat | b < b' < e
      ensures ContentAt(s, 5, e, b', m).None?
    {
      if b' + |ContentLiteral| <= e && CiPrefixAt(ContentLiteral, s, b') {
        assert Lower(s[b'..b' + |ContentLiteral|])[8] == LowerChar(s[b' + 8]);
        if b' + 8 >= b + 9 + |v| {
          QuotedValueNoneIff(s, e);
        }
      }
    }
  }

  /** `<meta property="og:image" content="u">` gives `u` for the `og:image` pattern. */
  lemma OgImageExample()
    ensures MetaSearch(SingleTag(Meta("property", "og:image"), "u"), Meta("property", "og:image")) ==
            Some("u")
  {
    SingleTagValue(Meta("property", "og:image"), "u");
  }

  /** A single tag pattern captures a non-empty, quote-free run of the page, verbatim. */
  lemma MetaSearchIsVerbatim(s: string, m: MetaPattern, v: string)
    requires MetaSearch(s, m) == Some(v)
    ensures v != [] && Quote !in v
    ensures exists i: nat :: ClosedRunAt(s, i, v)
  {
    var p := MetaSearchFrom(s, m, 0).value.0;
    var e := TagEnd(s, TagBody(p));
    var b := LastContent(s, TagBody(p), e, e, m).value.0;
    assert ClosedRunAt(s, b + |ContentLiteral|, v);
  }

  /**
   * The meta-tag scan returns page text as it stands, NOT unescaped: a non-empty run of the
   * page, free of quotes and closed by one.
   */
  lemma MetaTextIsVerbatim(s: string, v: string)
    requires MetaText(s) == Some(v)
    ensures v != [] && Quote !in v
    ensures exists i: nat :: ClosedRunAt(s, i, v)
  {
    FirstMetaFrom(s, MetaPatterns, v);
    var k :| 0 <= k < |MetaPatterns| && MetaSearch(s, MetaPatterns[k]) == Some(v);
    MetaSearchIsVerbatim(s, MetaPatterns[k], v);
  }
}
