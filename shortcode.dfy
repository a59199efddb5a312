/**
 * The shortcode gate of the extractor: the path of the post URL is cut into segments, the
 * segment after the first marker (`p`, `reel`, `tv`, `reels`) is taken, the last segment is
 * the fallback, and without a non-empty shortcode the extractor stops before any fetch.
 */
module Shortcode {
  import opened Wrappers
  import opened Strings

  /** The segments that announce a shortcode. */
  const Markers: set<string> := {"p", "reel", "tv", "reels"}

  /** `path.strip('/').split('/')` */
  function PathParts(path: string): (parts: seq<string>)
    ensures |parts| >= 1
    ensures forall k :: 0 <= k < |parts| ==> '/' !in parts[k]
  {
    Split(Strip(path, IsSlash), '/')
  }

  predicate IsSlash(c: char) {
    c == '/'
  }

  /** Segment `j` is a marker with a segment after it. */
  predicate IsMarkerAt(parts: seq<string>, j: int) {
    0 <= j && j + 1 < |parts| && parts[j] in Markers
  }

  /** The first index at or after `from` holding a marker followed by another segment. */
  function MarkerIndex(parts: seq<string>, from: nat): (r: Option<nat>)
    ensures r.Some? ==> from <= r.value && IsMarkerAt(parts, r.value)
    ensures r.Some? ==> forall j :: from <= j < r.value ==> !IsMarkerAt(parts, j)
    ensures r.None? ==> forall j :: from <= j ==> !IsMarkerAt(parts, j)
    decreases |parts| - from
  {
    if from + 1 >= |parts| then None
    else if IsMarkerAt(parts, from) then Some(from)
    else MarkerIndex(parts, from + 1)
  }

  /** `segment.split('?')[0].split('/')[0]` */
  function Cut(segment: string): string {
    Split(Split(segment, '?')[0], '/')[0]
  }

  /** What the marker scan leaves in `shortcode`; the empty string stands for a falsy value. */
  function MarkerCode(parts: seq<string>): string {
    match MarkerIndex(parts, 0)
    case Some(i) => Cut(parts[i + 1])
    case None => ""
  }

  /** `path_parts[-1].split('?')[0]` when the last segment is non-empty, else nothing. */
  function LastCode(parts: seq<string>): string
    requires |parts| >= 1
  {
    if |parts[|parts| - 1]| > 0 then Split(parts[|parts| - 1], '?')[0] else ""
  }

  /** The shortcode of a URL path, or `None` when the extractor gives up at once. */
  function ShortcodeOf(path: string): Option<string> {
    var parts := PathParts(path);
    var code := if MarkerCode(parts) != "" then MarkerCode(parts) else LastCode(parts);
    if code == "" then None else Some(code)
  }

  /** The scan of app.py: a `for` loop that stops at the first marker, then the fallback. */
  method ExtractShortcode(path: string) returns (r: Option<string>)
    ensures r == ShortcodeOf(path)
  {
    var parts := PathParts(path);
    var shortcode := "";
    for i := 0 to |parts|
      invariant shortcode == ""
      invariant MarkerIndex(parts, 0) == MarkerIndex(parts, i)
    {
      if parts[i] in Markers && i + 1 < |parts| {
        shortcode := parts[i + 1];
        shortcode := Split(Split(shortcode, '?')[0], '/')[0];
        assert MarkerIndex(parts, i) == Some(i);
        break;
      }
    }
    assert shortcode == MarkerCode(parts);
    if shortcode == "" {
      if |parts| > 0 && |parts[|parts| - 1]| > 0 {
        shortcode := Split(parts[|parts| - 1], '?')[0];
      }
    }
    if shortcode == "" {
      return None;
    }
    return Some(shortcode);
  }

  /** The cut keeps the segment up to its first `?` or `/`. */
  lemma CutIsHead(segment: string)
    ensures Cut(segment) <= segment
    ensures '?' !in Cut(segment) && '/' !in Cut(segment)
    ensures |Cut(segment)| == |segment| || segment[|Cut(segment)|] in {'?', '/'}
  {
    var a := Split(segment, '?')[0];
    SplitHead(segment, '?');
    SplitHead(a, '/');
    var c := Cut(segment);
    assert forall k :: 0 <= k < |c| ==> c[k] == a[k];
  }

  /**
   * The first marker followed by a segment decides: when that segment cuts to something
   * non-empty, that is the shortcode, whatever later markers say.
   */
  lemma FirstMarkerWins(path: string, i: nat)
    requires IsMarkerAt(PathParts(path), i)
    requires forall j :: 0 <= j < i ==> !IsMarkerAt(PathParts(path), j)
    requires Cut(PathParts(path)[i + 1]) != ""
    ensures ShortcodeOf(path) == Some(Cut(PathParts(path)[i + 1]))
  {
  }

  /**
   * When the first marker's segment cuts to nothing the scan still stops there, and only the
   * last segment can save the call; with no marker at all, likewise.
   */
  lemma EmptyMarkerFallsBack(path: string)
    requires MarkerCode(PathParts(path)) == ""
    ensures LastCode(PathParts(path)) == "" ==> ShortcodeOf(path) == None
    ensures LastCode(PathParts(path)) != "" ==> ShortcodeOf(path) == Some(LastCode(PathParts(path)))
  {
  }

  /** No shortcode exactly when neither the marker scan nor the last segment gives one. */
  lemma ShortcodeNoneIff(path: string)
    ensures ShortcodeOf(path).None? <==>
      MarkerCode(PathParts(path)) == "" && LastCode(PathParts(path)) == ""
  {
  }

  /** A shortcode is a non-empty head of one path segment, free of `?` and `/`. */
  lemma ShortcodeShape(path: string, code: string)
    requires ShortcodeOf(path) == Some(code)
    ensures code != "" && '?' !in code && '/' !in code
    ensures exists k :: 0 <= k < |PathParts(path)| && code <= PathParts(path)[k]
  {
    var parts := PathParts(path);
    if MarkerCode(parts) != "" {
      var i := MarkerIndex(parts, 0).value;
      CutIsHead(parts[i + 1]);
      assert code <= parts[i + 1];
    } else {
      var last := parts[|parts| - 1];
      SplitHead(last, '?');
      assert code <= last;
    }
  }

  /**
   * A post path `/<marker>/<code>/` gives `code` when the code is non-empty and holds neither
   * `/` nor `?`: `/p/ABC123/`, `/reel/XYZ/`, `/tv/T1/`.
   */
  lemma MarkerPath(m: string, code: string)
    requires m in Markers
    requires code != "" && '/' !in code && '?' !in code
    ensures ShortcodeOf("/" + m + "/" + code + "/") == Some(code)
  {
    MarkerPathParts(m, code);
    assert MarkerIndex([m, code], 0) == Some(0);
    SplitNoSep(code, '/');
    SplitNoSep(code, '?');
  }

  /** The segments of `/<marker>/<code>/` are the marker and the code. */
  lemma MarkerPathParts(m: string, code: string)
    requires m in Markers
    requires code != "" && '/' !in code
    ensures PathParts("/" + m + "/" + code + "/") == [m, code]
  {
    MarkerShape(m);
    var body := m + ['/'] + code;
    assert "/" + m + "/" + code + "/" == ['/'] + (body + ['/']);
    assert body[0] == m[0] && body[|body| - 1] == code[|code| - 1];
    TrimOneSlash(body);
    SplitAt(m, code, '/');
    SplitNoSep(code, '/');
  }

  /** `/p/ABC123/` gives `ABC123`. */
  lemma PostPath()
    ensures ShortcodeOf("/p/ABC123/") == Some("ABC123")
  {
    assert "/" + "p" + "/" + "ABC123" + "/" == "/p/ABC123/";
    MarkerPath("p", "ABC123");
  }

  /** A marker is a non-empty segment. */
  lemma MarkerShape(m: string)
    requires m in Markers
    ensures m != "" && '/' !in m
  {
    assert m == "p" || m == "reel" || m == "tv" || m == "reels";
  }

  /** Stripping `/` from `/x/` gives `x` when `x` neither starts nor ends with `/`. */
  lemma TrimOneSlash(x: string)
    requires x != [] && x[0] != '/' && x[|x| - 1] != '/'
    ensures Strip(['/'] + (x + ['/']), IsSlash) == x
  {
    var t := x + ['/'];
    assert (['/'] + t)[1..] == t;
    assert TrimStart(t, IsSlash) == t by {
      assert t[0] == x[0];
    }
    assert TrimStart(['/'] + t, IsSlash) == t;
    assert t[..|t| - 1] == x;
    assert TrimEnd(x, IsSlash) == x;
  }

  /** A bare `/p/` gives the marker itself as its shortcode: the fallback takes the last segment. */
  lemma BareMarker()
    ensures ShortcodeOf("/p/") == Some("p")
  {
    assert "/p/"[1..] == "p/";
    assert TrimStart("/p/", IsSlash) == "p/";
    assert "p/"[..1] == "p";
    assert TrimEnd("p/", IsSlash) == "p";
    SplitNoSep("p", '/');
    SplitNoSep("p", '?');
    assert PathParts("/p/") == ["p"];
  }

  /** The root path gives no shortcode. */
  lemma RootPath()
    ensures ShortcodeOf("/") == None
  {
  }
}
