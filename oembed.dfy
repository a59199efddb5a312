/**
 * The rule applied to the decoded answer of Instagram's oEmbed endpoint: a `url` that names a
 * video file, otherwise the `thumbnail_url`, otherwise nothing.
 */
module Oembed {
  import opened Wrappers
  import opened Strings
  import opened PyJson

  /** The extensions that make the oEmbed `url` count as a video, compared case-sensitively. */
  const VideoExts: seq<string> := [".mp4", ".mov", ".avi", ".m4v"]

  /**
   * `any(ext in x for ext in exts)`: stops at the first hit; `in` raises `TypeError` when `x`
   * is not a container.
   */
  function AnyIn(exts: seq<string>, x: Json): Py<bool> {
    if exts == [] then Ok(false)
    else
      var hit :- In(exts[0], x);
      if hit then Ok(true) else AnyIn(exts[1..], x)
  }

  /** `if 'thumbnail_url' in data: return data['thumbnail_url']` */
  function ThumbnailRule(data: Json): Py<Step> {
    var hasThumbnail :- In("thumbnail_url", data);
    if hasThumbnail then
      var thumbnail :- Item(data, "thumbnail_url");
      Ok(Found(thumbnail))
    else Ok(Next)
  }

  /** The two tests on the decoded oEmbed answer, in order. */
  function OembedRule(data: Json): Py<Step> {
    var hasUrl :- In("url", data);
    if hasUrl then
      var url :- Item(data, "url");
      var isVideo :- AnyIn(VideoExts, url);
      if isVideo then Ok(Found(url)) else ThumbnailRule(data)
    else ThumbnailRule(data)
  }

  /** On a string, the `any` test is exactly "one of the extensions is a substring". */
  lemma {:induction false} AnyInStr(exts: seq<string>, u: string)
    ensures AnyIn(exts, Str(u)) == Ok(exists k :: 0 <= k < |exts| && Contains(u, exts[k]))
  {
    if exts != [] {
      AnyInStr(exts[1..], u);
      if !Contains(u, exts[0]) {
        assert (exists k :: 0 <= k < |exts| && Contains(u, exts[k])) ==
               (exists k :: 0 <= k < |exts[1..]| && Contains(u, exts[1..][k])) by {
          forall k | 0 <= k < |exts| && Contains(u, exts[k])
            ensures 0 <= k - 1 < |exts[1..]| && Contains(u, exts[1..][k - 1])
          {
            assert k != 0;
          }
          forall k | 0 <= k < |exts[1..]| && Contains(u, exts[1..][k])
            ensures Contains(u, exts[k + 1])
          {
            assert exts[1..][k] == exts[k + 1];
          }
        }
      }
    }
  }

  /** A string `url` naming a video file is returned as it stands. */
  lemma VideoUrlWins(fields: seq<(string, Json)>, u: string)
    requires Lookup(fields, "url") == Some(Str(u))
    requires exists k :: 0 <= k < |VideoExts| && Contains(u, VideoExts[k])
    ensures OembedRule(Obj(fields)) == Ok(Found(Str(u)))
  {
    AnyInStr(VideoExts, u);
  }

  /**
   * Without a video `url` (no `url` key, or a string `url` with none of the extensions), the
   * `thumbnail_url` is returned when the key is present, whatever its value, and the rule
   * passes otherwise.
   */
  lemma ThumbnailFallback(fields: seq<(string, Json)>)
    requires Lookup(fields, "url").None? ||
             exists u :: Lookup(fields, "url") == Some(Str(u)) &&
                         forall k :: 0 <= k < |VideoExts| ==> !Contains(u, VideoExts[k])
    ensures OembedRule(Obj(fields)) ==
      match Lookup(fields, "thumbnail_url")
      case Some(t) => Ok(Found(t))
      case None => Ok(Next)
  {
    if Lookup(fields, "url").Some? {
      var u :| Lookup(fields, "url") == Some(Str(u)) &&
               forall k :: 0 <= k < |VideoExts| ==> !Contains(u, VideoExts[k]);
      AnyInStr(VideoExts, u);
    }
  }

  /** An answer that is not a container (`null`, a number, a boolean) raises `TypeError`. */
  lemma NonContainerRaises(data: Json)
    requires data.Null? || data.Bool? || data.Num?
    ensures OembedRule(data) == Raise(TypeError)
  {
  }

  /** The extension test is case-sensitive: an upper-case `.MP4` is not a video. */
  lemma UpperCaseExtensionIsNotVideo()
    ensures OembedRule(Obj([("url", Str("a.MP4")), ("thumbnail_url", Str("t"))])) ==
            Ok(Found(Str("t")))
  {
    var u := "a.MP4";
    forall k | 0 <= k < |VideoExts| ensures !Contains(u, VideoExts[k]) {
      forall p | 0 <= p <= |u| ensures !IsPrefixAt(VideoExts[k], u, p) {
        if p + 4 <= |u| {
          assert u[p..p + 4][1] == u[p + 1];
        }
      }
    }
    ThumbnailFallback([("url", Str("a.MP4")), ("thumbnail_url", Str("t"))]);
  }
}
