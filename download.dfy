/**
 * The `POST /download` handler: reads `url` from the JSON body, checks it, runs the extractor
 * and answers with the media URL and its kind, or with an error.
 */
module Download {
  import opened Wrappers
  import opened Strings
  import opened PyJson
  import opened Extractor

  datatype MediaType = Video | Image

  /**
   * The handler's answers: 200 with `success`, `media_url` and `media_type`; 400 with an
   * error message; 500 when an exception reaches the handler's own `except`.
   */
  datatype Reply =
    | Success(mediaUrl: string, mediaType: MediaType)
    | BadRequest(error: string)
    | ServerError

  const UrlRequired := "URL is required"
  const NotInstagram := "Please enter a valid Instagram URL"
  const NotExtracted := "Could not extract media from this URL. Instagram has implemented " +
                        "anti-scraping measures that may prevent downloads. Try using a desktop " +
                        "browser extension or a dedicated Instagram downloader tool."

  /** The extensions that make a media URL a video, compared after lower-casing. */
  const MediaExts: seq<string> := [".mp4", ".mov", ".avi", ".mkv", ".m4v"]

  /** The domain check: the lower-cased URL mentions one of the two Instagram hosts anywhere. */
  predicate IsInstagramUrl(url: string) {
    Contains(Lower(url), "instagram.com") || Contains(Lower(url), "instagr.am")
  }

  /** `any(ext in s for ext in exts)` on a string. */
  function AnyContains(s: string, exts: seq<string>): bool {
    exts != [] && (Contains(s, exts[0]) || AnyContains(s, exts[1..]))
  }

  /** `'video' if any(ext in media_url.lower() for ext in [...]) else 'image'` */
  function MediaTypeOf(mediaUrl: string): MediaType {
    if AnyContains(Lower(mediaUrl), MediaExts) then Video else Image
  }

  /** The answer for what the extractor returned. */
  function Respond(media: Json): Reply {
    if !Truthy(media) then BadRequest(NotExtracted)
    else if media.Str? then Success(media.s, MediaTypeOf(media.s))
    else ServerError  // `.lower()` of a list, dict, number or `True` raises
  }

  /** The outcome of the checks made before the extractor runs. */
  datatype Checked = Rejected(reply: Reply) | Accepted(url: string)

  /**
   * The checks on a request body (`None` when `get_json` raises, on a body that is not JSON
   * or not declared as JSON): the stripped URL, or the answer already decided.
   */
  function CheckRequest(request: Option<Json>): Checked {
    match request
    case None => Rejected(ServerError)
    case Some(data) =>
      match Get(data, "url", Str(""))
      case Raise(_) => Rejected(ServerError)
      case Ok(raw) =>
        if !raw.Str? then Rejected(ServerError)  // only a str has `.strip()`
        else
          var url := StripSpace(raw.s);
          if url == "" then Rejected(BadRequest(UrlRequired))
          else if !IsInstagramUrl(url) then Rejected(BadRequest(NotInstagram))
          else Accepted(url)
  }

  /** The handler's answer for a request body. */
  function DownloadSpec(request: Option<Json>, env: Environment): Reply {
    match CheckRequest(request)
    case Rejected(reply) => reply
    case Accepted(url) => Respond(ExtractSpec(url, env))
  }

  /** The handler, step by step. */
  method HandleDownload(request: Option<Json>, env: Environment) returns (reply: Reply)
    ensures reply == DownloadSpec(request, env)
  {
    if request.None? {
      return ServerError;
    }
    var raw := Get(request.value, "url", Str(""));
    if raw.Raise? || !raw.value.Str? {
      return ServerError;
    }
    var url := StripSpace(raw.value.s);
    if url == "" {
      return BadRequest(UrlRequired);
    }
    if !IsInstagramUrl(url) {
      return BadRequest(NotInstagram);
    }
    var media := ExtractMediaUrl(url, env);
    if !Truthy(media) {
      return BadRequest(NotExtracted);
    }
    if !media.Str? {
      return ServerError;
    }
    return Success(media.s, MediaTypeOf(media.s));
  }

  /** On a string, the `any` test is exactly "one of the extensions is a substring". */
  lemma {:induction false} AnyContainsIff(s: string, exts: seq<string>)
    ensures AnyContains(s, exts) <==> exists k :: 0 <= k < |exts| && Contains(s, exts[k])
  {
    if exts != [] {
      AnyContainsIff(s, exts[1..]);
      if AnyContains(s, exts[1..]) {
        var k :| 0 <= k < |exts[1..]| && Contains(s, exts[1..][k]);
        assert exts[k + 1] == exts[1..][k];
      }
      if !AnyContains(s, exts) {
        forall k | 0 <= k < |exts| ensures !Contains(s, exts[k]) {
          if k > 0 {
            assert exts[k] == exts[1..][k - 1];
          }
        }
      }
    }
  }

  /** A media URL is a video exactly when its lower-cased form contains one of the extensions. */
  lemma MediaTypeIff(mediaUrl: string)
    ensures MediaTypeOf(mediaUrl) == Video <==>
            exists k :: 0 <= k < |MediaExts| && Contains(Lower(mediaUrl), MediaExts[k])
  {
    AnyContainsIff(Lower(mediaUrl), MediaExts);
  }

  /** The body is a dict whose `url` is missing or a string of whitespace only. */
  predicate BlankUrl(request: Option<Json>) {
    request.Some? && request.value.Obj? &&
    match Lookup(request.value.fields, "url")
    case None => true
    case Some(raw) => raw.Str? && forall i :: 0 <= i < |raw.s| ==> IsSpace(raw.s[i])
  }

  /** On a dict, `data.get('url', '')` is the stored value, or the empty string. */
  lemma GetUrl(fields: seq<(string, Json)>)
    ensures Get(Obj(fields), "url", Str("")) ==
            Ok(match Lookup(fields, "url") case Some(raw) => raw case None => Str(""))
  {
  }

  /**
   * A request passes the checks only as a dict whose `url` is a string that strips to a
   * non-empty Instagram URL, and what passes is that stripped URL.
   */
  lemma CheckAccepted(request: Option<Json>, url: string)
    requires CheckRequest(request) == Accepted(url)
    ensures request.Some? && request.value.Obj?
    ensures exists u :: Lookup(request.value.fields, "url") == Some(Str(u)) && url == StripSpace(u)
    ensures url != "" && IsInstagramUrl(url)
  {
    var raw := Get(request.value, "url", Str("")).value;
    GetUrl(request.value.fields);
    assert raw.Str? && url == StripSpace(raw.s);
  }

  /** The checks reject with "URL is required" exactly for a blank URL. */
  lemma CheckUrlRequiredIff(request: Option<Json>)
    ensures CheckRequest(request) == Rejected(BadRequest(UrlRequired)) <==> BlankUrl(request)
  {
    if request.Some? && request.value.Obj? {
      GetUrl(request.value.fields);
      var raw := Get(request.value, "url", Str("")).value;
      if raw.Str? {
        StripEmptyIff(raw.s, IsSpace);
      }
    } else {
      assert CheckRequest(request) == Rejected(ServerError);
    }
  }

  /** "URL is required" comes back exactly for a blank URL. */
  lemma UrlRequiredIff(request: Option<Json>, env: Environment)
    ensures DownloadSpec(request, env) == BadRequest(UrlRequired) <==> BlankUrl(request)
  {
    CheckUrlRequiredIff(request);
    match CheckRequest(request)
    case Rejected(_) =>
    case Accepted(url) => RespondIsNotAValidationError(ExtractSpec(url, env));
  }

  /** What the extractor returns never produces one of the two validation messages. */
  lemma RespondIsNotAValidationError(media: Json)
    ensures Respond(media) != BadRequest(UrlRequired)
    ensures Respond(media) != BadRequest(NotInstagram)
  {
    assert |NotExtracted| != |UrlRequired| && |NotExtracted| != |NotInstagram|;
  }

  /**
   * A URL that names neither Instagram host is refused before the extractor runs: the answer
   * does not depend on anything the extractor would consult.
   */
  lemma NotInstagramNeverExtracts(request: Option<Json>, env: Environment, other: Environment,
                                  u: string)
    requires request.Some? && request.value.Obj?
    requires Lookup(request.value.fields, "url") == Some(Str(u))
    requires StripSpace(u) != "" && !IsInstagramUrl(StripSpace(u))
    ensures DownloadSpec(request, env) == BadRequest(NotInstagram)
    ensures DownloadSpec(request, other) == DownloadSpec(request, env)
  {
    GetUrl(request.value.fields);
    assert CheckRequest(request) == Rejected(BadRequest(NotInstagram));
  }

  /** An Instagram URL for which the extractor gives back a falsy value gets the long error. */
  lemma NothingExtractedIsBadRequest(request: Option<Json>, env: Environment, u: string)
    requires request.Some? && request.value.Obj?
    requires Lookup(request.value.fields, "url") == Some(Str(u))
    requires StripSpace(u) != "" && IsInstagramUrl(StripSpace(u))
    requires !Truthy(ExtractSpec(StripSpace(u), env))
    ensures DownloadSpec(request, env) == BadRequest(NotExtracted)
  {
    GetUrl(request.value.fields);
    assert CheckRequest(request) == Accepted(StripSpace(u));
  }

  /**
   * A success carries exactly what the extractor returned for the stripped Instagram URL, a
   * non-empty string, labelled a video exactly when its lower-cased form names a video file.
   */
  lemma SuccessMeans(request: Option<Json>, env: Environment, media: string, kind: MediaType)
    requires DownloadSpec(request, env) == Success(media, kind)
    ensures request.Some? && request.value.Obj?
    ensures exists u :: Lookup(request.value.fields, "url") == Some(Str(u)) &&
                        IsInstagramUrl(StripSpace(u)) &&
                        ExtractSpec(StripSpace(u), env) == Str(media)
    ensures media != ""
    ensures kind == Video <==> exists k :: 0 <= k < |MediaExts| && Contains(Lower(media), MediaExts[k])
  {
    RejectedIsNotSuccess(request);
    var url := CheckRequest(request).url;
    CheckAccepted(request, url);
    RespondSuccess(ExtractSpec(url, env), media, kind);
    MediaTypeIff(media);
  }

  /**
   * The converse of `SuccessMeans`: an Instagram URL for which the extractor returns a
   * non-empty string is answered with that string and its media kind.
   */
  lemma ExtractedStringSucceeds(request: Option<Json>, env: Environment, u: string, media: string)
    requires request.Some? && request.value.Obj?
    requires Lookup(request.value.fields, "url") == Some(Str(u))
    requires StripSpace(u) != "" && IsInstagramUrl(StripSpace(u))
    requires ExtractSpec(StripSpace(u), env) == Str(media) && media != ""
    ensures DownloadSpec(request, env) == Success(media, MediaTypeOf(media))
  {
    GetUrl(request.value.fields);
    assert CheckRequest(request) == Accepted(StripSpace(u));
  }

  /**
   * A truthy extractor result that is not a string (a list, a dict, a number, `True`, which the
   * embedded JSON can deliver) makes `.lower()` raise: the answer is 500.
   */
  lemma NonStringResultIsServerError(request: Option<Json>, env: Environment, u: string)
    requires request.Some? && request.value.Obj?
    requires Lookup(request.value.fields, "url") == Some(Str(u))
    requires StripSpace(u) != "" && IsInstagramUrl(StripSpace(u))
    requires Truthy(ExtractSpec(StripSpace(u), env)) && !ExtractSpec(StripSpace(u), env).Str?
    ensures DownloadSpec(request, env) == ServerError
  {
    GetUrl(request.value.fields);
    assert CheckRequest(request) == Accepted(StripSpace(u));
  }

  /** The checks never answer with a success. */
  lemma RejectedIsNotSuccess(request: Option<Json>)
    ensures CheckRequest(request).Rejected? ==> !CheckRequest(request).reply.Success?
  {
  }

  /** A success answers a non-empty string, labelled by its media kind. */
  lemma RespondSuccess(media: Json, m: string, kind: MediaType)
    requires Respond(media) == Success(m, kind)
    ensures media == Str(m) && m != "" && kind == MediaTypeOf(m)
  {
  }

  /** A body that is not a JSON object is answered with 500: only a dict has `.get`. */
  lemma NonObjectBodyIsServerError(data: Json, env: Environment)
    requires !data.Obj?
    ensures DownloadSpec(Some(data), env) == ServerError
  {
  }

  /** The media kind ignores case, unlike the oEmbed test: `.MP4` is a video. */
  lemma UpperCaseVideo()
    ensures MediaTypeOf("a.MP4") == Video
  {
    assert Lower("a.MP4") == "a.mp4";
    assert IsPrefixAt(".mp4", Lower("a.MP4"), 1);
    MediaTypeIff("a.MP4");
  }

  /** The test is a substring test, not an extension test: an AVIF image counts as a video. */
  lemma AvifCountsAsVideo()
    ensures MediaTypeOf("a.avif") == Video
  {
    assert Lower("a.avif") == "a.avif";
    assert IsPrefixAt(".avi", Lower("a.avif"), 1);
    MediaTypeIff("a.avif");
  }
}
