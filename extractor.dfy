/**
 * `extract_instagram_media_url`: the shortcode gate, then three sources tried in a fixed order
 * (the post page, the oEmbed endpoint, the post page again with other headers), the first that
 * decides giving the result. Any exception that reaches the outer handler turns the whole call
 * into `None`.
 *
 * The outside world is a parameter: how a URL parses, what each fetch returns, where the page
 * embeds its JSON and how a text decodes.
 */
module Extractor {
  import opened Wrappers
  import opened PyJson
  import opened EmbeddedData
  import opened TextPatterns
  import opened MetaTags
  import opened Oembed
  import opened Shortcode

  /** The three header sets the fetches use. */
  datatype Profile = Browser | OembedClient | AltBrowser

  /** A fetch: a response with its status and text, or an exception (timeout, refused, ...). */
  datatype Fetch = Received(status: int, body: string) | Failed

  /**
   * What the sources consult:
   * `get(url, profile)` is the response to a GET of `url` with those headers;
   * `locateBlob(page)` is the JSON text the three blob-locating patterns find, if any;
   * `loads(text)` is `json.loads(text)` (`None` for a `JSONDecodeError`).
   * Each profile is fetched at most once per call, so `get` can describe any sequence of
   * answers, including ones that depend on cookies set by an earlier fetch.
   */
  datatype Services = Services(
    get: (string, Profile) -> Fetch,
    locateBlob: string -> Option<string>,
    loads: string -> Option<Json>)

  /**
   * Everything the extractor learns from outside: `pathOf(url)` is `urlparse(url).path`
   * (`None` when `urlparse` raises), and the services.
   */
  datatype Environment = Environment(pathOf: string -> Option<string>, services: Services)

  /** The oEmbed endpoint for a post URL (the URL is appended as it stands, not encoded). */
  function OembedUrl(url: string): string {
    "https://api.instagram.com/oembed/?url=" + url
  }

  /**
   * The embedded-JSON source: no blob or undecodable JSON, or a `KeyError` / `AttributeError`
   * in the walk, pass to the text patterns; any other exception ends the call with `None`.
   */
  function EmbeddedStep(content: string, svc: Services): Step {
    match svc.locateBlob(content)
    case None => Next
    case Some(blob) =>
      match svc.loads(blob)
      case None => Next
      case Some(data) =>
        match EmbeddedWalk(data)
        case Ok(step) => step
        case Raise(e) => if e == KeyError || e == AttributeError then Next else Found(Null)
  }

  /** The page source (status 200): the embedded JSON, then the text patterns. */
  function PageStep(content: string, svc: Services): Step {
    var embedded := EmbeddedStep(content, svc);
    if embedded.Found? then embedded
    else
      match PageText(content)
      case Some(v) => Found(Str(v))
      case None => Next
  }

  /**
   * The oEmbed source: a failed fetch ends the call; a status other than 200 or an undecodable
   * answer passes; otherwise the oEmbed rule, whose exceptions end the call.
   */
  function OembedStep(url: string, svc: Services): Step {
    match svc.get(OembedUrl(url), OembedClient)
    case Failed => Found(Null)
    case Received(status, body) =>
      if status != 200 then Next
      else
        match svc.loads(body)
        case None => Next
        case Some(data) =>
          match OembedRule(data)
          case Ok(step) => step
          case Raise(_) => Found(Null)
  }

  /** The last source: the meta tags of the page fetched with the alternate headers. */
  function AltResult(url: string, svc: Services): Json {
    match svc.get(url, AltBrowser)
    case Failed => Null
    case Received(status, body) =>
      if status != 200 then Null
      else
        match MetaText(body)
        case Some(v) => Str(v)
        case None => Null
  }

  /** What the extractor returns for `url` (`Null` is Python's `None`). */
  function ExtractSpec(url: string, env: Environment): Json {
    match env.pathOf(url)
    case None => Null
    case Some(path) =>
      if ShortcodeOf(path).None? then Null else Sources(url, env.services)
  }

  /** Past the gate: the page, then oEmbed, then the alternate fetch. */
  function Sources(url: string, svc: Services): Json {
    match svc.get(url, Browser)
    case Failed => Null
    case Received(status, content) =>
      var page := if status == 200 then PageStep(content, svc) else Next;
      if page.Found? then page.value
      else
        var oembed := OembedStep(url, svc);
        if oembed.Found? then oembed.value else AltResult(url, svc)
  }

  /** The extractor, step by step, returning as soon as a source decides. */
  method ExtractMediaUrl(url: string, env: Environment) returns (r: Json)
    ensures r == ExtractSpec(url, env)
  {
    var parsed := env.pathOf(url);
    if parsed.None? {
      return Null;
    }
    var shortcode := ExtractShortcode(parsed.value);
    if shortcode.None? {
      return Null;
    }

    var page := env.services.get(url, Browser);
    if page.Failed? {
      return Null;
    }
    if page.status == 200 {
      var step := ScanPage(page.body, env.services);
      if step.Found? {
        return step.value;
      }
    }

    var oembed := TryOembed(url, env.services);
    if oembed.Found? {
      return oembed.value;
    }

    r := TryAltFetch(url, env.services);
  }

  /** The first source on a page fetched with status 200: the embedded JSON, then the text patterns. */
  method ScanPage(content: string, svc: Services) returns (step: Step)
    ensures step == PageStep(content, svc)
  {
    var blob := svc.locateBlob(content);
    if blob.Some? {
      var data := svc.loads(blob.value);
      if data.Some? {
        var walk := WalkEmbedded(data.value);
        match walk {
          case Ok(Found(v)) => return Found(v);
          case Ok(Next) =>
          case Raise(e) =>
            if e != KeyError && e != AttributeError {
              return Found(Null);
            }
        }
      }
    }
    var text := ScanPageText(content);
    if text.Some? {
      return Found(Str(text.value));
    }
    return Next;
  }

  /** The oEmbed source. */
  method TryOembed(url: string, svc: Services) returns (step: Step)
    ensures step == OembedStep(url, svc)
  {
    var oembed := svc.get(OembedUrl(url), OembedClient);
    if oembed.Failed? {
      return Found(Null);
    }
    if oembed.status == 200 {
      var data := svc.loads(oembed.body);
      if data.Some? {
        match OembedRule(data.value) {
          case Ok(step') => return step';
          case Raise(_) => return Found(Null);
        }
      }
    }
    return Next;
  }

  /** The last source: the meta tags of the page fetched with the alternate headers. */
  method TryAltFetch(url: string, svc: Services) returns (r: Json)
    ensures r == AltResult(url, svc)
  {
    var alt := svc.get(url, AltBrowser);
    if alt.Failed? {
      return Null;
    }
    if alt.status == 200 {
      var meta := ScanMetaTags(alt.body);
      if meta.Some? {
        return Str(meta.value);
      }
    }
    return Null;
  }

  /**
   * Without a shortcode the extractor returns `None` whatever the fetches would have
   * answered: it gives up before the first request.
   */
  lemma NoShortcodeNoFetch(url: string, env: Environment, other: Environment, path: string)
    requires env.pathOf(url) == Some(path) && other.pathOf(url) == Some(path)
    requires ShortcodeOf(path).None?
    ensures ExtractSpec(url, env) == Null
    ensures ExtractSpec(url, other) == ExtractSpec(url, env)
  {
  }

  /**
   * The shortcode is only a gate: two paths that both yield one, whichever, lead to the same
   * result, since nothing after the gate reads it.
   */
  lemma ShortcodeOnlyGates(url: string, env: Environment, other: Environment,
                           path1: string, path2: string)
    requires env.pathOf(url) == Some(path1) && other.pathOf(url) == Some(path2)
    requires other.services == env.services
    requires ShortcodeOf(path1).Some? && ShortcodeOf(path2).Some?
    ensures ExtractSpec(url, other) == ExtractSpec(url, env)
  {
  }

  /** A failed first fetch ends the call with `None`; oEmbed and the alternate fetch are not tried. */
  lemma PageFetchFailureEnds(url: string, env: Environment)
    requires env.services.get(url, Browser) == Failed
    ensures ExtractSpec(url, env) == Null
  {
  }

  /**
   * A typed node reached in the embedded JSON decides the call, even when its answer is
   * `None`: neither the text patterns nor the later fetches are consulted.
   */
  lemma TypedNodeDecides(url: string, env: Environment, path: string, content: string,
                         blob: string, data: Json, v: Json)
    requires env.pathOf(url) == Some(path) && ShortcodeOf(path).Some?
    requires env.services.get(url, Browser) == Received(200, content)
    requires env.services.locateBlob(content) == Some(blob) && env.services.loads(blob) == Some(data)
    requires EmbeddedWalk(data) == Ok(Found(v))
    ensures ExtractSpec(url, env) == v
  {
  }

  /**
   * A `TypeError` in the walk reaches the outer handler: `None`. Examples are a post that is
   * a number, a boolean or `null`, a `graphql` string that contains `shortcode_media`, and a
   * truthy `edges` that is neither a list nor a dict. The walk never raises `IndexError`
   * (`WalkNeverIndexError`), so `TypeError` is the only exception that reaches this handler.
   */
  lemma WalkTypeErrorEnds(url: string, env: Environment, path: string, content: string,
                          blob: string, data: Json)
    requires env.pathOf(url) == Some(path) && ShortcodeOf(path).Some?
    requires env.services.get(url, Browser) == Received(200, content)
    requires env.services.locateBlob(content) == Some(blob) && env.services.loads(blob) == Some(data)
    requires EmbeddedWalk(data) == Raise(TypeError)
    ensures ExtractSpec(url, env) == Null
  {
  }

  /**
   * A `KeyError` or `AttributeError` in the walk is caught by the inner handler, and the
   * embedded source passes to the text patterns. A `KeyError` comes from a non-empty dict
   * `edges` or from a first edge without `node`. An `AttributeError` comes from an
   * `entry_data`, `shortcode_media`, `edge_sidecar_to_children` or first child that is not a
   * dict.
   */
  lemma WalkKeyErrorFallsThrough(content: string, svc: Services, blob: string, data: Json)
    requires svc.locateBlob(content) == Some(blob) && svc.loads(blob) == Some(data)
    requires EmbeddedWalk(data) == Raise(KeyError) || EmbeddedWalk(data) == Raise(AttributeError)
    ensures EmbeddedStep(content, svc) == Next
    ensures PageStep(content, svc) == (match PageText(content)
                                       case Some(v) => Found(Str(v))
                                       case None => Next)
  {
  }

  /**
   * When the embedded JSON does not decide, a page-text match is the answer, unescaped, and
   * oEmbed is not consulted.
   */
  lemma PageTextBeforeOembed(url: string, env: Environment, path: string, content: string,
                             u: string)
    requires env.pathOf(url) == Some(path) && ShortcodeOf(path).Some?
    requires env.services.get(url, Browser) == Received(200, content)
    requires EmbeddedStep(content, env.services) == Next
    requires PageText(content) == Some(u)
    ensures ExtractSpec(url, env) == Str(u)
    ensures exists v :: u == Unescape(v) && exists i: nat :: ClosedRunAt(content, i, v)
  {
    PageTextIsUnescapedCapture(content, u);
  }

  /** When the page does not decide, an oEmbed decision is the answer; the alternate fetch is skipped. */
  lemma OembedBeforeAlt(url: string, env: Environment, path: string, body: string, data: Json,
                        v: Json)
    requires env.pathOf(url) == Some(path) && ShortcodeOf(path).Some?
    requires env.services.get(url, Browser).Received?
    requires env.services.get(url, Browser).status != 200 ||
             PageStep(env.services.get(url, Browser).body, env.services) == Next
    requires env.services.get(OembedUrl(url), OembedClient) == Received(200, body)
    requires env.services.loads(body) == Some(data) && OembedRule(data) == Ok(Found(v))
    ensures ExtractSpec(url, env) == v
  {
    assert ExtractSpec(url, env) == Sources(url, env.services);
    assert OembedStep(url, env.services) == Found(v);
  }

  /**
   * A failed oEmbed fetch (timeout, refused connection) reaches the outer handler: when the page
   * does not decide, the call ends with `None` and the alternate fetch is not tried.
   */
  lemma OembedFetchFailureEnds(url: string, env: Environment, path: string)
    requires env.pathOf(url) == Some(path) && ShortcodeOf(path).Some?
    requires env.services.get(url, Browser).Received?
    requires env.services.get(url, Browser).status != 200 ||
             PageStep(env.services.get(url, Browser).body, env.services) == Next
    requires env.services.get(OembedUrl(url), OembedClient) == Failed
    ensures ExtractSpec(url, env) == Null
  {
    assert ExtractSpec(url, env) == Sources(url, env.services);
    assert OembedStep(url, env.services) == Found(Null);
  }

  /**
   * An exception in the oEmbed rule (`'url' in` a number, a boolean or `null`) is not a
   * `JSONDecodeError`, so the inner handler lets it through: the oEmbed step ends the call.
   */
  lemma OembedStepRaise(url: string, svc: Services, body: string, data: Json, e: Exc)
    requires svc.get(OembedUrl(url), OembedClient) == Received(200, body)
    requires svc.loads(body) == Some(data) && OembedRule(data) == Raise(e)
    ensures OembedStep(url, svc) == Found(Null)
  {
  }

  /** When the page does not decide, an exception in the oEmbed rule ends the call with `None`. */
  lemma OembedRuleRaiseEnds(url: string, env: Environment, path: string, body: string,
                            data: Json, e: Exc)
    requires env.pathOf(url) == Some(path) && ShortcodeOf(path).Some?
    requires env.services.get(url, Browser).Received?
    requires env.services.get(url, Browser).status != 200 ||
             PageStep(env.services.get(url, Browser).body, env.services) == Next
    requires env.services.get(OembedUrl(url), OembedClient) == Received(200, body)
    requires env.services.loads(body) == Some(data) && OembedRule(data) == Raise(e)
    ensures ExtractSpec(url, env) == Null
  {
    assert ExtractSpec(url, env) == Sources(url, env.services);
    OembedStepRaise(url, env.services, body, data, e);
  }

  /**
   * When neither the page nor oEmbed decides, the answer is the meta-tag scan of the alternate
   * fetch, taken verbatim, or `None`.
   */
  lemma MetaTagsLast(url: string, env: Environment, path: string)
    requires env.pathOf(url) == Some(path) && ShortcodeOf(path).Some?
    requires env.services.get(url, Browser).Received?
    requires env.services.get(url, Browser).status != 200 ||
             PageStep(env.services.get(url, Browser).body, env.services) == Next
    requires OembedStep(url, env.services) == Next
    ensures ExtractSpec(url, env) == AltResult(url, env.services)
    ensures ExtractSpec(url, env).Str? ==>
              exists i: nat :: ClosedRunAt(env.services.get(url, AltBrowser).body, i, ExtractSpec(url, env).s)
  {
    if ExtractSpec(url, env).Str? {
      MetaTextIsVerbatim(env.services.get(url, AltBrowser).body, ExtractSpec(url, env).s);
    }
  }
}
