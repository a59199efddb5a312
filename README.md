# Instagram media resolver — a verified model

The service takes the URL of a public Instagram post and answers with a direct URL of the
post's image or video. Its core is `extract_instagram_media_url` in `app.py`. It works in stages:

1. It cuts a *shortcode* (the post identifier) out of the URL path. Without one it gives up
   before any request.
2. It fetches the post page with browser-like headers. It looks for post data the page embeds
   as JSON (`entry_data` → `graphql.shortcode_media`) and decides on the node's `__typename`
   (`GraphVideo`, `GraphImage`, `GraphSidecar`).
3. Failing that, it tries an ordered chain of regular expressions over the page text. The
   capture of the first one that matches is returned, with `\u0026` turned into `&` and `\/` into `/`.
4. Then it asks Instagram's oEmbed endpoint. A `url` naming a video file wins, then the
   `thumbnail_url`.
5. Last, it fetches the page again with other headers and scans six `<meta>` tags in order,
   ignoring case. The value is returned as it stands.

The `POST /download` handler validates the URL, calls the extractor and labels the answer
`video` or `image`.

The Dafny modules follow that structure:

| module | file | models |
|---|---|---|
| `Strings` | strings.dfy | the Python `str` operations used (`in`, `replace`, `split`, `strip`, `lower`) and the substring search the patterns rely on |
| `PyJson` | pyjson.dfy | decoded JSON values and the Python operations on them, each with its exception |
| `Shortcode` | shortcode.dfy | the shortcode scan (a `for` loop with `break`) |
| `EmbeddedData` | embedded.dfy | the walk over the embedded JSON (a loop over `entry_data` items) |
| `TextPatterns` | text_patterns.dfy | the page-text regular expressions, matched exactly, and the unescape step |
| `MetaTags` | meta_tags.dfy | the `<meta>` patterns, matched exactly under `re.IGNORECASE` |
| `Oembed` | oembed.dfy | the rule applied to the oEmbed answer |
| `Extractor` | extractor.dfy | the order of the three sources and the exception handling |
| `Download` | download.dfy | the `/download` handler |

Each loop of the source is a `method`, proved equal to a specification function. The lemmas
are stated about those functions.

The regular expressions are matched exactly, with `re.search` semantics:
- A field pattern `"key":"([^"]+)"` matches at the leftmost place where the literal is followed
  by a non-empty run without quotes and a closing quote.
- `[^"]*\.mp4[^"]*` requires that whole run to contain `.mp4`.
- The lazy `"anchor".*?"key":"…"` gives the first field match after the *first* occurrence of
  the anchor (`AfterFirstAnchor`).
- A meta pattern `<meta[^>]*ATTR="V"[^>]*content="([^"]+)"` starts at the leftmost `<meta` that
  matches. Because `[^>]*` is greedy and cannot cross `>`, it uses the *last* `content="` in that
  tag that follows the attribute (`MetaAtIsLastContent`).

Python's exceptions are modelled where they change the result:
- Inside the embedded-JSON block, `KeyError` and `AttributeError` are caught, and the page
  text is tried next.
- A `TypeError` escapes to the outer `except Exception`, so the whole call returns `None`.
  The walk never raises `IndexError`, because `edges[0]` runs only after `if edges:`
  (`WalkNeverIndexError`).
- The same happens to a failed fetch (timeout or connection error), to an exception raised by
  `urlparse`, and to any exception in the oEmbed rule.

The result of the extractor is a JSON value (`Null` is `None`). The embedded data can deliver a
truthy value that is not a string, and the handler then fails on `.lower()` with a 500.

Some behaviour of the code worth knowing when reading the model:
- The extractor makes three fixed fetches in a fixed order: the page, the oEmbed endpoint and
  the page again with other headers. There is no retry, no 429 backoff, no API-query source and
  no log of attempts.
- A transport failure (timeout, refused connection) ends the call with `None`; the later
  sources are not tried.
- Meta-tag values are returned verbatim; only page-text captures are unescaped.
- Empty path segments are kept by `split('/')`, and the fallback is the last segment only when
  that segment is non-empty.

Three observations about the code as written are proved:
- The last image pattern repeats `"display_url"`, which is already tried second, so it can never
  match (`LastImagePatternIsDead`).
- A bare `/p/` path passes the gate with shortcode `p` (`BareMarker`). The shortcode's value is
  never used after the gate (`ShortcodeOnlyGates`).
- The media-type test is a substring test. An `.avif` image counts as a video
  (`AvifCountsAsVideo`).

## Model

| member | source | states |
|---|---|---|
| Strings.Replace | app.py:122 | `str.replace`: leftmost occurrences, left to right, never overlapping (definition) |
| Strings.Lower | app.py:233 | `str.lower()` on ASCII letters (definition) |
| Strings.StripSpace | app.py:227 | `str.strip()` with Python's whitespace set (definition) |
| Strings.Strip | app.py:21 | `s.strip(chars)`: the leading and then the trailing run of dropped characters removed (definition) |
| Strings.IndexOf | app.py:120 | the leftmost occurrence of a literal at or after a position, or none anywhere after it |
| Strings.Contains | app.py:173 | Python's `sub in s` on two strings, as used at app.py:173, 233 and 244 (definition) |
| Strings.CiPrefixAt | app.py:209 | a literal occurring at a position when ASCII case is ignored, as `re.IGNORECASE` matches (definition) |
| Strings.Split | app.py:21 | `split` yields at least one part and no part holds the separator |
| Strings.JoinSplit | app.py:21 | joining the parts of `split` with the separator gives back the original string |
| Strings.SplitHead | app.py:29 | the first part of `split` is the longest prefix before the separator |
| Strings.TrimStart | app.py:21 | the result is a suffix; only droppable characters were removed; the first kept one is not droppable |
| Strings.TrimEnd | app.py:21 | the result is a prefix; only droppable characters were removed; the last kept one is not droppable |
| Strings.StripEmptyIff | app.py:227-229 | `strip` leaves nothing exactly when every character is one it removes |
| Strings.StripKeeps | app.py:227-229 | a character `strip` does not remove keeps the result non-empty |
| Strings.StripAllDropped | app.py:227-229 | when every character is removable, `strip` leaves nothing |
| Strings.ReplaceAbsent | app.py:122 | `replace` leaves a string without the pattern unchanged |
| Strings.ReplaceChars | app.py:122 | the output of `replace` only holds characters of the input and of the replacement |
| PyJson.Lookup | app.py:84-112 | a dict lookup finds a value exactly when the key is present, and the pair is in the dict |
| PyJson.Truthy | app.py:94 | Python's `bool(v)` on decoded JSON (definition) |
| PyJson.In | app.py:88 | `key in v`: key test on a dict, element test on a list, substring test on a str, `TypeError` otherwise (definition) |
| PyJson.Item | app.py:89 | `v[key]`: `KeyError` for a missing key, `TypeError` on a non-dict (definition) |
| PyJson.Get | app.py:91 | `v.get(key, default)`: `AttributeError` on a non-dict (definition) |
| PyJson.First | app.py:105 | `v[0]`: `IndexError` when empty, `KeyError` on a dict, `TypeError` otherwise (definition) |
| Shortcode.PathParts | app.py:21 | at least one segment, and no segment holds `/` |
| Shortcode.MarkerIndex | app.py:25-26 | the first segment that is a marker with a segment after it, or none |
| Shortcode.Cut | app.py:29 | `split('?')[0].split('/')[0]` on one segment (definition) |
| Shortcode.MarkerCode | app.py:25-31 | the cut of the segment after the first marker that has one, or empty (definition) |
| Shortcode.LastCode | app.py:32-35 | the fallback: the last segment up to its first `?`, when that segment is non-empty (definition) |
| Shortcode.ShortcodeOf | app.py:19-38 | the marker cut, else the fallback, else no shortcode (definition) |
| Shortcode.ExtractShortcode | app.py:19-38 | the scan loop with `break` and the last-segment fallback equal the shortcode function |
| Shortcode.CutIsHead | app.py:29 | the cut keeps the segment up to its first `?` or `/`, and holds neither |
| Shortcode.FirstMarkerWins | app.py:25-31 | the first marker followed by a segment that cuts non-empty gives the shortcode, whatever later markers say |
| Shortcode.EmptyMarkerFallsBack | app.py:32-38 | when the marker scan yields nothing, the last segment (before `?`) decides, or there is no shortcode |
| Shortcode.ShortcodeNoneIff | app.py:32-38 | no shortcode exactly when both the marker scan and the last-segment fallback yield nothing |
| Shortcode.ShortcodeShape | app.py:25-35 | a shortcode is non-empty, holds no `?` or `/`, and is a prefix of a path segment |
| Shortcode.MarkerPath | app.py:19-38 | a path `/<marker>/<code>/` gives `code` when the code is non-empty and free of `/` and `?` |
| Shortcode.MarkerPathParts | app.py:21 | the segments of `/<marker>/<code>/` are exactly the marker and the code |
| Shortcode.PostPath | app.py:19-38 | `/p/ABC123/` gives `ABC123`, an instance of `MarkerPath` |
| Shortcode.BareMarker | app.py:32-35 | `/p/` gives the shortcode `p` through the fallback |
| Shortcode.RootPath | app.py:37-38 | `/` gives no shortcode |
| EmbeddedData.EmbeddedWalk | app.py:84-85 | the walk: `entry_data` present, a dict, its values tried in order (definition) |
| EmbeddedData.EntriesWalk | app.py:85-112 | the `entry_data` values in order, the first that decides or raises ending the walk (definition) |
| EmbeddedData.PostStep | app.py:86-89 | one `entry_data` value: a non-empty list whose first post has `graphql.shortcode_media` (definition) |
| EmbeddedData.TypedNode | app.py:91-112 | the decision by `__typename` (definition) |
| EmbeddedData.VideoRule | app.py:93-97 | `video_url` when truthy, otherwise `display_url` (definition) |
| EmbeddedData.SidecarRule | app.py:101-105 | the carousel: `edges[0]['node']` when `edges` is truthy (definition) |
| EmbeddedData.ChildRule | app.py:106-112 | the carousel child: the video rule or `display_url` (definition) |
| EmbeddedData.WalkEmbedded | app.py:84-112 | the `entry_data` loop with early return equals the walk function, exceptions included |
| EmbeddedData.FirstDecisionWins | app.py:85-112 | the first `entry_data` value that decides (or raises) decides the walk; if none does, the walk goes on |
| EmbeddedData.VideoNode | app.py:91-97 | a `GraphVideo` node yields its truthy `video_url`, otherwise its `display_url` or `None` |
| EmbeddedData.ImageNode | app.py:98-100 | a `GraphImage` node yields its `display_url` or `None` |
| EmbeddedData.SidecarNode | app.py:101-112 | a `GraphSidecar` node is decided by the `node` of its first edge, with the video rule or `display_url` |
| EmbeddedData.SidecarFirstChild | app.py:103-105 | the carousel rule follows the first edge to its `node` and applies the child rule there |
| EmbeddedData.ChildRuleObj | app.py:106-112 | on a dict the child rule cannot raise: the video rule for a video child, its `display_url` otherwise |
| EmbeddedData.UndecidedNode | app.py:91-112 | a node of another type does not stop the walk |
| EmbeddedData.EmptyCarouselUndecided | app.py:101-104 | a carousel whose `edges` is missing or falsy does not stop the walk |
| EmbeddedData.SidecarNoIndexError | app.py:103-105 | `edges[0]` runs only after `if edges:`, so the carousel rule never raises `IndexError` |
| EmbeddedData.PostStepNoIndexError | app.py:86-112 | no `entry_data` value makes the walk raise `IndexError` |
| EmbeddedData.EntriesNoIndexError | app.py:85-112 | the loop over `entry_data` never raises `IndexError` |
| EmbeddedData.WalkNeverIndexError | app.py:84-112 | the whole walk never raises `IndexError` |
| EmbeddedData.ScalarPostRaises | app.py:88 | `'graphql' in` a number, boolean or `null` post raises `TypeError` |
| EmbeddedData.MissingEntryDataPasses | app.py:84 | without `entry_data` nothing is raised and the walk passes |
| TextPatterns.FieldAt | app.py:120 | the field pattern `"key":"(capture)"` at one start position (definition) |
| TextPatterns.MatchAt | app.py:132-151 | either pattern shape at one start position; the lazy `.*?` takes the first field match after the anchor (definition) |
| TextPatterns.Accepts | app.py:120-149 | the capture groups: `([^"]+)` accepts a non-empty run, `([^"]*\.ext[^"]*)` a run that contains one of the extensions (definition) |
| TextPatterns.Search | app.py:120-157 | `re.search`: the capture at the leftmost position where a pattern matches (definition) |
| TextPatterns.FirstHit | app.py:139-157 | a pattern list tried in order, the first match winning (definition) |
| TextPatterns.PagePatterns | app.py:120-150 | the ten page-text patterns in source order (definition) |
| TextPatterns.Unescape | app.py:122 | `.replace('\\u0026', '&').replace('\\/', '/')` (definition) |
| TextPatterns.PageText | app.py:118-157 | the ordered chain over the page, unescaped (definition) |
| TextPatterns.QuotedValue | app.py:120 | the run found is page text up to, and free of, the next quote |
| TextPatterns.QuotedValueFound | app.py:120 | a quote-free run closed by a quote is always found |
| TextPatterns.QuotedValueNoneIff | app.py:120 | no run exactly when no quote follows |
| TextPatterns.SearchFrom | app.py:120-157 | the leftmost start position where a pattern matches, with its capture, or no match at all |
| TextPatterns.SearchFromFirst | app.py:120-157 | a match with none before it is what the search returns |
| TextPatterns.SearchCapturesQuotedRun | app.py:120-157 | any capture is a non-empty, quote-free run of the page closed by a quote |
| TextPatterns.MatchCapturesQuotedRun | app.py:120-157 | a pattern matching at a position captures a non-empty, quote-free run closed by a quote |
| TextPatterns.FieldCapturesQuotedRun | app.py:120 | a field pattern captures exactly the quoted run right after its `"key":"` |
| TextPatterns.FieldFound | app.py:120 | conversely, `"key":"` followed by a quote-closed run the capture accepts is matched, with that run |
| TextPatterns.FieldAtStart | app.py:120 | a page opening with `"key":"v"` gives `v` for the field pattern, whatever follows |
| TextPatterns.DisplayUrlExample | app.py:126 | `"display_url":"https://x/i.jpg"` gives `https://x/i.jpg` |
| TextPatterns.AfterFirstAnchor | app.py:133-147 | the lazy anchored pattern gives the first field match after the first anchor occurrence |
| TextPatterns.NoMatchBeforeAnchor | app.py:133 | the anchored pattern cannot start before the first occurrence of its anchor |
| TextPatterns.NoMatchAfterAnchor | app.py:133 | when no field follows the first anchor, the anchored pattern matches nowhere from there on |
| TextPatterns.AfterNoAnchor | app.py:133-147 | without the anchor in the page, the anchored pattern finds nothing |
| TextPatterns.FirstHitAppend | app.py:118-157 | a list tried in two halves: the second is reached only when the first finds nothing |
| TextPatterns.FirstHitAt | app.py:139-157 | the first pattern of a list that matches decides; with none, nothing is found |
| TextPatterns.UnescapeClean | app.py:122 | a value without a backslash is unchanged by unescaping |
| TextPatterns.UnescapeIdempotentOnClean | app.py:122 | unescaping a clean value twice is unescaping it once |
| TextPatterns.UnescapeExample | app.py:122 | `a\/b\u0026c` unescapes to `a/b&c` |
| TextPatterns.UnescapeAmpersandStep | app.py:122 | the first replacement turns `\u0026` into `&` |
| TextPatterns.UnescapeSlashStep | app.py:122 | the second replacement turns `\/` into `/` |
| TextPatterns.VideoUrlFirst | app.py:120-123 | a `"video_url"` field anywhere wins over every other pattern |
| TextPatterns.DisplayUrlOutranksVideoPatterns | app.py:126-143 | without `"video_url"`, `"display_url"` outranks `video_versions`, `.mp4` and `playback_url` |
| TextPatterns.LastImagePatternIsDead | app.py:126-150 | dropping the last image pattern changes nothing |
| TextPatterns.PageTextIsUnescapedCapture | app.py:118-157 | the page scan returns the unescaping of a quoted run of the page |
| TextPatterns.FirstMatch | app.py:139-143 | the loop over a pattern list with early return finds the first hit |
| TextPatterns.ScanPageText | app.py:118-157 | the whole page scan equals the ordered chain, unescaped |
| MetaTags.MetaAt | app.py:199-206 | a tag pattern at one `<meta` start: the last usable `content="` before the tag's first `>` (definition) |
| MetaTags.MetaSearch | app.py:209 | `re.search` of one tag pattern over the page (definition) |
| MetaTags.FirstMeta | app.py:208-212 | a tag-pattern list tried in order, the first match winning (definition) |
| MetaTags.MetaText | app.py:199-212 | the six tag patterns in source order over the page (definition) |
| MetaTags.TagEnd | app.py:200 | the first `>` at or after a position, or the end: where `[^>]*` stops |
| MetaTags.ContentAt | app.py:200-205 | a usable `content="` yields a non-empty, quote-free run closed by a quote |
| MetaTags.ContentFound | app.py:200-205 | conversely, a `content="` inside the tag, after the attribute, opening a non-empty quoted value yields it |
| MetaTags.ContentInsideTag | app.py:200-205 | a `content="` with no `>` before it lies wholly before the tag's end |
| MetaTags.TagEndAt | app.py:200-205 | the tag ends at its first `>` |
| MetaTags.MetaFound | app.py:199-206 | a tag with the attribute and a usable `content="` before its `>` is matched, with that value when no later one is usable |
| MetaTags.SingleTagValue | app.py:199-211 | a page made of `<meta ATTR="VALUE" content="v">` gives `v` for that pattern |
| MetaTags.SingleTagLayout | app.py:199-206 | where the parts of that single tag stand |
| MetaTags.NoLaterContent | app.py:199-206 | in that tag no later `content="` is usable |
| MetaTags.OgImageExample | app.py:203-211 | `<meta property="og:image" content="u">` gives `u` |
| MetaTags.LastContent | app.py:200-205 | the last usable `content="` in a range, or none in it |
| MetaTags.MetaSearchFrom | app.py:209 | the leftmost `<meta` where a tag pattern matches, or no match |
| MetaTags.ScanMetaTags | app.py:199-212 | the loop over the six tag patterns with early return equals the ordered chain |
| MetaTags.FirstMetaAt | app.py:208-212 | the first tag pattern that matches decides; with none, nothing is found |
| MetaTags.MetaAtIsLastContent | app.py:200-205 | a matching tag takes the value of its last usable `content="` |
| MetaTags.MetaTextIsVerbatim | app.py:208-212 | the meta scan returns page text verbatim (not unescaped): a non-empty, quote-free run closed by a quote |
| Oembed.OembedRule | app.py:172-178 | the two tests on the oEmbed answer, in order, with Python's exceptions (definition) |
| Oembed.AnyIn | app.py:173 | `any(ext in x for ext in exts)`, short-circuit, with `TypeError` from `in` on a non-container (definition) |
| Oembed.ThumbnailRule | app.py:177-178 | `thumbnail_url` when present, otherwise the rule passes (definition) |
| Oembed.AnyInStr | app.py:173 | on a string `url`, the `any` test holds exactly when one extension is a substring |
| Oembed.VideoUrlWins | app.py:173-174 | a string `url` containing `.mp4`, `.mov`, `.avi` or `.m4v` is returned |
| Oembed.ThumbnailFallback | app.py:173-181 | without a video `url`, a present `thumbnail_url` is returned (whatever its value); otherwise the rule passes |
| Oembed.NonContainerRaises | app.py:173 | a `null`, number or boolean answer raises `TypeError` |
| Oembed.UpperCaseExtensionIsNotVideo | app.py:173-178 | the extension test is case-sensitive: `a.MP4` falls back to the thumbnail |
| Extractor.ExtractSpec | app.py:14-217 | the gate, then the three sources; exceptions give `None` (definition) |
| Extractor.Sources | app.py:58-214 | the page, then oEmbed, then the alternate fetch, the first that decides giving the result (definition) |
| Extractor.OembedUrl | app.py:165 | the oEmbed request URL: the endpoint with the post URL appended unencoded (definition) |
| Extractor.EmbeddedStep | app.py:64-116 | the embedded JSON: no blob or undecodable JSON, `KeyError` or `AttributeError` pass to the text patterns; any other exception ends the call (definition) |
| Extractor.PageStep | app.py:61-157 | a status-200 page: the embedded JSON, then the text patterns (definition) |
| Extractor.OembedStep | app.py:165-181 | the oEmbed source: a failed fetch ends the call, a non-200 or undecodable answer passes, then the rule (definition) |
| Extractor.AltResult | app.py:194-214 | the alternate fetch: the meta-tag value on status 200, otherwise `None` (definition) |
| Extractor.ExtractMediaUrl | app.py:14-217 | the extractor, step by step, equals the specification of the three-source order |
| Extractor.ScanPage | app.py:61-157 | the page source, step by step, equals the page specification: embedded JSON first, then the text patterns |
| Extractor.TryOembed | app.py:165-181 | the oEmbed source, step by step, equals its specification, failures and exceptions included |
| Extractor.TryAltFetch | app.py:194-214 | the alternate fetch, step by step, equals the meta-tag specification |
| Extractor.NoShortcodeNoFetch | app.py:37-38 | without a shortcode the result is `None`, whatever the fetches would answer |
| Extractor.ShortcodeOnlyGates | app.py:19-38 | two paths that both yield a shortcode give the same result |
| Extractor.PageFetchFailureEnds | app.py:59-217 | a failed page fetch ends the call with `None` |
| Extractor.TypedNodeDecides | app.py:78-112 | a typed node in the embedded JSON decides the call, even with `None` |
| Extractor.WalkTypeErrorEnds | app.py:84-217 | a `TypeError` in the walk ends the call with `None` |
| Extractor.WalkKeyErrorFallsThrough | app.py:84-122 | a `KeyError` or `AttributeError` in the walk hands the page over to the text patterns |
| Extractor.PageTextBeforeOembed | app.py:118-166 | when the JSON does not decide, a page-text match is returned before oEmbed is asked |
| Extractor.OembedBeforeAlt | app.py:166-194 | when the page does not decide, an oEmbed decision is returned before the alternate fetch |
| Extractor.OembedFetchFailureEnds | app.py:166-217 | when the page does not decide, a failed oEmbed fetch ends the call with `None`; the alternate fetch is not tried |
| Extractor.OembedStepRaise | app.py:168-181 | an exception in the oEmbed rule is not a `JSONDecodeError`, so the oEmbed step ends the call |
| Extractor.OembedRuleRaiseEnds | app.py:166-217 | when the page does not decide, an exception in the oEmbed rule ends the call with `None` |
| Extractor.MetaTagsLast | app.py:183-214 | otherwise the answer is the verbatim meta-tag value of the alternate fetch, or `None` |
| Download.CheckRequest | app.py:224-234 | the checks before the extractor runs (definition) |
| Download.Respond | app.py:236-245 | the answer for the extractor's result (definition) |
| Download.DownloadSpec | app.py:222-248 | the handler's answer (definition) |
| Download.IsInstagramUrl | app.py:233 | the lower-cased URL contains `instagram.com` or `instagr.am` (definition) |
| Download.AnyContains | app.py:244 | `any(ext in s for ext in exts)` on a str (definition) |
| Download.MediaTypeOf | app.py:244 | `video` when the lower-cased URL contains one of the five extensions, else `image` (definition) |
| Download.HandleDownload | app.py:223-248 | the handler, step by step, equals the specification of its checks and answers |
| Download.AnyContainsIff | app.py:244 | the `any` test holds exactly when one of the extensions is a substring |
| Download.MediaTypeIff | app.py:244 | `video` exactly when the lower-cased URL contains `.mp4`, `.mov`, `.avi`, `.mkv` or `.m4v` |
| Download.CheckUrlRequiredIff | app.py:226-230 | the checks give "URL is required" exactly for a dict whose `url` is missing or only whitespace |
| Download.GetUrl | app.py:227 | on a dict, `get('url', '')` is the stored value or the empty string |
| Download.CheckAccepted | app.py:226-234 | a request passes the checks only as a dict whose string `url` strips to a non-empty Instagram URL, and the stripped URL is what passes |
| Download.RejectedIsNotSuccess | app.py:226-234 | the checks never answer with a success |
| Download.RespondSuccess | app.py:236-245 | a success answers a non-empty string labelled by its media kind |
| Download.UrlRequiredIff | app.py:226-230 | the handler answers "URL is required" exactly for a missing or blank `url` |
| Download.RespondIsNotAValidationError | app.py:236-245 | whatever the extractor returns, the answer is not one of the two validation errors |
| Download.NotInstagramNeverExtracts | app.py:233-234 | a URL naming neither host is refused, independently of everything the extractor would consult |
| Download.NothingExtractedIsBadRequest | app.py:236-239 | a falsy extractor result gives the "Could not extract media" error |
| Download.SuccessMeans | app.py:229-245 | a success carries the extractor's non-empty string for the stripped Instagram URL, labelled as `MediaTypeIff` says |
| Download.ExtractedStringSucceeds | app.py:236-245 | conversely, an Instagram URL whose extraction is a non-empty string gets a success with that string and its media kind |
| Download.NonStringResultIsServerError | app.py:236-248 | a truthy non-string extractor result makes `.lower()` raise: 500 |
| Download.NonObjectBodyIsServerError | app.py:226-248 | a body that is not a JSON object is answered with 500 |
| Download.UpperCaseVideo | app.py:244 | the media-type test ignores case: `a.MP4` is a video |
| Download.AvifCountsAsVideo | app.py:244 | the media-type test matches substrings: `a.avif` is a video |

## Left out

- Flask routing, CORS, `render_template`, the `/` and `/health` routes and `app.run`
  (app.py:10-12, 219-221, 250-255): web plumbing.
- `requests.Session`, the header sets, timeouts and cookies (app.py:41-59, 160-166, 185-194):
  each fetch is a parameter, `get(url, profile)`, answering with a status and a body or a
  failure. Each profile is fetched at most once per call, so cookie effects between fetches
  are covered by the choice of `get`, but are not modelled as state.
- `urlparse` and `json.loads` / `response.json()`: their results are parameters (`pathOf`,
  `loads`). A decoding error is `None`.
- The three `{.*?}` blob-locating regular expressions (app.py:66-76): their result is a
  parameter (`locateBlob`).
- `print` logging (app.py:115, 216) and the text of the 500 message, which quotes the exception
  (app.py:248). A 500 is modelled as `ServerError` without text.
- Upper- and lower-casing (`re.IGNORECASE`, `str.lower()`) covers ASCII letters only. Unicode
  case folding is not modelled.
- JSON numbers are integers. Floats matter only through truthiness, which is modelled for
  integers.
- The order of a dict's items is insertion order, as `json.loads` produces it.
- static/js/script.js, test_app.py and config.py are not part of this model.
