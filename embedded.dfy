/**
 * The walk over the post data a page embeds as JSON (`window._sharedData` and similar):
 * `entry_data` maps page kinds to lists of posts; the first post's
 * `graphql.shortcode_media` is a typed media node.
 */
module EmbeddedData {
  import opened Wrappers
  import opened PyJson

  /** A video node: its `video_url` when that is truthy, otherwise its `display_url`. */
  function VideoRule(media: Json): Py<Json> {
    var video :- Get(media, "video_url", Null);
    if Truthy(video) then Ok(video) else Get(media, "display_url", Null)
  }

  /**
   * The decision on a `shortcode_media` node, by its `__typename`: a video, an image, or a
   * carousel whose first child is decided by the video rule or by its `display_url`. Any other
   * type, and a carousel without edges, leaves the walk going.
   */
  function TypedNode(media: Json): Py<Step> {
    var typename :- Get(media, "__typename", Null);
    if typename == Str("GraphVideo") then
      var v :- VideoRule(media);
      Ok(Found(v))
    else if typename == Str("GraphImage") then
      var v :- Get(media, "display_url", Null);
      Ok(Found(v))
    else if typename == Str("GraphSidecar") then SidecarRule(media)
    else Ok(Next)
  }

  /** A carousel: the first edge's `node`, when there are edges, decides. */
  function SidecarRule(media: Json): Py<Step> {
    var children :- Get(media, "edge_sidecar_to_children", Obj([]));
    var edges :- Get(children, "edges", Arr([]));
    if !Truthy(edges) then Ok(Next)
    else
      var edge :- First(edges);
      var child :- Item(edge, "node");
      var v :- ChildRule(child);
      Ok(Found(v))
  }

  /** The first child of a carousel: the video rule for a video, its `display_url` otherwise. */
  function ChildRule(child: Json): Py<Json> {
    var childType :- Get(child, "__typename", Null);
    if childType == Str("GraphVideo") then VideoRule(child) else Get(child, "display_url", Null)
  }

  /**
   * One value of `entry_data`: when it is a non-empty list whose first post has
   * `graphql.shortcode_media`, that node decides; otherwise the walk goes on.
   */
  function PostStep(value: Json): Py<Step> {
    if !(value.Arr? && |value.items| > 0) then Ok(Next)
    else
      var post := value.items[0];
      var hasGraphql :- In("graphql", post);
      if !hasGraphql then Ok(Next)
      else
        var graphql :- Item(post, "graphql");
        var hasMedia :- In("shortcode_media", graphql);
        if !hasMedia then Ok(Next)
        else
          var media :- Item(graphql, "shortcode_media");
          TypedNode(media)
  }

  /** The values of `entry_data`, in order, until one decides or raises. */
  function EntriesWalk(entries: seq<(string, Json)>): Py<Step> {
    if entries == [] then Ok(Next)
    else
      var step :- PostStep(entries[0].1);
      if step.Found? then Ok(step) else EntriesWalk(entries[1..])
  }

  /** The whole walk over a decoded page object. */
  function EmbeddedWalk(data: Json): Py<Step> {
    var hasEntries :- In("entry_data", data);
    if !hasEntries then Ok(Next)
    else
      var entryData :- Item(data, "entry_data");
      if !entryData.Obj? then Raise(AttributeError)  // only a dict has `.items()`
      else EntriesWalk(entryData.fields)
  }

  /** The `for key, value in data['entry_data'].items()` loop, returning at the first decision. */
  method WalkEmbedded(data: Json) returns (r: Py<Step>)
    ensures r == EmbeddedWalk(data)
  {
    var hasEntries :- In("entry_data", data);
    if !hasEntries {
      return Ok(Next);
    }
    var entryData :- Item(data, "entry_data");
    if !entryData.Obj? {
      return Raise(AttributeError);
    }
    var entries := entryData.fields;
    for i := 0 to |entries|
      invariant EntriesWalk(entries) == EntriesWalk(entries[i..])
    {
      assert entries[i..][1..] == entries[i + 1..];
      var step := PostStep(entries[i].1);
      if step.Raise? || step.value.Found? {
        return step;
      }
    }
    return Ok(Next);
  }

  /**
   * The first value of `entry_data` that does not say "go on" decides the walk, whatever
   * follows it; when every value says "go on", so does the walk.
   */
  lemma {:induction false} FirstDecisionWins(entries: seq<(string, Json)>, k: nat)
    requires k <= |entries|
    requires forall j :: 0 <= j < k ==> PostStep(entries[j].1) == Ok(Next)
    ensures k < |entries| && PostStep(entries[k].1) != Ok(Next) ==>
              EntriesWalk(entries) == PostStep(entries[k].1)
    ensures k == |entries| ==> EntriesWalk(entries) == Ok(Next)
  {
    if k > 0 {
      FirstDecisionWins(entries[1..], k - 1);
    }
  }

  /** A video node yields its truthy `video_url`, otherwise its `display_url` or `None`. */
  lemma VideoNode(fields: seq<(string, Json)>)
    requires Lookup(fields, "__typename") == Some(Str("GraphVideo"))
    ensures TypedNode(Obj(fields)) ==
      Ok(Found(if Truthy(GetOrNull(fields, "video_url")) then GetOrNull(fields, "video_url")
               else GetOrNull(fields, "display_url")))
  {
  }

  /** An image node yields its `display_url`, or `None`. */
  lemma ImageNode(fields: seq<(string, Json)>)
    requires Lookup(fields, "__typename") == Some(Str("GraphImage"))
    ensures TypedNode(Obj(fields)) == Ok(Found(GetOrNull(fields, "display_url")))
  {
  }

  /** A carousel is decided by the `node` of its first edge, with the video rule or `display_url`. */
  lemma SidecarNode(fields: seq<(string, Json)>, edges: seq<Json>, edge: seq<(string, Json)>,
                    child: seq<(string, Json)>, children: seq<(string, Json)>)
    requires Lookup(fields, "__typename") == Some(Str("GraphSidecar"))
    requires Lookup(fields, "edge_sidecar_to_children") == Some(Obj(children))
    requires Lookup(children, "edges") == Some(Arr(edges))
    requires edges != [] && edges[0] == Obj(edge)
    requires Lookup(edge, "node") == Some(Obj(child))
    ensures TypedNode(Obj(fields)) ==
      if Lookup(child, "__typename") == Some(Str("GraphVideo")) then TypedNode(Obj(child))
      else Ok(Found(GetOrNull(child, "display_url")))
  {
    assert Get(Obj(fields), "__typename", Null) == Ok(Str("GraphSidecar"));
    assert TypedNode(Obj(fields)) == SidecarRule(Obj(fields));
    ChildRuleObj(child);
    SidecarFirstChild(fields, edges, edge, child, children);
    if Lookup(child, "__typename") == Some(Str("GraphVideo")) {
      VideoNode(child);
    }
  }

  /** The carousel rule follows the first edge to its `node` and applies the child rule there. */
  lemma SidecarFirstChild(fields: seq<(string, Json)>, edges: seq<Json>, edge: seq<(string, Json)>,
                          child: seq<(string, Json)>, children: seq<(string, Json)>)
    requires Lookup(fields, "edge_sidecar_to_children") == Some(Obj(children))
    requires Lookup(children, "edges") == Some(Arr(edges))
    requires edges != [] && edges[0] == Obj(edge)
    requires Lookup(edge, "node") == Some(Obj(child))
    requires ChildRule(Obj(child)).Ok?
    ensures SidecarRule(Obj(fields)) == Ok(Found(ChildRule(Obj(child)).value))
  {
    assert Get(Obj(fields), "edge_sidecar_to_children", Obj([])) == Ok(Obj(children));
    assert Get(Obj(children), "edges", Arr([])) == Ok(Arr(edges));
    assert Truthy(Arr(edges)) && First(Arr(edges)) == Ok(Obj(edge));
    assert Item(Obj(edge), "node") == Ok(Obj(child));
  }

  /** On a dict the child rule cannot raise: the video rule for a video, else `display_url`. */
  lemma ChildRuleObj(child: seq<(string, Json)>)
    ensures ChildRule(Obj(child)) ==
      if Lookup(child, "__typename") == Some(Str("GraphVideo")) then VideoRule(Obj(child))
      else Ok(GetOrNull(child, "display_url"))
    ensures ChildRule(Obj(child)).Ok?
  {
  }

  /** A node of any other type does not stop the walk. */
  lemma UndecidedNode(fields: seq<(string, Json)>)
    requires var t := GetOrNull(fields, "__typename");
             t != Str("GraphVideo") && t != Str("GraphImage") && t != Str("GraphSidecar")
    ensures TypedNode(Obj(fields)) == Ok(Next)
  {
  }

  /**
   * A carousel whose `edges` is missing or falsy (no `edge_sidecar_to_children` at all
   * included) does not stop the walk either: the `if edges:` test fails.
   */
  lemma EmptyCarouselUndecided(fields: seq<(string, Json)>, children: seq<(string, Json)>)
    requires Lookup(fields, "__typename") == Some(Str("GraphSidecar"))
    requires Get(Obj(fields), "edge_sidecar_to_children", Obj([])) == Ok(Obj(children))
    requires Lookup(children, "edges").None? || !Truthy(Lookup(children, "edges").value)
    ensures TypedNode(Obj(fields)) == Ok(Next)
  {
    assert Get(Obj(fields), "__typename", Null) == Ok(Str("GraphSidecar"));
    assert TypedNode(Obj(fields)) == SidecarRule(Obj(fields));
    assert !Truthy(Get(Obj(children), "edges", Arr([])).value);
  }

  /** `edges[0]` is reached only when `edges` is truthy, so the carousel rule never raises `IndexError`. */
  lemma SidecarNoIndexError(media: Json)
    ensures SidecarRule(media) != Raise(IndexError)
  {
  }

  /** No step of the walk raises `IndexError`. */
  lemma PostStepNoIndexError(value: Json)
    ensures PostStep(value) != Raise(IndexError)
  {
    if value.Arr? && |value.items| > 0 {
      var post := value.items[0];
      if In("graphql", post) == Ok(true) && Item(post, "graphql").Ok? {
        var graphql := Item(post, "graphql").value;
        if In("shortcode_media", graphql) == Ok(true) && Item(graphql, "shortcode_media").Ok? {
          SidecarNoIndexError(Item(graphql, "shortcode_media").value);
        }
      }
    }
  }

  /**
   * The walk never raises `IndexError`. Of the exceptions the outer handler receives from
   * the walk, only `TypeError` can occur.
   */
  lemma {:induction false} EntriesNoIndexError(entries: seq<(string, Json)>)
    ensures EntriesWalk(entries) != Raise(IndexError)
  {
    if entries != [] {
      PostStepNoIndexError(entries[0].1);
      if PostStep(entries[0].1).Ok? && !PostStep(entries[0].1).value.Found? {
        EntriesNoIndexError(entries[1..]);
      }
    }
  }

  /** The whole walk never raises `IndexError`. */
  lemma WalkNeverIndexError(data: Json)
    ensures EmbeddedWalk(data) != Raise(IndexError)
  {
    if data.Obj? && HasKey(data.fields, "entry_data") {
      var entryData := Item(data, "entry_data").value;
      if entryData.Obj? {
        EntriesNoIndexError(entryData.fields);
      }
    }
  }

  /** A post that is a number, a boolean or `null`: `'graphql' in post` raises `TypeError`. */
  lemma ScalarPostRaises(post: Json)
    requires post.Num? || post.Bool? || post.Null?
    ensures PostStep(Arr([post])) == Raise(TypeError)
  {
  }

  /** Without `entry_data` the loop body never runs: nothing is raised and the walk passes. */
  lemma MissingEntryDataPasses(fields: seq<(string, Json)>)
    requires !HasKey(fields, "entry_data")
    ensures EmbeddedWalk(Obj(fields)) == Ok(Next)
  {
  }
}
