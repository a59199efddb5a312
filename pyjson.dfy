/**
 * The Python objects that `json.loads` produces, and the few Python operations the extractor
 * applies to them (`in`, `[key]`, `.get`, `[0]`, truthiness), each with the exception Python
 * raises when the object has the wrong type.
 */
module PyJson {
  import opened Wrappers
  import opened Strings

  /**
   * A decoded JSON value: `None`, `bool`, a number, `str`, `list`, `dict` (its items in
   * insertion order; keys produced by `json.loads` are distinct).
   */
  datatype Json =
    | Null
    | Bool(b: bool)
    | Num(n: int)
    | Str(s: string)
    | Arr(items: seq<Json>)
    | Obj(fields: seq<(string, Json)>)

  /** The exceptions the operations below can raise. */
  datatype Exc = KeyError | IndexError | TypeError | AttributeError

  /** The outcome of a Python expression: a value, or a raised exception. */
  datatype Py<+T> = Ok(value: T) | Raise(exc: Exc) {

    predicate IsFailure() {
      Raise?
    }

    function PropagateFailure<U>(): Py<U>
      requires Raise?
    {
      Raise(exc)
    }

    function Extract(): T
      requires Ok?
    {
      value
    }
  }

  /**
   * What one guarded block of the extractor decides: return this value (which may be Python's
   * `None`), or go on with the next step.
   */
  datatype Step = Found(value: Json) | Next

  /** `key` is one of the dict's keys. */
  predicate HasKey(fields: seq<(string, Json)>, key: string) {
    exists i :: 0 <= i < |fields| && fields[i].0 == key
  }

  /** The value stored under `key`, if any. */
  function Lookup(fields: seq<(string, Json)>, key: string): (r: Option<Json>)
    ensures r.Some? <==> HasKey(fields, key)
    ensures r.Some? ==> (key, r.value) in fields
  {
    if fields == [] then None
    else if fields[0].0 == key then Some(fields[0].1)
    else Lookup(fields[1..], key)
  }

  /** `d.get(key)` on a dict: the stored value, or `None`. */
  function GetOrNull(fields: seq<(string, Json)>, key: string): Json {
    match Lookup(fields, key)
    case Some(x) => x
    case None => Null
  }

  /** Python's `bool(v)`. */
  predicate Truthy(v: Json) {
    match v
    case Null => false
    case Bool(b) => b
    case Num(n) => n != 0
    case Str(s) => s != ""
    case Arr(items) => items != []
    case Obj(fields) => fields != []
  }

  /**
   * `key in v` for a string `key`: a key test on a dict, an element test on a list, a
   * substring test on a str; `TypeError` for anything else.
   */
  function In(key: string, v: Json): Py<bool> {
    match v
    case Obj(fields) => Ok(HasKey(fields, key))
    case Arr(items) => Ok(Str(key) in items)
    case Str(s) => Ok(Contains(s, key))
    case _ => Raise(TypeError)
  }

  /** `v[key]` for a string `key`: only a dict can be indexed by a string. */
  function Item(v: Json, key: string): Py<Json> {
    match v
    case Obj(fields) =>
      (match Lookup(fields, key)
       case Some(x) => Ok(x)
       case None => Raise(KeyError))
    case _ => Raise(TypeError)
  }

  /** `v.get(key, default)`: only a dict has a `get` method. */
  function Get(v: Json, key: string, default: Json): Py<Json> {
    match v
    case Obj(fields) =>
      (match Lookup(fields, key)
       case Some(x) => Ok(x)
       case None => Ok(default))
    case _ => Raise(AttributeError)
  }

  /** `v[0]`: the first element of a list, the first character of a str. */
  function First(v: Json): Py<Json> {
    match v
    case Arr(items) => if items == [] then Raise(IndexError) else Ok(items[0])
    case Str(s) => if s == "" then Raise(IndexError) else Ok(Str(s[..1]))
    case Obj(_) => Raise(KeyError)
    case _ => Raise(TypeError)
  }
}
