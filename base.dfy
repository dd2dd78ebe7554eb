/** Shared vocabulary of the model: identifiers, instants, nullable values,
    the exceptions the backend raises, and JSON values exchanged with the
    external services. */
module Base {

  /** Primary keys are UUIDs; the model keeps their canonical text form, so
      Python's `str(obj.id)` is the identity on them. */
  type Uuid = string

  /** An instant of time (for instance microseconds since the epoch). */
  type Instant = int

  datatype Option<+T> = None | Some(value: T) {
    function GetOr(default: T): T {
      match this
      case Some(v) => v
      case None => default
    }
  }

  /** The exceptions raised by the modelled code, one constructor per class. */
  datatype Error =
    | RuntimeError(msg: string)
    | ValueError(msg: string)
    | KeyError(key: string)
    | AttributeError(msg: string)
    | TypeError(msg: string)
    | DoesNotExist(model: string)
    | IntegrityError(msg: string)
    | ValidationError(field: string, msg: string)
      /** An exception of the HTTP client library, propagated unchanged. */
    | RequestException(msg: string)
      /** A failure opening a local file (Python's OSError family). */
    | OSError(msg: string)

  datatype Result<+T> = Ok(value: T) | Err(error: Error)

  /** Python truthiness of a nullable string or file field: None and "" are false. */
  predicate Truthy(s: Option<string>) {
    s.Some? && s.value != ""
  }

  /** JSON values as produced by `json.loads` and consumed by `json.dumps`. */
  datatype Json =
    | JNull
    | JBool(b: bool)
    | JNum(n: real)
    | JStr(s: string)
    | JArr(items: seq<Json>)
    | JObj(fields: seq<(string, Json)>)

  /** Python truthiness of a decoded JSON value; a missing key (`dict.get`
      returning None) is falsy too. */
  predicate JsonTruthy(v: Option<Json>) {
    match v
    case None => false
    case Some(JNull) => false
    case Some(JBool(b)) => b
    case Some(JNum(n)) => n != 0.0
    case Some(JStr(s)) => s != ""
    case Some(JArr(items)) => items != []
    case Some(JObj(fields)) => fields != []
  }

  /** `dict.get(key)` on a JSON object: the value of the last binding of `key`,
      as a Python dict built from the pairs in order would hold. */
  function Lookup(fields: seq<(string, Json)>, key: string): (r: Option<Json>)
    ensures r.Some? <==> exists i :: 0 <= i < |fields| && fields[i].0 == key
  {
    if fields == [] then None
    else
      var last := fields[|fields| - 1];
      if last.0 == key then Some(last.1) else Lookup(fields[..|fields| - 1], key)
  }

  /** The keys of a JSON object in insertion order, each once. */
  function Keys(fields: seq<(string, Json)>): (r: seq<string>)
    ensures forall k :: k in r <==> exists i :: 0 <= i < |fields| && fields[i].0 == k
  {
    if fields == [] then []
    else
      var rest := Keys(fields[1..]);
      var k := fields[0].0;
      assert forall j :: 0 < j < |fields| ==> fields[j] == fields[1..][j - 1];
      if k in rest then [k] + Remove(rest, k) else [k] + rest
  }

  /** `s` without the occurrences of `x`. */
  function Remove(s: seq<string>, x: string): (r: seq<string>)
    ensures forall k :: k in r <==> k in s && k != x
  {
    if s == [] then []
    else if s[0] == x then Remove(s[1..], x)
    else [s[0]] + Remove(s[1..], x)
  }

  /** The one-character strings of `s`, as iterating a Python string yields them. */
  function Chars(s: string): (r: seq<Json>)
    ensures |r| == |s| && forall i :: 0 <= i < |s| ==> r[i] == JStr([s[i]])
  {
    if s == [] then [] else [JStr([s[0]])] + Chars(s[1..])
  }

  function JsonStrs(keys: seq<string>): (r: seq<Json>)
    ensures |r| == |keys| && forall i :: 0 <= i < |keys| ==> r[i] == JStr(keys[i])
  {
    if keys == [] then [] else [JStr(keys[0])] + JsonStrs(keys[1..])
  }

  /** `for x in v` over a decoded JSON value: a list yields its items, a dict
      its keys, a string its characters; anything else is not iterable. */
  function Iterate(v: Json): (r: Result<seq<Json>>)
    ensures v.JArr? ==> r == Ok(v.items)
    ensures r.Err? <==> v.JNull? || v.JBool? || v.JNum?
  {
    match v
    case JArr(items) => Ok(items)
    case JObj(fields) => Ok(JsonStrs(Keys(fields)))
    case JStr(s) => Ok(Chars(s))
    case _ => Err(TypeError("object is not iterable"))
  }

  /** `d.get(key, default)`. */
  function GetOrDefault(fields: seq<(string, Json)>, key: string, default: Json): (r: Json)
    ensures Lookup(fields, key).None? ==> r == default
    ensures Lookup(fields, key).Some? ==> r == Lookup(fields, key).value
  {
    match Lookup(fields, key)
    case Some(v) => v
    case None => default
  }

  /** `except RequestException as e: raise RuntimeError(f"{prefix}{e}")`:
      transport failures are re-raised with a fixed prefix; other exceptions
      and successful results pass through unchanged. */
  function Reraised<T>(prefix: string, r: Result<T>): (w: Result<T>)
    ensures r.Ok? ==> w == r
    ensures r.Err? && !r.error.RequestException? ==> w == r
    ensures r.Err? && r.error.RequestException? ==> w == Err(RuntimeError(prefix + r.error.msg))
  {
    if r.Err? && r.error.RequestException? then Err(RuntimeError(prefix + r.error.msg)) else r
  }
}
