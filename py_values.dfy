/** Decoded JSON values and the handful of Python built-in operations that the
    fetcher applies to them: `dict.get`, indexing with `[0]`, truthiness and
    slicing with `[:stop]`. */
module PyValues {

  datatype Option<+T> = None | Some(value: T)

  /** Either a value or the exception Python raised; failure-compatible, so `:-` propagates it. */
  datatype Result<+T, +E> = Ok(value: T) | Err(error: E) {
    predicate IsFailure() { Err? }

    function PropagateFailure<U>(): Result<U, E>
      requires Err?
    {
      Err(error)
    }

    function Extract(): T
      requires Ok?
    {
      value
    }
  }

  /** The built-in exceptions the modelled expressions can raise. */
  datatype PyError = AttributeError | IndexError | KeyError | TypeError

  /** A value produced by `response.json()`. JSON `null` is Python's `None`;
      numbers are kept as integers. */
  datatype Json =
    | JNull
    | JBool(b: bool)
    | JNum(n: int)
    | JStr(s: string)
    | JArr(items: seq<Json>)
    | JObj(fields: map<string, Json>)

  /** The `{}` the source passes as a default to `get`. */
  const EmptyObject: Json := JObj(map[])

  function Min(a: int, b: int): int { if a <= b then a else b }

  function Max(a: int, b: int): int { if a >= b then a else b }

  /** `obj.get(key, default)`: only a dict has a `get` method; a present key
      yields its value even when that value is `None`. */
  function Get(obj: Json, key: string, default: Json): (r: Result<Json, PyError>)
  {
    match obj
    case JObj(m) => Ok(if key in m then m[key] else default)
    case _ => Err(AttributeError)
  }

  /** `v[0]`: the first element of a list, the first character of a string;
      a dict is looked up with the integer key 0, which a JSON object never has. */
  function First(v: Json): (r: Result<Json, PyError>)
    ensures v.JArr? ==> (r.Ok? <==> v.items != []) && (r.Ok? ==> r.value == v.items[0])
    ensures v.JArr? && v.items == [] ==> r == Err(IndexError)
    ensures !v.JArr? && !v.JStr? ==> r.Err?
  {
    match v
    case JArr(xs) => if xs != [] then Ok(xs[0]) else Err(IndexError)
    case JStr(s) => if s != "" then Ok(JStr([s[0]])) else Err(IndexError)
    case JObj(_) => Err(KeyError)
    case _ => Err(TypeError)
  }

  /** Python's `bool(v)`: `None`, `False`, `0` and empty strings, lists and dicts are false. */
  predicate Truthy(v: Json)
    ensures Truthy(v) <==> v !in {JNull, JBool(false), JNum(0), JStr(""), JArr([]), EmptyObject}
  {
    match v
    case JNull => false
    case JBool(b) => b
    case JNum(n) => n != 0
    case JStr(s) => s != ""
    case JArr(xs) => xs != []
    case JObj(m) => m != map[]
  }

  /** `s[:stop]`; a negative stop counts from the end. */
  function SliceTo<T>(s: seq<T>, stop: int): (r: seq<T>)
    ensures |r| == if stop >= 0 then Min(stop, |s|) else Max(0, |s| + stop)
    ensures r == s[..|r|]
  {
    if stop >= 0 then
      if stop <= |s| then s[..stop] else s
    else if |s| + stop >= 0 then s[..|s| + stop]
    else []
  }

  /** The explicit form of a chain of `.get(key, {})` calls ending in `.get(leaf)`:
      the value at `path`, `None` as soon as a key is absent, and AttributeError
      when a value that has to be searched is present but is not an object. */
  function Navigate(j: Json, path: seq<string>): (r: Result<Option<Json>, PyError>)
    ensures r.Err? ==> r.error == AttributeError
    decreases path
  {
    if path == [] then Ok(Some(j))
    else
      match j
      case JObj(m) => if path[0] in m then Navigate(m[path[0]], path[1..]) else Ok(None)
      case _ => Err(AttributeError)
  }

  /** Looking up `p + q` is looking up `p` and then `q` in what was found;
      in particular an absent object makes every path below it absent. */
  lemma {:induction false} NavigateAppend(j: Json, p: seq<string>, q: seq<string>)
    ensures Navigate(j, p + q) ==
      match Navigate(j, p)
      case Err(e) => Err(e)
      case Ok(None) => Ok(None)
      case Ok(Some(v)) => Navigate(v, q)
    decreases p
  {
    if p == [] {
      assert p + q == q;
    } else {
      assert (p + q)[0] == p[0];
      assert (p + q)[1..] == p[1..] + q;
      match j
      case JObj(m) =>
        if p[0] in m {
          NavigateAppend(m[p[0]], p[1..], q);
        }
      case _ =>
    }
  }
}
