/** Python values as the rest of the model sees them: the JSON-like payloads that
    the pipeline passes around as dictionaries, with Python's truthiness and the
    slicing and `dict.get` conventions the source relies on. */
module Values {

  datatype Option<+T> = None | Some(value: T)

  /** The outcome of a call that either returns a value or raises. */
  datatype Result<+T> = Ok(value: T) | Err(error: string)

  /** A Python object of the kinds that occur in the pipeline's dictionaries
      (JSON values plus `None`). Floats are kept as reals: nothing in the model
      computes with them. */
  datatype Value =
    | Null
    | Bool(b: bool)
    | Int(i: int)
    | Real(r: real)
    | Str(s: string)
    | List(xs: seq<Value>)
    | Object(fields: map<string, Value>)

  /** A Python `dict` with string keys. */
  type Record = map<string, Value>

  /** Python's `bool(v)`: `None`, `False`, zero and empty containers are falsy. */
  predicate Truthy(v: Value)
  {
    match v
    case Null => false
    case Bool(b) => b
    case Int(i) => i != 0
    case Real(r) => r != 0.0
    case Str(s) => s != ""
    case List(xs) => xs != []
    case Object(m) => m != map[]
  }

  /** `d.get(key, default)`. */
  function Get(d: Record, key: string, default: Value): Value
  {
    if key in d then d[key] else default
  }

  function Min(a: int, b: int): int { if a <= b then a else b }

  /** A list of strings as a JSON list. */
  function StrValues(xs: seq<string>): seq<Value>
  {
    seq(|xs|, i requires 0 <= i < |xs| => Str(xs[i]))
  }

  /** Python's `s[:n]`, including a negative `n`, which counts from the end. */
  function Prefix<T>(s: seq<T>, n: int): (r: seq<T>)
    ensures |r| <= |s| && r == s[..|r|]
    ensures 0 <= n ==> |r| == Min(n, |s|)
    ensures n < 0 ==> |r| == if |s| + n < 0 then 0 else |s| + n
  {
    if 0 <= n then (if n <= |s| then s[..n] else s)
    else if 0 <= |s| + n then s[..|s| + n]
    else []
  }

  /** The elements of `s` that satisfy `p`, in order. */
  function Filter<T>(p: T -> bool, s: seq<T>): (r: seq<T>)
    ensures |r| <= |s|
    ensures forall i :: 0 <= i < |r| ==> p(r[i]) && r[i] in s
  {
    if s == [] then [] else (if p(s[0]) then [s[0]] else []) + Filter(p, s[1..])
  }

  lemma {:induction false} FilterAppend<T>(p: T -> bool, s: seq<T>, x: T)
    ensures Filter(p, s + [x]) == Filter(p, s) + (if p(x) then [x] else [])
  {
    if s == [] {
      assert s + [x] == [x];
    } else {
      assert (s + [x])[1..] == s[1..] + [x];
      FilterAppend(p, s[1..], x);
    }
  }

  /** Python's `filter(None, xs)` on strings: drops the empty ones. */
  function NonEmpty(xs: seq<string>): (r: seq<string>)
    ensures forall i :: 0 <= i < |r| ==> r[i] != "" && r[i] in xs
    ensures forall x :: x in xs && x != "" ==> x in r
  {
    if xs == [] then [] else (if xs[0] != "" then [xs[0]] else []) + NonEmpty(xs[1..])
  }

  /** What a `for x in v` loop walks over when its body needs every element
      to be a dict: a list element by element; an empty string or dict not at
      all. A non-empty string or dict yields strings, on which the loop body
      raises; any other value is not iterable. */
  function Iterated(v: Value): Result<seq<Value>>
  {
    match v
    case List(xs) => Ok(xs)
    case Str(s) => if s == "" then Ok([]) else Err("AttributeError: 'str' object has no attribute 'get'")
    case Object(m) => if m == map[] then Ok([]) else Err("AttributeError: 'str' object has no attribute 'get'")
    case _ => Err("TypeError: object is not iterable")
  }

  predicate AllObjects(xs: seq<Value>)
  {
    forall i :: 0 <= i < |xs| ==> xs[i].Object?
  }

  /** `{k: v for k, v in m.items() if k not in drop}`: every other key with
      its value. */
  function Without(m: Record, drop: set<string>): (r: Record)
    ensures r.Keys == m.Keys - drop
    ensures forall k :: k in r ==> r[k] == m[k]
  {
    map k | k in m && k !in drop :: m[k]
  }
}
