/** Decoded JSON values as Python sees them after `simdjson.load`, and the few Python
    operations the extractor applies to them, each with the exception it can raise. */
module PyValue {
  import opened Results

  /** A JSON document decoded into Python objects (numbers are kept as integers). */
  datatype Json =
    | Null
    | Bool(b: bool)
    | Num(n: int)
    | Str(s: string)
    | Arr(items: seq<Json>)
    | Obj(fields: map<string, Json>)

  /** `key` occurs as a contiguous piece of `s` (Python's `key in s` on strings). */
  predicate Occurs(key: string, s: string)
  {
    key <= s || (|s| > 0 && Occurs(key, s[1..]))
  }

  /** `v[key]` with a string key: only a dict holding `key` answers. */
  function Index(v: Json, key: string): Result<Json>
  {
    match v
    case Obj(f) => if key in f then Ok(f[key]) else Err(KeyError(key))
    case _ => Err(TypeError)
  }

  /** `key in v`: dict keys, list elements, substrings; other values are not iterable. */
  function Contains(v: Json, key: string): Result<bool>
  {
    match v
    case Obj(f) => Ok(key in f)
    case Arr(items) => Ok(Str(key) in items)
    case Str(s) => Ok(Occurs(key, s))
    case _ => Err(TypeError)
  }

  /** `len(v)`. */
  function Len(v: Json): Result<nat>
  {
    match v
    case Obj(f) => Ok(|f|)
    case Arr(items) => Ok(|items|)
    case Str(s) => Ok(|s|)
    case _ => Err(TypeError)
  }

  predicate HasSuffix(s: string, suffix: string)
  {
    |suffix| <= |s| && s[|s| - |suffix|..] == suffix
  }

  /** `v.endswith(suffixes)` with a tuple of suffixes. */
  function EndsWithAny(v: Json, suffixes: seq<string>): Result<bool>
  {
    match v
    case Str(s) => Ok(exists k :: 0 <= k < |suffixes| && HasSuffix(s, suffixes[k]))
    case _ => Err(AttributeError)
  }

  /** The value reached by following `path` through nested dicts, if every key is there. */
  function At(v: Json, path: seq<string>): Option<Json>
  {
    if path == [] then Some(v)
    else match v
      case Obj(f) => if path[0] in f then At(f[path[0]], path[1..]) else None
      case _ => None
  }

  /** `v` is a dict that does not hold `key`. */
  predicate ObjWithout(v: Json, key: string)
  {
    v.Obj? && key !in v.fields
  }
}
