/**
  The JSON values that flow through the annotation tool, Python's view of
  them as dictionary keys, and the two library calls the tool makes on them
  (`json.loads` and `json.dumps`), which stay abstract: they are a `Codec`
  value, and the one fact the tool relies on is stated as `ValidCodec`.
 */
module Json {
  import opened Text

  datatype Option<+T> = None | Some(value: T)

  /** A decoded JSON value (numbers are integers; see README). */
  datatype Value =
    | Null
    | Bool(b: bool)
    | Num(n: int)
    | Str(s: string)
    | Arr(items: seq<Value>)
    | Obj(fields: Record)

  /** One JSON object, as a Python dict from field name to value. */
  type Record = map<string, Value>

  /** Python's truth value of a decoded JSON value (`if quality:`). */
  predicate Truthy(v: Value) {
    match v
    case Null => false
    case Bool(b) => b
    case Num(n) => n != 0
    case Str(s) => s != ""
    case Arr(items) => items != []
    case Obj(fields) => fields != map[]
  }

  /** The falsy values are `None`, `False`, zero and the empty string, list and dict. */
  lemma FalsyValues(v: Value)
    ensures !Truthy(v) <==> v in {Null, Bool(false), Num(0), Str(""), Arr([]), Obj(map[])}
  {
  }

  /** `record.get(field, default)`. */
  function Get(record: Record, field: string, default: Value): (v: Value)
    ensures field in record ==> v == record[field]
    ensures field !in record ==> v == default
  {
    if field in record then record[field] else default
  }

  /**
    A dictionary key as Python sees it: values that compare equal share a
    key (`True == 1`, `False == 0`), and `None` is a key like any other.
   */
  datatype Key = NoneKey | IntKey(i: int) | StrKey(s: string)

  /** The key a value stands for in a dict, or None for lists and dicts, which are unhashable. */
  function HashKey(v: Value): (k: Option<Key>)
    ensures k.Some? <==> Hashable(v)
  {
    match v
    case Null => Some(NoneKey)
    case Bool(b) => Some(IntKey(if b then 1 else 0))
    case Num(n) => Some(IntKey(n))
    case Str(s) => Some(StrKey(s))
    case Arr(_) => None
    case Obj(_) => None
  }

  predicate Hashable(v: Value) {
    !v.Arr? && !v.Obj?
  }

  /** Python's `==` between two hashable JSON values. */
  predicate PyEquals(v: Value, w: Value)
    requires Hashable(v) && Hashable(w)
  {
    match (v, w)
    case (Null, Null) => true
    case (Str(a), Str(b)) => a == b
    case (Bool(a), Bool(b)) => a == b
    case (Num(a), Num(b)) => a == b
    case (Bool(a), Num(b)) => b == (if a then 1 else 0)
    case (Num(a), Bool(b)) => a == (if b then 1 else 0)
    case _ => false
  }

  /** Two hashable values land on the same dict key exactly when Python finds them equal. */
  lemma HashKeyMatchesEquality(v: Value, w: Value)
    requires Hashable(v) && Hashable(w)
    ensures HashKey(v).Some? && HashKey(w).Some?
    ensures HashKey(v) == HashKey(w) <==> PyEquals(v, w)
  {
  }

  const UrlIdField: string := "url_id"

  /** `record.get('url_id')`: the identifier, or null when the field is absent. */
  function UrlId(record: Record): Value {
    Get(record, UrlIdField, Null)
  }

  /** The ledger key a record is filed under. */
  function KeyOf(record: Record): (k: Option<Key>)
    ensures UrlIdField !in record ==> k == Some(NoneKey)
    ensures k.Some? <==> (UrlIdField !in record || Hashable(record[UrlIdField]))
    ensures UrlIdField in record && Hashable(record[UrlIdField]) ==> k == HashKey(record[UrlIdField])
  {
    HashKey(UrlId(record))
  }

  /** Stand-ins for `json.loads` (None when it raises) and `json.dumps(..., ensure_ascii=False)`. */
  datatype Codec = Codec(loads: string -> Option<Value>, dumps: Record -> string)

  /** What `json.dumps` of an object produces fits on one line and has no whitespace at its ends. */
  predicate IsEncodedLine(s: string) {
    s != "" && '\n' !in s && !IsSpace(s[0]) && !IsSpace(s[|s| - 1])
  }

  /**
    The facts about the JSON library that the tool depends on: dumping an
    object gives one line without surrounding whitespace, and loading that
    line gives the object back.
   */
  ghost predicate ValidCodec(c: Codec) {
    forall r: Record :: IsEncodedLine(c.dumps(r)) && c.loads(c.dumps(r)) == Some(Obj(r))
  }
}
