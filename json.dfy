/** JSON values as Python holds them after `json.loads` (dicts, lists,
    strings, ints, booleans, `None`), with the three Python operations the
    rule-tree validator applies to them: subscripting by a string key, the
    `in` test, and iteration by a `for` loop. Each raises exactly where Python
    raises. */
module Json {
  import opened Python

  /** A dict is kept as its list of (key, value) members in insertion order;
      `KeyIndex` reads the first member with a key. */
  datatype JValue =
    | JNull
    | JBool(b: bool)
    | JNum(n: int)
    | JStr(s: string)
    | JArr(elems: seq<JValue>)
    | JObj(members: seq<(string, JValue)>)

  /** The index of the first member with key `key`. */
  function KeyIndex(ms: seq<(string, JValue)>, key: string): (r: Option<nat>)
    ensures r.Some? ==> r.value < |ms| && ms[r.value].0 == key
    ensures r.Some? ==> forall j :: 0 <= j < r.value ==> ms[j].0 != key
    ensures r.None? <==> forall j :: 0 <= j < |ms| ==> ms[j].0 != key
  {
    if ms == [] then None
    else if ms[0].0 == key then Some(0)
    else match KeyIndex(ms[1..], key)
      case None => None
      case Some(k) => Some(k + 1)
  }

  /** `d` is a dict with key `key`. */
  predicate HasKey(d: JValue, key: string)
  {
    d.JObj? && KeyIndex(d.members, key).Some?
  }

  /** Python's name for the type of a value, as it appears in a TypeError. */
  function TypeName(v: JValue): string
  {
    match v
    case JNull => "NoneType"
    case JBool(_) => "bool"
    case JNum(_) => "int"
    case JStr(_) => "str"
    case JArr(_) => "list"
    case JObj(_) => "dict"
  }

  /** `d[key]` with a string key: a dict yields its value or raises KeyError;
      every other value raises TypeError. */
  function Subscript(d: JValue, key: string): (r: Result<JValue>)
    ensures r.Ok? <==> HasKey(d, key)
    ensures r.Ok? ==> exists i :: 0 <= i < |d.members| && d.members[i] == (key, r.value)
    ensures d.JObj? && r.Raised? ==> r.error == KeyError(key)
    ensures !d.JObj? ==> r.Raised? && r.error.TypeError?
  {
    match d
    case JObj(ms) =>
      (match KeyIndex(ms, key)
       case None => Raised(KeyError(key))
       case Some(i) => Ok(ms[i].1))
    case JArr(_) => Raised(TypeError("list indices must be integers or slices, not str"))
    case JStr(_) => Raised(TypeError("string indices must be integers, not 'str'"))
    case _ => Raised(TypeError("'" + TypeName(d) + "' object is not subscriptable"))
  }

  /** `key in v` for a string `key`: key membership in a dict, element
      equality in a list, substring in a string; other values raise. */
  function Contains(v: JValue, key: string): (r: Result<bool>)
    ensures r.Raised? <==> (v.JNull? || v.JBool? || v.JNum?)
    ensures v.JObj? ==> r == Ok(HasKey(v, key))
  {
    match v
    case JObj(ms) => Ok(KeyIndex(ms, key).Some?)
    case JArr(es) => Ok(JStr(key) in es)
    case JStr(s) => Ok(In(key, s))
    case _ => Raised(TypeError("argument of type '" + TypeName(v) + "' is not iterable"))
  }

  /** The values `for x in v` visits: a list's elements, a dict's keys, a
      string's one-character strings. Other values raise. Only a list yields
      anything other than strings. */
  function Iterate(v: JValue): (r: Result<seq<JValue>>)
    ensures r.Ok? <==> (v.JArr? || v.JObj? || v.JStr?)
    ensures r.Ok? && v.JArr? ==> r.value == v.elems
    ensures r.Ok? && !v.JArr? ==> forall x :: x in r.value ==> x.JStr?
    ensures v.JObj? ==> |r.value| == |v.members|
    ensures v.JStr? ==> |r.value| == |v.s|
    ensures v.JObj? ==> forall i :: 0 <= i < |v.members| ==> r.value[i] == JStr(v.members[i].0)
    ensures v.JStr? ==> forall i :: 0 <= i < |v.s| ==> r.value[i] == JStr([v.s[i]])
  {
    match v
    case JArr(es) => Ok(es)
    case JObj(ms) => Ok(seq(|ms|, i requires 0 <= i < |ms| => JStr(ms[i].0)))
    case JStr(s) => Ok(seq(|s|, i requires 0 <= i < |s| => JStr([s[i]])))
    case _ => Raised(TypeError("'" + TypeName(v) + "' object is not iterable"))
  }
}
