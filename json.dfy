/**
 * JSON values as json.loads delivers them to the scripts, and the few Python
 * operations the scripts apply to them (truthiness, `len`, indexing, `dict.get`,
 * ordering against an int). JSON `null` is Python's `None`, so `JNull` also
 * stands for a variable holding `None`. Numbers are integers only.
 * Where Python would raise (TypeError, KeyError, IndexError, AttributeError)
 * an accessor returns `None`.
 */
module JsonValues {
  import opened Wrappers

  datatype Json =
    | JNull
    | JBool(b: bool)
    | JNum(n: int)
    | JStr(s: string)
    | JArr(items: seq<Json>)
    | JObj(fields: map<string, Json>)

  /** Python's `bool(v)`. */
  predicate Truthy(v: Json) {
    match v
    case JNull => false
    case JBool(b) => b
    case JNum(n) => n != 0
    case JStr(s) => s != ""
    case JArr(items) => items != []
    case JObj(fields) => fields != map[]
  }

  /** Python's `len(v)`; `None` where `len` raises TypeError. */
  function Len(v: Json): (r: Option<nat>)
    ensures r.Some? <==> v.JStr? || v.JArr? || v.JObj?
    ensures r.Some? ==> (r.value > 0 <==> Truthy(v))
  {
    match v
    case JStr(s) => Some(|s|)
    case JArr(items) => Some(|items|)
    case JObj(fields) => Some(|fields|)
    case _ => None
  }

  /** Python's `v[0]`; `None` where it raises (empty sequence, dict without key 0, scalar). */
  function First(v: Json): (r: Option<Json>)
    ensures v.JArr? && |v.items| > 0 ==> r == Some(v.items[0])
    ensures r.Some? ==> (v.JArr? || v.JStr?) && Truthy(v)
  {
    match v
    case JArr(items) => if |items| > 0 then Some(items[0]) else None
    case JStr(s) => if |s| > 0 then Some(JStr([s[0]])) else None
    case _ => None
  }

  /** Python's `v[-1]`. */
  function Last(v: Json): (r: Option<Json>)
    ensures v.JArr? && |v.items| > 0 ==> r == Some(v.items[|v.items| - 1])
    ensures r.Some? ==> (v.JArr? || v.JStr?) && Truthy(v)
  {
    match v
    case JArr(items) => if |items| > 0 then Some(items[|items| - 1]) else None
    case JStr(s) => if |s| > 0 then Some(JStr([s[|s| - 1]])) else None
    case _ => None
  }

  /** Python's `v[key]` for a string key; `None` where it raises (KeyError on a dict
      without the key, TypeError on anything that is not a dict). */
  function Index(v: Json, key: string): Option<Json>
  {
    if v.JObj? && key in v.fields then Some(v.fields[key]) else None
  }

  /** Python's `v.get(key, default)`; `None` where `v` has no `get` (AttributeError). */
  function Get(v: Json, key: string, default: Json): Option<Json>
  {
    match v
    case JObj(fields) => Some(if key in fields then fields[key] else default)
    case _ => None
  }

  /** The integer Python uses when a JSON scalar takes part in `<` or `>`; `bool` is an int subtype. */
  function AsInt(v: Json): Option<int> {
    match v
    case JNum(n) => Some(n)
    case JBool(b) => Some(if b then 1 else 0)
    case _ => None
  }

  /** Python's `v > k`; `None` where the comparison raises TypeError. */
  function GreaterThan(v: Json, k: int): (r: Option<bool>)
    ensures r.Some? <==> v.JNum? || v.JBool?
    ensures v.JNum? ==> r == Some(v.n > k)
  {
    match AsInt(v)
    case Some(n) => Some(n > k)
    case None => None
  }

  /** Python's `v < k`; `None` where the comparison raises TypeError. */
  function LessThan(v: Json, k: int): (r: Option<bool>)
    ensures r.Some? <==> v.JNum? || v.JBool?
    ensures v.JNum? ==> r == Some(v.n < k)
  {
    match AsInt(v)
    case Some(n) => Some(n < k)
    case None => None
  }

  /** Python's `v and len(v) > 0`, as a truth value; `None` where `len` raises. */
  function NonEmpty(v: Json): (r: Option<bool>)
    ensures r == Some(true) <==> (v.JStr? && v.s != []) || (v.JArr? && v.items != []) || (v.JObj? && v.fields != map[])
    ensures r.None? <==> Truthy(v) && (v.JNum? || v.JBool?)
  {
    if !Truthy(v) then Some(false)
    else match Len(v)
      case None => None
      case Some(n) => Some(n > 0)
  }
}
