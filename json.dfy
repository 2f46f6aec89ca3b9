/** The JavaScript values a parsed JSON request body can hold, and the three things the
    server does with them besides reading strings: truthiness (`x || ''`), `String(x)` and
    the `length` property. */
module Json {
  import opened Wrappers
  import opened Text

  /** A value produced by `JSON.parse`. A number carries the text `String(n)` gives for it. */
  datatype Value =
    | Null
    | Bool(b: bool)
    | Num(text: string)
    | Str(s: string)
    | Arr(items: seq<Value>)
    | Obj(fields: map<string, Value>)

  /** A parsed request body; a key that is not present reads as `undefined`. */
  type Object = map<string, Value>

  /** JavaScript truthiness of `o[key]`: `undefined`, `null`, `false`, `0`, `NaN` and `''` are
      falsy (`-0` renders as `"0"`). */
  predicate Truthy(o: Object, key: string) {
    key in o &&
    match o[key]
    case Null => false
    case Bool(b) => b
    case Num(t) => t != "0" && t != "NaN"
    case Str(s) => s != ""
    case _ => true
  }

  /** `String(v)` throws a TypeError: a parsed object with its own `toString` key hides the
      inherited method behind a value that is not callable, and `valueOf` then gives back the
      object itself, not a primitive; an array throws when one of its elements does. */
  predicate ToStringThrows(v: Value)
    decreases v
  {
    match v
    case Obj(fields) => "toString" in fields
    case Arr(items) => exists i :: 0 <= i < |items| && ToStringThrows(items[i])
    case _ => false
  }

  /** `String(v)`, `None` where it throws: arrays convert by joining their elements' strings
      with commas, `null` elements giving the empty string; other objects give
      `[object Object]`. */
  function ToJsString(v: Value): (r: Option<string>)
    ensures r.None? <==> ToStringThrows(v)
    ensures v.Str? ==> r == Some(v.s)
    decreases v
  {
    match v
    case Null => Some("null")
    case Bool(b) => Some(if b then "true" else "false")
    case Num(t) => Some(t)
    case Str(s) => Some(s)
    case Arr(items) =>
      if exists i :: 0 <= i < |items| && ToJsString(items[i]).None? then None
      else Some(Join(seq(|items|, i requires 0 <= i < |items| =>
                           if items[i].Null? then "" else ToJsString(items[i]).value), ','))
    case Obj(fields) => if "toString" in fields then None else Some("[object Object]")
  }

  /** `(o[key] || '').length`: the length of a truthy string or array, `0` for a falsy value,
      and `undefined` (`None`) for anything else. */
  function OrEmptyLength(o: Object, key: string): (n: Option<nat>)
    ensures !Truthy(o, key) ==> n == Some(0)
    ensures key in o && o[key].Str? ==> n == Some(Utf16Length(o[key].s))
  {
    if key !in o then Some(0)
    else match o[key]
      case Null => Some(0)
      case Bool(b) => if b then None else Some(0)
      case Num(_) => if Truthy(o, key) then None else Some(0)
      case Str(s) => Some(Utf16Length(s))
      case Arr(items) => Some(|items|)
      case Obj(_) => None
  }
}
