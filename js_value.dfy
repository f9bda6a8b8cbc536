/**
 * The JavaScript values the type guards and the adapter's `format` look at:
 * objects as maps from their own property names, dates by their time value.
 * Numbers are kept integral; floating point is not modelled.
 */
module JsValues {
  import opened Text
  datatype JsValue =
    | Undefined
    | Null
    | Bool(b: bool)
    | Num(n: int)
    | Str(s: string)
    | Arr(items: seq<JsValue>)
    | Obj(fields: map<string, JsValue>)
    | Date(time: int)

  /** The message every engine error (a property read on `null`, a call of
    * something that is not a function) is collapsed to. */
  const TypeError := "TypeError"

  /** `typeof v === "object" && v !== null`. */
  predicate IsObject(v: JsValue) {
    v.Arr? || v.Obj? || v.Date?
  }

  /** `v[key]` on a plain object; a missing property reads as `undefined`. */
  function Get(v: JsValue, key: string): (r: JsValue)
    ensures r != Undefined ==> v.Obj? && key in v.fields
  {
    if v.Obj? && key in v.fields then v.fields[key] else Undefined
  }

  /** `o[key]` on the properties of an object. */
  function Prop(o: map<string, JsValue>, key: string): JsValue {
    if key in o then o[key] else Undefined
  }

  /** JavaScript truthiness; numbers are integral, so `NaN` does not arise. */
  predicate Truthy(v: JsValue) {
    match v
    case Undefined => false
    case Null => false
    case Bool(b) => b
    case Num(n) => n != 0
    case Str(s) => s != []
    case _ => true
  }

  /** `String(v)` as a template literal writes it.  An array is its items
    * joined by `,`, with `null` and `undefined` items empty.  A date is
    * written as its time value, not as the local-time text of
    * `Date.prototype.toString`; the n8n nodes apply this only to parsed
    * JSON, which holds no dates. */
  function TemplateText(v: JsValue): (r: string)
    ensures v.Str? ==> r == v.s
    ensures v.Num? ==> r == IntToString(v.n)
    decreases v, 1
  {
    match v
    case Undefined => "undefined"
    case Null => "null"
    case Bool(b) => if b then "true" else "false"
    case Num(n) => IntToString(n)
    case Str(s) => s
    case Arr(items) => ItemsText(v, items)
    case Obj(_) => "[object Object]"
    case Date(t) => IntToString(t)
  }

  /** The items of array `v` (or a suffix of them) joined by `,`. */
  function ItemsText(v: JsValue, items: seq<JsValue>): string
    requires forall k :: 0 <= k < |items| ==> items[k] < v
    decreases v, 0, |items|
  {
    if items == [] then ""
    else
      var first := if items[0].Undefined? || items[0].Null? then "" else TemplateText(items[0]);
      if |items| == 1 then first else first + "," + ItemsText(v, items[1..])
  }
}
