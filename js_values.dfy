/** The JavaScript values the submission handler reads out of a parsed JSON
    request body, with JavaScript's truthiness and string conversion. */
module JsValues {

  /** A JavaScript value of the shapes a JSON body can hold, plus `undefined`,
      which is what reading an absent property yields. Numbers are integers. */
  datatype Value =
    | Undefined
    | Null
    | Bool(b: bool)
    | Num(n: int)
    | Str(s: string)
    | Arr(items: seq<Value>)
    | Obj(props: map<string, Value>)

  /** `!!v`: `undefined`, `null`, `false`, `0` and `""` are falsy, everything
      else (including every array and object) is truthy. */
  predicate Truthy(v: Value) {
    match v
    case Undefined => false
    case Null => false
    case Bool(b) => b
    case Num(n) => n != 0
    case Str(s) => s != ""
    case Arr(_) => true
    case Obj(_) => true
  }

  /** Property read `o[k]` on an object's properties. */
  function Prop(props: map<string, Value>, k: string): Value {
    if k in props then props[k] else Undefined
  }

  /** Decimal digits of a natural number, most significant first. */
  function NatToDecimal(n: nat): (s: string)
    ensures |s| > 0
    ensures forall i :: 0 <= i < |s| ==> '0' <= s[i] <= '9'
    decreases n
  {
    var d := ["0123456789"[n % 10]];
    if n < 10 then d else NatToDecimal(n / 10) + d
  }

  function IntToDecimal(n: int): string {
    if n < 0 then "-" + NatToDecimal(-n) else NatToDecimal(n)
  }

  /** `String(v)` returns rather than throws. A parsed object that has its
      own `toString` property has no callable `toString` and a `valueOf`
      that yields the object itself, so converting it throws a `TypeError`;
      an array converts each of its elements. */
  predicate Displayable(v: Value)
    decreases v
  {
    match v
    case Obj(props) => "toString" !in props
    case Arr(items) => forall i :: 0 <= i < |items| ==> Displayable(items[i])
    case _ => true
  }

  /** `String(v)`, which is what a template literal `${v}` inserts: arrays
      are joined with commas, with `null` and `undefined` elements empty.
      Only meaningful where `Displayable(v)`. */
  function Display(v: Value): string
    decreases v, 1, 0
  {
    match v
    case Undefined => "undefined"
    case Null => "null"
    case Bool(b) => if b then "true" else "false"
    case Num(n) => IntToDecimal(n)
    case Str(s) => s
    case Arr(items) => JoinDisplay(v, items)
    case Obj(_) => "[object Object]"
  }

  function JoinDisplay(parent: Value, items: seq<Value>): string
    requires forall x :: x in items ==> x < parent
    decreases parent, 0, |items|
  {
    if items == [] then ""
    else
      assert items[0] in items;
      assert forall x :: x in items[1..] ==> x in items;
      var first := if items[0].Undefined? || items[0].Null? then "" else Display(items[0]);
      if |items| == 1 then first else first + "," + JoinDisplay(parent, items[1..])
  }
}
