/**
 * The Python values that occur in search-result facets and in search-query
 * facets, with the few Python operations the engine applies to them:
 * subscripting (`v[0]`), `str(v)`, and `+` on strings.
 */
module PyValues {

  /** A Python value, as far as the engine distinguishes values. */
  datatype Value =
    | Str(s: string)
    | Bytes(data: seq<int>)      // `bytes` and `bytearray`
    | Int(i: int)
    | Bool(b: bool)
    | Float(text: string)        // a float, carried by its `repr`
    | NoneValue
    | List(items: seq<Value>)
    | Tuple(items: seq<Value>)
    | SetOf(items: seq<Value>)   // a set, in its iteration order

  /** The replica-class key of an entry: (table_id, version, grid_label). */
  type EntryKey = (Value, string, Value)

  /** Decimal digits of a natural number, most significant first. */
  function NatToDecimal(n: nat): (r: string)
    ensures |r| >= 1
    ensures forall i :: 0 <= i < |r| ==> '0' <= r[i] <= '9'
  {
    if n < 10 then [DigitChar(n)] else NatToDecimal(n / 10) + [DigitChar(n % 10)]
  }

  function DigitChar(d: nat): (c: char)
    requires d < 10
    ensures '0' <= c <= '9'
  {
    (d + '0' as int) as char
  }

  function IntToDecimal(i: int): string
  {
    if i < 0 then "-" + NatToDecimal(-i) else NatToDecimal(i)
  }

  /**
   * `repr(v)`. Quotes in strings and non-printable bytes are not escaped
   * (Python would escape them).
   */
  function Repr(v: Value): string
    decreases v, 1
  {
    match v
    case Str(s) => "'" + s + "'"
    case Bytes(d) => "b'" + BytesText(d) + "'"
    case Int(i) => IntToDecimal(i)
    case Bool(b) => if b then "True" else "False"
    case Float(t) => t
    case NoneValue => "None"
    case List(items) => "[" + ReprItems(v, items) + "]"
    case Tuple(items) =>
      if |items| == 1 then "(" + ReprItems(v, items) + ",)" else "(" + ReprItems(v, items) + ")"
    case SetOf(items) => if |items| == 0 then "set()" else "{" + ReprItems(v, items) + "}"
  }

  /** The comma-separated `repr`s of the items of a container `parent`. */
  function ReprItems(parent: Value, items: seq<Value>): string
    requires forall x :: x in items ==> x < parent
    decreases parent, 0, |items|
  {
    if |items| == 0 then ""
    else
      assert items[0] in items;
      if |items| == 1 then Repr(items[0])
      else
        assert forall x :: x in items[1..] ==> x in items;
        Repr(items[0]) + ", " + ReprItems(parent, items[1..])
  }

  function BytesText(d: seq<int>): string
  {
    if |d| == 0 then "" else [(d[0] % 256) as char] + BytesText(d[1..])
  }

  /** `str(v)`: a string is itself, anything else its `repr`. */
  function StrOf(v: Value): string
  {
    if v.Str? then v.s else Repr(v)
  }
}
