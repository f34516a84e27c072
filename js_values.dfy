/** The JavaScript values the query builder receives and the few pieces of
    JavaScript semantics it relies on: truthiness (`!x`), `typeof`, the string
    conversion a template literal or `+=` applies, and `Object.entries`. */
module JsValues {
  import opened Strings

  datatype Option<T> = None | Some(value: T)

  /** A JavaScript value. Numbers are integers; an object is the ordered list
      of its own enumerable properties, in `Object.keys` order. */
  datatype Value =
    | Str(s: string)
    | Num(n: int)
    | Bool(b: bool)
    | Null
    | Undef
    | Arr(elems: seq<Value>)
    | Obj(fields: seq<(string, Value)>)

  /** `!!v` */
  predicate Truthy(v: Value)
  {
    match v
    case Str(s) => s != ""
    case Num(n) => n != 0
    case Bool(b) => b
    case Null => false
    case Undef => false
    case Arr(_) => true
    case Obj(_) => true
  }

  /** `typeof v` */
  function TypeOf(v: Value): string
  {
    match v
    case Str(_) => "string"
    case Num(_) => "number"
    case Bool(_) => "boolean"
    case Null => "object"
    case Undef => "undefined"
    case Arr(_) => "object"
    case Obj(_) => "object"
  }

  predicate IsDigits(s: string)
  {
    forall i :: 0 <= i < |s| ==> '0' <= s[i] <= '9'
  }

  function DigitChar(d: nat): (c: char)
    requires d < 10
    ensures '0' <= c <= '9' && c as int - '0' as int == d
  {
    (d + '0' as int) as char
  }

  /** Decimal digits of a non-negative integer, without leading zeros. */
  function NatText(n: nat): (r: string)
    ensures |r| > 0 && IsDigits(r)
    ensures |r| > 1 ==> r[0] != '0'
  {
    if n < 10 then [DigitChar(n)] else NatText(n / 10) + [DigitChar(n % 10)]
  }

  /** `String(n)` for an integer `n`: a minus sign for negatives, then the digits. */
  function IntText(n: int): (r: string)
    ensures forall i :: 0 <= i < |r| ==> r[i] == '-' || '0' <= r[i] <= '9'
    ensures |r| > 0 && ((r[0] == '-') <==> n < 0)
  {
    if n < 0 then "-" + NatText(-n) else NatText(n)
  }

  /** The value of a string of decimal digits, read left to right. */
  function DecimalValue(s: string): int
  {
    if s == [] then 0 else 10 * DecimalValue(s[..|s| - 1]) + (s[|s| - 1] as int - '0' as int)
  }

  /** Reads back an optionally signed decimal integer. */
  function ParseInt(s: string): int
  {
    if |s| > 0 && s[0] == '-' then -DecimalValue(s[1..]) else DecimalValue(s)
  }

  lemma {:induction false} NatTextRoundTrip(n: nat)
    ensures DecimalValue(NatText(n)) == n
  {
    if n >= 10 {
      var r := NatText(n);
      assert r[..|r| - 1] == NatText(n / 10);
      NatTextRoundTrip(n / 10);
    }
  }

  /** The number printed into a statement reads back as the same number. */
  lemma IntTextRoundTrip(n: int)
    ensures ParseInt(IntText(n)) == n
  {
    if n < 0 {
      assert IntText(n)[1..] == NatText(-n);
      NatTextRoundTrip(-n);
    } else {
      NatTextRoundTrip(n);
    }
  }

  /** `String(v)`, which is also what `${v}` and `x += v` produce: arrays are
      joined with "," and show `null` and `undefined` elements as nothing. */
  function ToText(v: Value): string
    decreases v, 1
  {
    match v
    case Str(s) => s
    case Num(n) => IntText(n)
    case Bool(b) => if b then "true" else "false"
    case Null => "null"
    case Undef => "undefined"
    case Arr(elems) => ArrayJoin(elems, ",")
    case Obj(_) => "[object Object]"
  }

  /** `elems.join(sep)` */
  function ArrayJoin(elems: seq<Value>, sep: string): string
    decreases Arr(elems), 0
  {
    Join(seq(|elems|, i requires 0 <= i < |elems| =>
           if elems[i].Null? || elems[i].Undef? then "" else ToText(elems[i])), sep)
  }

  function StrValues(names: seq<string>): (vs: seq<Value>)
    ensures |vs| == |names| && forall i :: 0 <= i < |vs| ==> vs[i] == Str(names[i])
  {
    seq(|names|, i requires 0 <= i < |names| => Str(names[i]))
  }

  /** An array of strings joins exactly like the strings themselves. */
  lemma ArrayJoinStrings(names: seq<string>, sep: string)
    ensures ArrayJoin(StrValues(names), sep) == Join(names, sep)
  {
    var vs := StrValues(names);
    var texts := seq(|vs|, i requires 0 <= i < |vs| =>
                   if vs[i].Null? || vs[i].Undef? then "" else ToText(vs[i]));
    assert texts == names;
  }

  /** `Object.entries(v)`; `None` where JavaScript throws a TypeError
      (undefined and null). Arrays and strings list their indices as keys;
      numbers and booleans have no own properties. */
  function Entries(v: Value): (r: Option<seq<(string, Value)>>)
    ensures r.None? <==> v.Null? || v.Undef?
    ensures v.Obj? ==> r == Some(v.fields)
    ensures v.Arr? ==> r.Some? && |r.value| == |v.elems|
  {
    match v
    case Null => None
    case Undef => None
    case Obj(fields) => Some(fields)
    case Arr(elems) => Some(seq(|elems|, i requires 0 <= i < |elems| => (NatText(i), elems[i])))
    case Str(s) => Some(seq(|s|, i requires 0 <= i < |s| => (NatText(i), Str([s[i]]))))
    case Num(_) => Some([])
    case Bool(_) => Some([])
  }
}
