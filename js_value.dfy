/** JavaScript values as the two relays handle them: JSON bodies plus `undefined`,
    with the handful of JavaScript conversions the services rely on (truthiness,
    `String(v)`, property reads and object spread). */
module JsValue {

  datatype Option<+T> = None | Some(value: T)

  /** The outcome of a call that may throw. */
  datatype Result<+T, +E> = Ok(value: T) | Err(error: E)

  /** A failed HTTP call as an HTTP client reports it: the response status (0
      when no response arrived) and the error message. */
  datatype HttpError = HttpError(status: int, message: string)

  /** A JSON value, plus `undefined`. Numbers are integers: the relays only move
      identifiers, timestamps and counters. */
  datatype Value =
    | Undefined
    | Null
    | Bool(b: bool)
    | Num(n: int)
    | Str(s: string)
    | Arr(items: seq<Value>)
    | Obj(fields: map<string, Value>)

  /** `Boolean(v)`: the falsy values are undefined, null, false, 0 and "". */
  predicate Truthy(v: Value) {
    match v
    case Undefined => false
    case Null => false
    case Bool(b) => b
    case Num(n) => n != 0
    case Str(s) => s != ""
    case Arr(_) => true
    case Obj(_) => true
  }

  /** `v.key` and `v?.key`: undefined unless `v` is an object with that own key. */
  function Prop(v: Value, key: string): Value {
    if v.Obj? && key in v.fields then v.fields[key] else Undefined
  }

  /** The own entries that `{ ...v }` copies into an object literal. */
  function Spread(v: Value): map<string, Value> {
    if v.Obj? then v.fields else map[]
  }

  function DigitChar(d: nat): (c: char)
    requires d < 10
    ensures '0' <= c <= '9' && c as int - '0' as int == d
  {
    "0123456789"[d]
  }

  /** The value of a string of decimal digits. */
  function DecimalValue(s: string): nat
    requires forall i :: 0 <= i < |s| ==> '0' <= s[i] <= '9'
  {
    if s == [] then 0 else 10 * DecimalValue(s[..|s| - 1]) + (s[|s| - 1] as int - '0' as int)
  }

  /** The decimal rendering of a natural number, as `String(n)` gives it. */
  function NatToString(n: nat): (s: string)
    ensures 1 <= |s|
    ensures forall i :: 0 <= i < |s| ==> '0' <= s[i] <= '9'
    ensures DecimalValue(s) == n
    ensures |s| > 1 ==> s[0] != '0'
  {
    if n < 10 then [DigitChar(n)]
    else
      var s := NatToString(n / 10) + [DigitChar(n % 10)];
      assert s[..|s| - 1] == NatToString(n / 10);
      s
  }

  /** `String(n)` for an integer. */
  function IntToString(n: int): (s: string)
    ensures 1 <= |s|
    ensures n < 0 <==> s[0] == '-'
    ensures forall i :: 0 < i < |s| ==> '0' <= s[i] <= '9'
  {
    if n < 0 then "-" + NatToString(-n) else NatToString(n)
  }

  /** `String(v)`, which template literals and `+` with a string also use. An
      array renders as its elements joined by ",", undefined and null elements
      rendering as "". */
  function ToJsString(v: Value): string
    decreases v, 1, 0
  {
    match v
    case Undefined => "undefined"
    case Null => "null"
    case Bool(b) => if b then "true" else "false"
    case Num(n) => IntToString(n)
    case Str(s) => s
    case Arr(items) => JoinElements(v, 0)
    case Obj(_) => "[object Object]"
  }

  /** How `Array.prototype.join` renders one element. */
  function ElementString(v: Value): string
    decreases v, 1, 1
  {
    if v.Undefined? || v.Null? then "" else ToJsString(v)
  }

  /** The elements of array `whole` from index `i` on, joined by ",". */
  function JoinElements(whole: Value, i: nat): string
    requires whole.Arr? && i <= |whole.items|
    decreases whole, 0, |whole.items| - i
  {
    if i == |whole.items| then ""
    else if i + 1 == |whole.items| then ElementString(whole.items[i])
    else ElementString(whole.items[i]) + "," + JoinElements(whole, i + 1)
  }

  /** The relational operator `<` on strings: lexicographic by Unicode scalar
      value. JavaScript compares UTF-16 code units, which orders the same way
      except when a character above U+FFFF meets one in U+E000 to U+FFFF. */
  predicate StrLess(a: string, b: string) {
    if a == [] then b != []
    else if b == [] then false
    else if a[0] != b[0] then a[0] < b[0]
    else StrLess(a[1..], b[1..])
  }

  lemma {:induction false} StrLessIrreflexive(a: string)
    ensures !StrLess(a, a)
  {
    if a != [] {
      StrLessIrreflexive(a[1..]);
    }
  }

  lemma {:induction false} StrLessAsymmetric(a: string, b: string)
    requires StrLess(a, b)
    ensures !StrLess(b, a)
  {
    if a != [] && b != [] && a[0] == b[0] {
      StrLessAsymmetric(a[1..], b[1..]);
    }
  }

  lemma {:induction false} StrLessTransitive(a: string, b: string, c: string)
    requires StrLess(a, b) && StrLess(b, c)
    ensures StrLess(a, c)
  {
    if a != [] && b != [] && c != [] && a[0] == b[0] && b[0] == c[0] {
      StrLessTransitive(a[1..], b[1..], c[1..]);
    }
  }

  /** Any two strings are equal or ordered one way or the other. */
  lemma {:induction false} StrLessTotal(a: string, b: string)
    ensures a == b || StrLess(a, b) || StrLess(b, a)
  {
    if a != [] && b != [] && a[0] == b[0] {
      StrLessTotal(a[1..], b[1..]);
      if a[1..] == b[1..] {
        assert a == [a[0]] + a[1..] && b == [b[0]] + b[1..];
      }
    }
  }

  /** `String(n)` tells integers apart. */
  lemma IntToStringInjective(m: int, n: int)
    requires IntToString(m) == IntToString(n)
    ensures m == n
  {
    if m < 0 {
      assert NatToString(-m) == IntToString(m)[1..];
    }
    if n < 0 {
      assert NatToString(-n) == IntToString(n)[1..];
    }
  }
}
