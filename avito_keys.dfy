/** The canonical Redis key builder of the Avito service, `makeRedisKey`:
    `"avito#"` followed by the object's entries under the default array sort,
    written out by node's `querystring.stringify` with "," between fields. */
module AvitoKeys {
  import opened JsValue

  // ---------------------------------------------------------------------------
  // querystring.escape
  // ---------------------------------------------------------------------------

  /** The characters `querystring.escape` leaves alone. */
  predicate Unreserved(c: char) {
    ('A' <= c <= 'Z') || ('a' <= c <= 'z') || ('0' <= c <= '9') ||
    c == '-' || c == '.' || c == '_' || c == '~' || c == '!' || c == '*' ||
    c == '\'' || c == '(' || c == ')'
  }

  function HexDigit(d: nat): (c: char)
    requires d < 16
    ensures c != '%' && c != ',' && c != '='
  {
    "0123456789ABCDEF"[d]
  }

  /** One byte written as `%XY`, upper-case hexadecimal. */
  function PercentByte(b: nat): (r: string)
    requires b < 256
    ensures |r| == 3 && r[0] == '%'
    ensures forall i :: 0 <= i < |r| ==> r[i] != ',' && r[i] != '='
  {
    ['%', HexDigit(b / 16), HexDigit(b % 16)]
  }

  /** Two, three or four bytes, each percent-encoded. */
  function PercentTwo(b0: nat, b1: nat): (r: string)
    requires b0 < 256 && b1 < 256
    ensures |r| == 6 && r[0] == '%'
    ensures forall i :: 0 <= i < |r| ==> r[i] != ',' && r[i] != '='
  {
    PercentByte(b0) + PercentByte(b1)
  }

  function PercentThree(b0: nat, b1: nat, b2: nat): (r: string)
    requires b0 < 256 && b1 < 256 && b2 < 256
    ensures |r| == 9 && r[0] == '%'
    ensures forall i :: 0 <= i < |r| ==> r[i] != ',' && r[i] != '='
  {
    PercentByte(b0) + PercentByte(b1) + PercentByte(b2)
  }

  function PercentFour(b0: nat, b1: nat, b2: nat, b3: nat): (r: string)
    requires b0 < 256 && b1 < 256 && b2 < 256 && b3 < 256
    ensures |r| == 12 && r[0] == '%'
    ensures forall i :: 0 <= i < |r| ==> r[i] != ',' && r[i] != '='
  {
    PercentByte(b0) + PercentByte(b1) + PercentByte(b2) + PercentByte(b3)
  }

  /** A character that is not unreserved: its UTF-8 bytes, each percent-encoded. */
  function PercentChar(c: char): (r: string)
    ensures |r| % 3 == 0 && 3 <= |r| <= 12 && r[0] == '%'
    ensures forall i :: 0 <= i < |r| ==> r[i] != ',' && r[i] != '='
  {
    var n := c as int;
    if n < 0x80 then PercentByte(n)
    else if n < 0x800 then PercentTwo(0xC0 + n / 64, 0x80 + n % 64)
    else if n < 0x10000 then PercentThree(0xE0 + n / 4096, 0x80 + (n / 64) % 64, 0x80 + n % 64)
    else PercentFour(0xF0 + n / 262144, 0x80 + (n / 4096) % 64, 0x80 + (n / 64) % 64, 0x80 + n % 64)
  }

  function EscapeChar(c: char): (r: string)
    ensures 1 <= |r|
    ensures forall i :: 0 <= i < |r| ==> r[i] != ',' && r[i] != '='
  {
    if Unreserved(c) then [c] else PercentChar(c)
  }

  /** `querystring.escape(s)`. */
  function Escape(s: string): (r: string)
    ensures forall i :: 0 <= i < |r| ==> r[i] != ',' && r[i] != '='
  {
    if s == [] then [] else EscapeChar(s[0]) + Escape(s[1..])
  }

  // ---------------------------------------------------------------------------
  // Reading an escaped string back
  // ---------------------------------------------------------------------------

  function HexValue(c: char): Option<nat> {
    if '0' <= c <= '9' then Some(c as int - '0' as int)
    else if 'A' <= c <= 'F' then Some(c as int - 'A' as int + 10)
    else None
  }

  /** The byte written as `%XY` at position `i` of `s`, if there is one. */
  function ByteAt(s: string, i: nat): (r: Option<nat>)
    ensures r.Some? ==> r.value < 256
  {
    if i + 3 <= |s| && s[i] == '%' && HexValue(s[i + 1]).Some? && HexValue(s[i + 2]).Some?
       && HexValue(s[i + 1]).value < 16 && HexValue(s[i + 2]).value < 16
    then Some(HexValue(s[i + 1]).value * 16 + HexValue(s[i + 2]).value)
    else None
  }

  /** The number of UTF-8 bytes announced by a leading byte. */
  function Utf8Length(b: nat): nat {
    if b < 0x80 then 1
    else if 0xC0 <= b < 0xE0 then 2
    else if 0xE0 <= b < 0xF0 then 3
    else if 0xF0 <= b < 0xF8 then 4
    else 0
  }

  function ScalarChar(n: int): Option<char> {
    if 0 <= n < 0xD800 || 0xE000 <= n < 0x11_0000 then Some(n as char) else None
  }

  /** The first character of an escaped string and how many characters it took. */
  function DecodeOne(s: string): (r: Option<(char, nat)>)
    requires s != []
    ensures r.Some? ==> 1 <= r.value.1 <= |s|
  {
    if s[0] != '%' then Some((s[0], 1))
    else
      match ByteAt(s, 0)
      case None => None
      case Some(b0) =>
        var len := Utf8Length(b0);
        if len == 0 || |s| < 3 * len then None
        else if len == 1 then
          (match ScalarChar(b0) case None => None case Some(c) => Some((c, 3)))
        else
          match ByteAt(s, 3)
          case None => None
          case Some(b1) =>
            if len == 2 then
              (match ScalarChar((b0 - 0xC0) * 64 + (b1 - 0x80))
               case None => None case Some(c) => Some((c, 6)))
            else
              match ByteAt(s, 6)
              case None => None
              case Some(b2) =>
                if len == 3 then
                  (match ScalarChar((b0 - 0xE0) * 4096 + (b1 - 0x80) * 64 + (b2 - 0x80))
                   case None => None case Some(c) => Some((c, 9)))
                else
                  match ByteAt(s, 9)
                  case None => None
                  case Some(b3) =>
                    match ScalarChar((b0 - 0xF0) * 262144 + (b1 - 0x80) * 4096 + (b2 - 0x80) * 64 + (b3 - 0x80))
                    case None => None
                    case Some(c) => Some((c, 12))
  }

  /** The inverse of Escape: the string an escaped string stands for. */
  function Unescape(s: string): Option<string>
    decreases |s|
  {
    if s == [] then Some([])
    else
      match DecodeOne(s)
      case None => None
      case Some(d) =>
        match Unescape(s[d.1..])
        case None => None
        case Some(rest) => Some([d.0] + rest)
  }

  lemma HexRoundTrip(d: nat)
    requires d < 16
    ensures HexValue(HexDigit(d)) == Some(d)
  {
  }

  lemma {:induction false} ByteAtPercentByte(b: nat, before: string, after: string)
    requires b < 256
    ensures ByteAt(before + PercentByte(b) + after, |before|) == Some(b)
  {
    var s := before + PercentByte(b) + after;
    var i := |before|;
    assert s[i] == '%' && s[i + 1] == HexDigit(b / 16) && s[i + 2] == HexDigit(b % 16);
    HexRoundTrip(b / 16);
    HexRoundTrip(b % 16);
  }

  /** Every character written by EscapeChar is read back by DecodeOne. */
  lemma DecodeEscapeChar(c: char, rest: string)
    ensures DecodeOne(EscapeChar(c) + rest) == Some((c, |EscapeChar(c)|))
  {
    var n := c as int;
    if Unreserved(c) {
    } else if n < 0x80 {
      DecodeOneByte(c, rest);
    } else if n < 0x800 {
      DecodeTwoBytes(c, rest);
    } else if n < 0x10000 {
      DecodeThreeBytes(c, rest);
    } else {
      DecodeFourBytes(c, rest);
    }
  }

  lemma DecodeOneByte(c: char, rest: string)
    requires c as int < 0x80
    ensures DecodeOne(PercentChar(c) + rest) == Some((c, 3))
  {
    var n := c as int;
    ByteAtPercentByte(n, [], rest);
    assert PercentChar(c) + rest == [] + PercentByte(n) + rest;
  }

  lemma DecodeTwoBytes(c: char, rest: string)
    requires 0x80 <= c as int < 0x800
    ensures DecodeOne(PercentChar(c) + rest) == Some((c, 6))
  {
    var n := c as int;
    var s := PercentChar(c) + rest;
    var b0, b1 := 0xC0 + n / 64, 0x80 + n % 64;
    assert s == [] + PercentByte(b0) + (PercentByte(b1) + rest);
    ByteAtPercentByte(b0, [], PercentByte(b1) + rest);
    assert s == PercentByte(b0) + PercentByte(b1) + rest;
    ByteAtPercentByte(b1, PercentByte(b0), rest);
    assert (b0 - 0xC0) * 64 + (b1 - 0x80) == n;
  }

  lemma PercentCharThree(c: char)
    requires 0x800 <= c as int < 0x10000
    ensures var n := c as int;
            PercentChar(c) == PercentThree(0xE0 + n / 4096, 0x80 + (n / 64) % 64, 0x80 + n % 64)
  {
  }

  lemma PercentCharFour(c: char)
    requires 0x10000 <= c as int
    ensures var n := c as int;
            PercentChar(c) == PercentFour(0xF0 + n / 262144, 0x80 + (n / 4096) % 64, 0x80 + (n / 64) % 64, 0x80 + n % 64)
  {
  }

  lemma DecodeThreeBytes(c: char, rest: string)
    requires 0x800 <= c as int < 0x10000
    ensures DecodeOne(PercentChar(c) + rest) == Some((c, 9))
  {
    var b0, b1, b2 := Utf8Three(c);
    DecodeThreeAt(b0, b1, b2, c, rest);
  }

  /** The three UTF-8 bytes of a character from U+0800 to U+FFFF. */
  lemma Utf8Three(c: char) returns (b0: nat, b1: nat, b2: nat)
    requires 0x800 <= c as int < 0x10000
    ensures 0xE0 <= b0 < 0xF0 && 0x80 <= b1 < 0xC0 && 0x80 <= b2 < 0xC0
    ensures (b0 - 0xE0) * 4096 + (b1 - 0x80) * 64 + (b2 - 0x80) == c as int
    ensures PercentChar(c) == PercentThree(b0, b1, b2)
  {
    b0, b1, b2 := ThreeBytes(c as int);
    PercentCharThree(c);
  }

  /** The bytes of a code point from U+0800 to U+FFFF, and their ranges. */
  lemma ThreeBytes(n: int) returns (b0: nat, b1: nat, b2: nat)
    requires 0x800 <= n < 0x10000
    ensures b0 == 0xE0 + n / 4096 && b1 == 0x80 + (n / 64) % 64 && b2 == 0x80 + n % 64
    ensures 0xE0 <= b0 < 0xF0 && 0x80 <= b1 < 0xC0 && 0x80 <= b2 < 0xC0
    ensures (b0 - 0xE0) * 4096 + (b1 - 0x80) * 64 + (b2 - 0x80) == n
  {
    ThreeByteArithmetic(n);
    b0, b1, b2 := 0xE0 + n / 4096, 0x80 + (n / 64) % 64, 0x80 + n % 64;
  }

  lemma DecodeThreeAt(b0: nat, b1: nat, b2: nat, c: char, rest: string)
    requires 0xE0 <= b0 < 0xF0 && 0x80 <= b1 < 0xC0 && 0x80 <= b2 < 0xC0
    requires (b0 - 0xE0) * 4096 + (b1 - 0x80) * 64 + (b2 - 0x80) == c as int
    ensures DecodeOne(PercentThree(b0, b1, b2) + rest) == Some((c, 9))
  {
    var p0, p1, p2 := PercentByte(b0), PercentByte(b1), PercentByte(b2);
    assert PercentThree(b0, b1, b2) + rest == p0 + p1 + p2 + rest;
    ThreeBytesAt(p0, p1, p2, rest, b0, b1, b2);
    DecodeOneThree(p0 + p1 + p2 + rest, b0, b1, b2, c);
  }

  lemma DecodeOneThree(s: string, b0: nat, b1: nat, b2: nat, c: char)
    requires |s| >= 9
    requires ByteAt(s, 0) == Some(b0) && ByteAt(s, 3) == Some(b1) && ByteAt(s, 6) == Some(b2)
    requires 0xE0 <= b0 < 0xF0
    requires (b0 - 0xE0) * 4096 + (b1 - 0x80) * 64 + (b2 - 0x80) == c as int
    ensures DecodeOne(s) == Some((c, 9))
  {
  }

  lemma ThreeBytesAt(p0: string, p1: string, p2: string, rest: string, b0: nat, b1: nat, b2: nat)
    requires b0 < 256 && b1 < 256 && b2 < 256
    requires p0 == PercentByte(b0) && p1 == PercentByte(b1) && p2 == PercentByte(b2)
    ensures ByteAt(p0 + p1 + p2 + rest, 0) == Some(b0)
    ensures ByteAt(p0 + p1 + p2 + rest, 3) == Some(b1)
    ensures ByteAt(p0 + p1 + p2 + rest, 6) == Some(b2)
    ensures |p0 + p1 + p2 + rest| >= 9
  {
    var s := p0 + p1 + p2 + rest;
    assert s == [] + p0 + (p1 + p2 + rest);
    ByteAtPercentByte(b0, [], p1 + p2 + rest);
    assert s == p0 + p1 + (p2 + rest);
    ByteAtPercentByte(b1, p0, p2 + rest);
    assert s == (p0 + p1) + p2 + rest;
    ByteAtPercentByte(b2, p0 + p1, rest);
  }

  lemma DecodeFourBytes(c: char, rest: string)
    requires 0x10000 <= c as int
    ensures DecodeOne(PercentChar(c) + rest) == Some((c, 12))
  {
    var b0, b1, b2, b3 := Utf8Four(c);
    DecodeFourAt(b0, b1, b2, b3, c, rest);
  }

  /** The four UTF-8 bytes of a character from U+10000 on. */
  lemma Utf8Four(c: char) returns (b0: nat, b1: nat, b2: nat, b3: nat)
    requires 0x10000 <= c as int
    ensures 0xF0 <= b0 < 0xF8 && 0x80 <= b1 < 0xC0 && 0x80 <= b2 < 0xC0 && 0x80 <= b3 < 0xC0
    ensures (b0 - 0xF0) * 262144 + (b1 - 0x80) * 4096 + (b2 - 0x80) * 64 + (b3 - 0x80) == c as int
    ensures PercentChar(c) == PercentFour(b0, b1, b2, b3)
  {
    b0, b1, b2, b3 := FourBytes(c as int);
    PercentCharFour(c);
  }

  /** The bytes of a code point from U+10000 to U+10FFFF, and their ranges. */
  lemma FourBytes(n: int) returns (b0: nat, b1: nat, b2: nat, b3: nat)
    requires 0x10000 <= n < 0x11_0000
    ensures b0 == 0xF0 + n / 262144 && b1 == 0x80 + (n / 4096) % 64 && b2 == 0x80 + (n / 64) % 64 && b3 == 0x80 + n % 64
    ensures 0xF0 <= b0 < 0xF8 && 0x80 <= b1 < 0xC0 && 0x80 <= b2 < 0xC0 && 0x80 <= b3 < 0xC0
    ensures (b0 - 0xF0) * 262144 + (b1 - 0x80) * 4096 + (b2 - 0x80) * 64 + (b3 - 0x80) == n
  {
    FourByteArithmetic(n);
    b0, b1, b2, b3 := 0xF0 + n / 262144, 0x80 + (n / 4096) % 64, 0x80 + (n / 64) % 64, 0x80 + n % 64;
  }

  lemma DecodeFourAt(b0: nat, b1: nat, b2: nat, b3: nat, c: char, rest: string)
    requires 0xF0 <= b0 < 0xF8 && 0x80 <= b1 < 0xC0 && 0x80 <= b2 < 0xC0 && 0x80 <= b3 < 0xC0
    requires (b0 - 0xF0) * 262144 + (b1 - 0x80) * 4096 + (b2 - 0x80) * 64 + (b3 - 0x80) == c as int
    ensures DecodeOne(PercentFour(b0, b1, b2, b3) + rest) == Some((c, 12))
  {
    var p0, p1, p2, p3 := PercentByte(b0), PercentByte(b1), PercentByte(b2), PercentByte(b3);
    assert PercentFour(b0, b1, b2, b3) + rest == p0 + p1 + p2 + p3 + rest;
    FourBytesAt(p0, p1, p2, p3, rest, b0, b1, b2, b3);
    DecodeOneFour(p0 + p1 + p2 + p3 + rest, b0, b1, b2, b3, c);
  }

  lemma DecodeOneFour(s: string, b0: nat, b1: nat, b2: nat, b3: nat, c: char)
    requires |s| >= 12
    requires ByteAt(s, 0) == Some(b0) && ByteAt(s, 3) == Some(b1)
    requires ByteAt(s, 6) == Some(b2) && ByteAt(s, 9) == Some(b3)
    requires 0xF0 <= b0 < 0xF8
    requires (b0 - 0xF0) * 262144 + (b1 - 0x80) * 4096 + (b2 - 0x80) * 64 + (b3 - 0x80) == c as int
    ensures DecodeOne(s) == Some((c, 12))
  {
  }

  lemma FourBytesAt(p0: string, p1: string, p2: string, p3: string, rest: string, b0: nat, b1: nat, b2: nat, b3: nat)
    requires b0 < 256 && b1 < 256 && b2 < 256 && b3 < 256
    requires p0 == PercentByte(b0) && p1 == PercentByte(b1) && p2 == PercentByte(b2) && p3 == PercentByte(b3)
    ensures ByteAt(p0 + p1 + p2 + p3 + rest, 0) == Some(b0)
    ensures ByteAt(p0 + p1 + p2 + p3 + rest, 3) == Some(b1)
    ensures ByteAt(p0 + p1 + p2 + p3 + rest, 6) == Some(b2)
    ensures ByteAt(p0 + p1 + p2 + p3 + rest, 9) == Some(b3)
    ensures |p0 + p1 + p2 + p3 + rest| >= 12
  {
    var s := p0 + p1 + p2 + p3 + rest;
    assert s == [] + p0 + (p1 + p2 + p3 + rest);
    ByteAtPercentByte(b0, [], p1 + p2 + p3 + rest);
    assert s == p0 + p1 + (p2 + p3 + rest);
    ByteAtPercentByte(b1, p0, p2 + p3 + rest);
    assert s == (p0 + p1) + p2 + (p3 + rest);
    ByteAtPercentByte(b2, p0 + p1, p3 + rest);
    assert s == (p0 + p1 + p2) + p3 + rest;
    ByteAtPercentByte(b3, p0 + p1 + p2, rest);
  }

  lemma ThreeByteArithmetic(n: int)
    requires 0x800 <= n < 0x10000
    ensures 0xE0 <= 0xE0 + n / 4096 < 0xF0
    ensures (n / 4096) * 4096 + ((n / 64) % 64) * 64 + n % 64 == n
  {
    assert n == (n / 64) * 64 + n % 64;
    assert n / 64 == (n / 4096) * 64 + (n / 64) % 64;
  }

  lemma FourByteArithmetic(n: int)
    requires 0x10000 <= n < 0x11_0000
    ensures 0xF0 <= 0xF0 + n / 262144 < 0xF8
    ensures (n / 262144) * 262144 + ((n / 4096) % 64) * 4096 + ((n / 64) % 64) * 64 + n % 64 == n
  {
    assert n == (n / 64) * 64 + n % 64;
    assert n / 64 == (n / 4096) * 64 + (n / 64) % 64;
    assert n / 4096 == (n / 262144) * 64 + (n / 4096) % 64;
  }

  /** Escaping is undone by Unescape; in particular it is injective. */
  lemma {:induction false} UnescapeEscape(s: string)
    ensures Unescape(Escape(s)) == Some(s)
  {
    if s != [] {
      DecodeEscapeChar(s[0], Escape(s[1..]));
      UnescapeEscape(s[1..]);
      assert (EscapeChar(s[0]) + Escape(s[1..]))[|EscapeChar(s[0])|..] == Escape(s[1..]);
      assert s == [s[0]] + s[1..];
    }
  }

  lemma EscapeInjective(a: string, b: string)
    requires Escape(a) == Escape(b)
    ensures a == b
  {
    UnescapeEscape(a);
    UnescapeEscape(b);
  }

  /** A string of unreserved characters is written as it is. */
  lemma {:induction false} EscapeUnreserved(s: string)
    requires forall i :: 0 <= i < |s| ==> Unreserved(s[i])
    ensures Escape(s) == s
  {
    if s != [] {
      EscapeUnreserved(s[1..]);
      assert s == [s[0]] + s[1..];
    }
  }

  /** A string without '%' is read back as it is. */
  lemma {:induction false} UnescapePlain(s: string)
    requires forall i :: 0 <= i < |s| ==> s[i] != '%'
    ensures Unescape(s) == Some(s)
  {
    if s != [] {
      UnescapePlain(s[1..]);
      assert s == [s[0]] + s[1..];
    }
  }

  // ---------------------------------------------------------------------------
  // Object.entries(data).sort()
  // ---------------------------------------------------------------------------

  /** One entry `[key, value]` of `Object.entries(data)`. */
  type Entry = (string, Value)

  /** The string the default array sort compares: `String([key, value])`. */
  function EntryString(e: Entry): string {
    ToJsString(Arr([Str(e.0), e.1]))
  }

  lemma EntryStringShape(e: Entry)
    ensures EntryString(e) == e.0 + "," + ElementString(e.1)
  {
    var v := Arr([Str(e.0), e.1]);
    assert ElementString(Str(e.0)) == e.0;
    assert JoinElements(v, 1) == ElementString(e.1);
    assert JoinElements(v, 0) == e.0 + "," + ElementString(e.1);
  }

  predicate EntryLess(x: Entry, y: Entry) {
    StrLess(EntryString(x), EntryString(y))
  }

  /** Insertion of `x` in front of the first element that does not sort below
      it, so that among equal strings the original order is kept. */
  function Insert(x: Entry, s: seq<Entry>): (r: seq<Entry>)
    ensures multiset(r) == multiset(s) + multiset{x}
  {
    if s == [] || !EntryLess(s[0], x) then [x] + s
    else
      assert s == [s[0]] + s[1..];
      [s[0]] + Insert(x, s[1..])
  }

  /** `Array.prototype.sort()` without a comparator: a stable sort by EntryString. */
  function SortEntries(s: seq<Entry>): (r: seq<Entry>)
    ensures multiset(r) == multiset(s)
  {
    if s == [] then []
    else
      assert s == [s[0]] + s[1..];
      Insert(s[0], SortEntries(s[1..]))
  }

  /** No element sorts below an earlier one. */
  predicate Sorted(s: seq<Entry>) {
    forall i, j :: 0 <= i < j < |s| ==> !EntryLess(s[j], s[i])
  }

  /** "Does not sort below" is transitive. */
  lemma NotLessTransitive(a: Entry, b: Entry, c: Entry)
    requires !EntryLess(b, a) && !EntryLess(c, b)
    ensures !EntryLess(c, a)
  {
    StrLessTotal(EntryString(a), EntryString(b));
    if EntryString(a) != EntryString(b) && EntryLess(c, a) {
      StrLessTransitive(EntryString(c), EntryString(a), EntryString(b));
    }
  }

  lemma {:induction false} InsertSorted(x: Entry, s: seq<Entry>)
    requires Sorted(s)
    ensures Sorted(Insert(x, s))
  {
    var r := Insert(x, s);
    if s == [] || !EntryLess(s[0], x) {
      forall i, j | 0 <= i < j < |r|
        ensures !EntryLess(r[j], r[i])
      {
        if i == 0 {
          if j > 1 {
            NotLessTransitive(x, s[0], s[j - 1]);
          }
        }
      }
    } else {
      InsertSorted(x, s[1..]);
      var t := Insert(x, s[1..]);
      assert r == [s[0]] + t;
      forall j | 0 <= j < |t|
        ensures !EntryLess(t[j], s[0])
      {
        assert t[j] in multiset(t);
        if t[j] == x {
          StrLessAsymmetric(EntryString(s[0]), EntryString(x));
        } else {
          assert t[j] in multiset(s[1..]);
          var k :| 0 <= k < |s[1..]| && s[1..][k] == t[j];
          assert s[k + 1] == t[j];
        }
      }
    }
  }

  lemma {:induction false} SortEntriesSorted(s: seq<Entry>)
    ensures Sorted(SortEntries(s))
  {
    if s != [] {
      SortEntriesSorted(s[1..]);
      InsertSorted(s[0], SortEntries(s[1..]));
    }
  }

  // ---------------------------------------------------------------------------
  // Field names: distinct, and free of ','
  // ---------------------------------------------------------------------------

  predicate CommaFree(k: string) {
    ',' !in k
  }

  /** A name that is not an array index. An object enumerates index-like names
      first, in numeric order, and the others in insertion order; the model's
      key follows the sorted entries, so it holds only for names of the second
      kind, such as those starting with something other than a digit. */
  predicate PlainName(k: string) {
    CommaFree(k) && (k == [] || !('0' <= k[0] <= '9'))
  }

  /** The field names of an object literal: pairwise distinct; the service's own
      names contain no ',' and are not index-like. */
  predicate WellKeyed(s: seq<Entry>) {
    (forall i :: 0 <= i < |s| ==> PlainName(s[i].0)) &&
    (forall i, j :: 0 <= i < j < |s| ==> s[i].0 != s[j].0)
  }

  /** No entry of `s` has field name `k`. */
  predicate NoKey(k: string, s: seq<Entry>) {
    forall i :: 0 <= i < |s| ==> s[i].0 != k
  }

  /** An entry whose name is new may go in front of a well-keyed list. */
  lemma WellKeyedCons(x: Entry, s: seq<Entry>)
    requires WellKeyed(s) && PlainName(x.0) && NoKey(x.0, s)
    ensures WellKeyed([x] + s)
  {
    var r := [x] + s;
    assert forall i :: 0 < i < |r| ==> r[i] == s[i - 1];
  }

  /** Inserting an entry with another name adds no entry named `k`. */
  lemma {:induction false} NoKeyInsert(k: string, x: Entry, s: seq<Entry>)
    requires NoKey(k, s) && x.0 != k
    ensures NoKey(k, Insert(x, s))
  {
    if s != [] && EntryLess(s[0], x) {
      NoKeyInsert(k, x, s[1..]);
      assert Insert(x, s) == [s[0]] + Insert(x, s[1..]);
    }
  }

  lemma {:induction false} InsertWellKeyed(x: Entry, s: seq<Entry>)
    requires WellKeyed(s) && PlainName(x.0) && NoKey(x.0, s)
    ensures WellKeyed(Insert(x, s))
  {
    if s == [] || !EntryLess(s[0], x) {
      WellKeyedCons(x, s);
    } else {
      assert WellKeyed(s[1..]) && NoKey(x.0, s[1..]) && NoKey(s[0].0, s[1..]);
      InsertWellKeyed(x, s[1..]);
      NoKeyInsert(s[0].0, x, s[1..]);
      WellKeyedCons(s[0], Insert(x, s[1..]));
    }
  }

  lemma {:induction false} SortEntriesWellKeyed(s: seq<Entry>)
    requires WellKeyed(s)
    ensures WellKeyed(SortEntries(s))
  {
    if s != [] {
      assert WellKeyed(s[1..]);
      SortEntriesWellKeyed(s[1..]);
      var t := SortEntries(s[1..]);
      forall j | 0 <= j < |t|
        ensures t[j].0 != s[0].0
      {
        assert t[j] in multiset(s[1..]);
        var k :| 0 <= k < |s[1..]| && s[1..][k] == t[j];
        assert s[k + 1] == t[j];
      }
      InsertWellKeyed(s[0], t);
    }
  }

  /** With distinct comma-free names, entry strings differ as the names do. */
  lemma EntryStringsDiffer(x: Entry, y: Entry)
    requires CommaFree(x.0) && CommaFree(y.0) && x.0 != y.0
    ensures EntryString(x) != EntryString(y)
  {
    EntryStringShape(x);
    EntryStringShape(y);
    var a, b := EntryString(x), EntryString(y);
    if |x.0| < |y.0| {
      assert a[|x.0|] == ',' && b[|x.0|] == y.0[|x.0|];
    } else if |y.0| < |x.0| {
      assert b[|y.0|] == ',' && a[|y.0|] == x.0[|y.0|];
    } else {
      assert a[..|x.0|] == x.0 && b[..|y.0|] == y.0;
    }
  }

  /** Every element sorts strictly below every later one. */
  ghost predicate StrictlySorted<T(!new)>(s: seq<T>, less: (T, T) -> bool) {
    forall i, j :: 0 <= i < j < |s| ==> less(s[i], s[j])
  }

  lemma SortedStrict(s: seq<Entry>)
    requires Sorted(s) && WellKeyed(s)
    ensures StrictlySorted(s, EntryLess)
  {
    forall i, j | 0 <= i < j < |s|
      ensures EntryLess(s[i], s[j])
    {
      EntryStringsDiffer(s[i], s[j]);
      StrLessTotal(EntryString(s[i]), EntryString(s[j]));
    }
  }

  lemma SameHead<T(!new)>(a: seq<T>, b: seq<T>, less: (T, T) -> bool)
    requires forall x, y :: less(x, y) ==> !less(y, x)
    requires StrictlySorted(a, less) && StrictlySorted(b, less)
    requires multiset(a) == multiset(b) && a != []
    ensures b != [] && a[0] == b[0]
  {
    assert a[0] in multiset(b);
    assert b[0] in multiset(a);
    var j :| 0 <= j < |b| && b[j] == a[0];
    var i :| 0 <= i < |a| && a[i] == b[0];
  }

  lemma DropHead<T>(a: seq<T>, b: seq<T>)
    requires multiset(a) == multiset(b) && a != [] && b != [] && a[0] == b[0]
    ensures multiset(a[1..]) == multiset(b[1..])
  {
    assert a == [a[0]] + a[1..] && b == [b[0]] + b[1..];
    assert multiset(a[1..]) == multiset(a) - multiset([a[0]]);
    assert multiset(b[1..]) == multiset(b) - multiset([b[0]]);
  }

  /** Two strictly sorted sequences with the same elements are the same sequence. */
  lemma {:induction false} StrictlySortedUnique<T(!new)>(a: seq<T>, b: seq<T>, less: (T, T) -> bool)
    requires forall x, y :: less(x, y) ==> !less(y, x)
    requires StrictlySorted(a, less) && StrictlySorted(b, less)
    requires multiset(a) == multiset(b)
    ensures a == b
  {
    if a != [] {
      SameHead(a, b, less);
      DropHead(a, b);
      assert StrictlySorted(a[1..], less) && StrictlySorted(b[1..], less);
      StrictlySortedUnique(a[1..], b[1..], less);
      assert a == [a[0]] + a[1..] && b == [b[0]] + b[1..];
    } else {
      assert |multiset(b)| == 0;
    }
  }

  // ---------------------------------------------------------------------------
  // querystring.stringify(Object.fromEntries(entries), ',')
  // ---------------------------------------------------------------------------

  predicate NoArrays(s: seq<Entry>) {
    forall i :: 0 <= i < |s| ==> !s[i].1.Arr?
  }

  /** How `querystring.stringify` writes a value that is not an array: strings
      escaped, integers and booleans as `String(v)`, anything else as "". */
  function QsValue(v: Value): (r: string)
    requires !v.Arr?
    ensures ',' !in r && '=' !in r
  {
    match v
    case Str(s) => Escape(s)
    case Num(n) => IntToString(n)
    case Bool(b) => if b then "true" else "false"
    case _ => ""
  }

  /** The text a value stands for in the key, before escaping. */
  function PlainValue(v: Value): string {
    match v
    case Str(s) => s
    case Num(n) => IntToString(n)
    case Bool(b) => if b then "true" else "false"
    case _ => ""
  }

  /** One `key=value` field. */
  function Field(e: Entry): string
    requires !e.1.Arr?
  {
    Escape(e.0) + "=" + QsValue(e.1)
  }

  /** The fields of the entries in order, separated by ','. */
  function Fields(s: seq<Entry>): string
    requires NoArrays(s)
  {
    if s == [] then ""
    else if |s| == 1 then Field(s[0])
    else Field(s[0]) + "," + Fields(s[1..])
  }

  lemma SortEntriesNoArrays(s: seq<Entry>)
    requires NoArrays(s)
    ensures NoArrays(SortEntries(s))
  {
    var r := SortEntries(s);
    forall i | 0 <= i < |r| ensures !r[i].1.Arr? {
      assert r[i] in multiset(s);
    }
  }

  /** `makeRedisKey(data)`, for the entries of `data` in their insertion order. */
  function MakeRedisKey(entries: seq<Entry>): (key: string)
    requires NoArrays(entries)
    ensures |key| >= 6 && key[..6] == "avito#"
  {
    SortEntriesNoArrays(entries);
    "avito#" + Fields(SortEntries(entries))
  }

  // ---------------------------------------------------------------------------
  // Reading a key back
  // ---------------------------------------------------------------------------

  /** `s.split(sep)`. */
  function SplitOn(s: string, sep: char): (r: seq<string>)
    ensures |r| >= 1
  {
    if s == [] then [""]
    else
      var rest := SplitOn(s[1..], sep);
      if s[0] == sep then [""] + rest else [[s[0]] + rest[0]] + rest[1..]
  }

  lemma {:induction false} SplitOnAbsent(x: string, sep: char)
    requires sep !in x
    ensures SplitOn(x, sep) == [x]
  {
    if x != [] {
      SplitOnAbsent(x[1..], sep);
      assert x == [x[0]] + x[1..];
    }
  }

  lemma {:induction false} SplitOnFirst(x: string, sep: char, y: string)
    requires sep !in x
    ensures SplitOn(x + [sep] + y, sep) == [x] + SplitOn(y, sep)
  {
    var s := x + [sep] + y;
    if x == [] {
      assert s[1..] == y;
    } else {
      assert s[1..] == x[1..] + [sep] + y;
      SplitOnFirst(x[1..], sep, y);
      assert x == [x[0]] + x[1..];
    }
  }

  /** The text of each field, read back as a pair of strings. */
  function ParseField(f: string): Option<(string, string)> {
    var parts := SplitOn(f, '=');
    if |parts| != 2 then None
    else
      match (Unescape(parts[0]), Unescape(parts[1]))
      case (Some(k), Some(v)) => Some((k, v))
      case _ => None
  }

  function ParseFieldList(fs: seq<string>): Option<seq<(string, string)>> {
    if fs == [] then Some([])
    else
      match (ParseField(fs[0]), ParseFieldList(fs[1..]))
      case (Some(p), Some(ps)) => Some([p] + ps)
      case _ => None
  }

  /** The inverse of MakeRedisKey: the `(name, value)` pairs a key was built from,
      in key order. */
  function ParseKey(key: string): Option<seq<(string, string)>> {
    if |key| < 6 || key[..6] != "avito#" then None
    else if key[6..] == "" then Some([])
    else ParseFieldList(SplitOn(key[6..], ','))
  }

  /** The pairs an entry list stands for, values written out as text. */
  function Rendered(s: seq<Entry>): (r: seq<(string, string)>)
    ensures |r| == |s|
    ensures forall i :: 0 <= i < |s| ==> r[i] == (s[i].0, PlainValue(s[i].1))
  {
    if s == [] then [] else [(s[0].0, PlainValue(s[0].1))] + Rendered(s[1..])
  }

  lemma UnescapeQsValue(v: Value)
    requires !v.Arr?
    ensures Unescape(QsValue(v)) == Some(PlainValue(v))
  {
    match v
    case Str(s) => UnescapeEscape(s);
    case Num(n) => UnescapePlain(IntToString(n));
    case Bool(b) => UnescapePlain(if b then "true" else "false");
    case _ =>
  }

  lemma ParseFieldOf(e: Entry)
    requires !e.1.Arr?
    ensures ParseField(Field(e)) == Some((e.0, PlainValue(e.1)))
  {
    SplitOnFirst(Escape(e.0), '=', QsValue(e.1));
    SplitOnAbsent(QsValue(e.1), '=');
    assert Field(e) == Escape(e.0) + ['='] + QsValue(e.1);
    UnescapeEscape(e.0);
    UnescapeQsValue(e.1);
  }

  function FieldTexts(s: seq<Entry>): seq<string>
    requires NoArrays(s)
  {
    if s == [] then [] else [Field(s[0])] + FieldTexts(s[1..])
  }

  lemma {:induction false} SplitFields(s: seq<Entry>)
    requires NoArrays(s) && s != []
    ensures SplitOn(Fields(s), ',') == FieldTexts(s)
  {
    if |s| == 1 {
      SplitOnAbsent(Field(s[0]), ',');
    } else {
      SplitFields(s[1..]);
      SplitOnFirst(Field(s[0]), ',', Fields(s[1..]));
      assert Fields(s) == Field(s[0]) + [','] + Fields(s[1..]);
    }
  }

  lemma {:induction false} ParseFieldTexts(s: seq<Entry>)
    requires NoArrays(s)
    ensures ParseFieldList(FieldTexts(s)) == Some(Rendered(s))
  {
    if s != [] {
      ParseFieldOf(s[0]);
      ParseFieldTexts(s[1..]);
      assert FieldTexts(s)[1..] == FieldTexts(s[1..]);
    }
  }

  /** A key is read back as the rendered entries in sorted order. */
  lemma ParseMakeRedisKey(entries: seq<Entry>)
    requires NoArrays(entries)
    ensures ParseKey(MakeRedisKey(entries)) == Some(Rendered(SortEntries(entries)))
  {
    SortEntriesNoArrays(entries);
    var sorted := SortEntries(entries);
    var key := MakeRedisKey(entries);
    assert key[6..] == Fields(sorted);
    if sorted != [] {
      assert Field(sorted[0]) != [];
      assert Fields(sorted) != [] by {
        if |sorted| > 1 { assert Fields(sorted)[0] == Field(sorted[0])[0]; }
      }
      SplitFields(sorted);
      ParseFieldTexts(sorted);
    }
  }

  // ---------------------------------------------------------------------------
  // Order independence and injectivity
  // ---------------------------------------------------------------------------

  lemma EntryLessAsymmetric()
    ensures forall x, y :: EntryLess(x, y) ==> !EntryLess(y, x)
  {
    forall x, y | EntryLess(x, y) ensures !EntryLess(y, x) {
      StrLessAsymmetric(EntryString(x), EntryString(y));
    }
  }

  lemma SortedEntriesStrict(s: seq<Entry>)
    requires WellKeyed(s)
    ensures StrictlySorted(SortEntries(s), EntryLess)
  {
    SortEntriesSorted(s);
    SortEntriesWellKeyed(s);
    SortedStrict(SortEntries(s));
  }

  /** makeRedisKey does not depend on the order in which the fields were
      written: two objects with the same entries give the same key. */
  lemma MakeRedisKeyOrderIndependent(e1: seq<Entry>, e2: seq<Entry>)
    requires NoArrays(e1) && NoArrays(e2) && WellKeyed(e1) && WellKeyed(e2)
    requires multiset(e1) == multiset(e2)
    ensures MakeRedisKey(e1) == MakeRedisKey(e2)
  {
    SortedEntriesStrict(e1);
    SortedEntriesStrict(e2);
    EntryLessAsymmetric();
    StrictlySortedUnique(SortEntries(e1), SortEntries(e2), EntryLess);
  }

  /** The order of two comma-free names, followed by ',' and anything, is the
      order of the names followed by ','. */
  lemma {:induction false} CommaSuffixOrder(k1: string, k2: string, a: string, b: string)
    requires CommaFree(k1) && CommaFree(k2) && k1 != k2
    ensures StrLess(k1 + [','] + a, k2 + [','] + b) == StrLess(k1 + [','], k2 + [','])
  {
    var x, y := k1 + [','] + a, k2 + [','] + b;
    if k1 == [] {
      assert x[0] == ',' && y[0] == k2[0] && (k2 + [','])[0] == k2[0];
    } else if k2 == [] {
      assert y[0] == ',' && x[0] == k1[0] && (k1 + [','])[0] == k1[0];
    } else if k1[0] != k2[0] {
      assert x[0] == k1[0] && y[0] == k2[0];
    } else {
      assert x[1..] == k1[1..] + [','] + a && y[1..] == k2[1..] + [','] + b;
      assert (k1 + [','])[1..] == k1[1..] + [','] && (k2 + [','])[1..] == k2[1..] + [','];
      assert k1 == [k1[0]] + k1[1..] && k2 == [k2[0]] + k2[1..];
      CommaSuffixOrder(k1[1..], k2[1..], a, b);
    }
  }

  /** The order of rendered pairs that the sort induces: by name alone. */
  predicate PairLess(p: (string, string), q: (string, string)) {
    StrLess(p.0 + [','], q.0 + [','])
  }

  lemma RenderedSortedStrict(s: seq<Entry>)
    requires WellKeyed(s)
    ensures StrictlySorted(Rendered(SortEntries(s)), PairLess)
  {
    SortedEntriesStrict(s);
    SortEntriesWellKeyed(s);
    var t := SortEntries(s);
    forall i, j | 0 <= i < j < |t|
      ensures PairLess(Rendered(t)[i], Rendered(t)[j])
    {
      EntryStringShape(t[i]);
      EntryStringShape(t[j]);
      CommaSuffixOrder(t[i].0, t[j].0, ElementString(t[i].1), ElementString(t[j].1));
    }
  }

  lemma RenderedCons(e: Entry, t: seq<Entry>)
    ensures Rendered([e] + t) == [(e.0, PlainValue(e.1))] + Rendered(t)
  {
    assert ([e] + t)[1..] == t;
  }

  lemma {:induction false} RenderedInsert(x: Entry, s: seq<Entry>)
    ensures multiset(Rendered(Insert(x, s))) == multiset(Rendered(s)) + multiset{(x.0, PlainValue(x.1))}
  {
    if s == [] || !EntryLess(s[0], x) {
      RenderedCons(x, s);
    } else {
      RenderedInsert(x, s[1..]);
      RenderedCons(s[0], Insert(x, s[1..]));
    }
  }

  lemma {:induction false} RenderedSort(s: seq<Entry>)
    ensures multiset(Rendered(SortEntries(s))) == multiset(Rendered(s))
  {
    if s != [] {
      RenderedSort(s[1..]);
      RenderedInsert(s[0], SortEntries(s[1..]));
      assert Rendered(s) == [(s[0].0, PlainValue(s[0].1))] + Rendered(s[1..]);
    }
  }

  /** The text of a field, from its rendered pair. */
  function PairField(p: (string, string)): string {
    Escape(p.0) + "=" + Escape(p.1)
  }

  function PairFields(ps: seq<(string, string)>): string {
    if ps == [] then ""
    else if |ps| == 1 then PairField(ps[0])
    else PairField(ps[0]) + "," + PairFields(ps[1..])
  }

  lemma QsValueIsEscaped(v: Value)
    requires !v.Arr?
    ensures QsValue(v) == Escape(PlainValue(v))
  {
    match v
    case Num(n) => EscapeUnreserved(IntToString(n));
    case Bool(b) =>
      if b { EscapeUnreserved("true"); } else { EscapeUnreserved("false"); }
    case _ =>
  }

  lemma {:induction false} FieldsOfRendered(s: seq<Entry>)
    requires NoArrays(s)
    ensures Fields(s) == PairFields(Rendered(s))
  {
    if s != [] {
      QsValueIsEscaped(s[0].1);
      if |s| > 1 {
        FieldsOfRendered(s[1..]);
        assert Rendered(s)[1..] == Rendered(s[1..]);
      }
    }
  }

  /** Two objects with distinct comma-free field names have the same key iff
      they hold the same fields with the same values as written by `String`. */
  lemma MakeRedisKeyEqualIff(e1: seq<Entry>, e2: seq<Entry>)
    requires NoArrays(e1) && NoArrays(e2) && WellKeyed(e1) && WellKeyed(e2)
    ensures MakeRedisKey(e1) == MakeRedisKey(e2) <==> multiset(Rendered(e1)) == multiset(Rendered(e2))
  {
    RenderedSort(e1);
    RenderedSort(e2);
    if MakeRedisKey(e1) == MakeRedisKey(e2) {
      ParseMakeRedisKey(e1);
      ParseMakeRedisKey(e2);
    }
    if multiset(Rendered(e1)) == multiset(Rendered(e2)) {
      RenderedSortedStrict(e1);
      RenderedSortedStrict(e2);
      forall p, q | PairLess(p, q) ensures !PairLess(q, p) {
        StrLessAsymmetric(p.0 + [','], q.0 + [',']);
      }
      StrictlySortedUnique(Rendered(SortEntries(e1)), Rendered(SortEntries(e2)), PairLess);
      SortEntriesNoArrays(e1);
      SortEntriesNoArrays(e2);
      FieldsOfRendered(SortEntries(e1));
      FieldsOfRendered(SortEntries(e2));
    }
  }

  /** The field names the service builds its keys from. */
  const ApplyIdName: string := "apply_id"
  const VacancyIdName: string := "vacancy_id"
  const ApplicantIdName: string := "applicant_id"
}
