/**
 Text as the protocol handles it: UTF-8 bytes, lower-case hexadecimal, decimal
 numerals, and the bytewise order in which object keys are sorted.
 */
module Text {
  import opened Wrappers

  type byte = n: int | 0 <= n < 0x100
  type Bytes = seq<byte>

  // ---------------------------------------------------------------- UTF-8

  function Utf8Char(c: char): (r: Bytes)
    ensures 1 <= |r| <= 4
  {
    var n := c as int;
    if n < 0x80 then [n]
    else if n < 0x800 then [0xC0 + n / 0x40, 0x80 + n % 0x40]
    else if n < 0x1_0000 then [0xE0 + n / 0x1000, 0x80 + n / 0x40 % 0x40, 0x80 + n % 0x40]
    else [0xF0 + n / 0x4_0000, 0x80 + n / 0x1000 % 0x40, 0x80 + n / 0x40 % 0x40, 0x80 + n % 0x40]
  }

  function Utf8(s: string): Bytes {
    if s == [] then [] else Utf8Char(s[0]) + Utf8(s[1..])
  }

  /** The length of a sequence is decided by its first byte. */
  lemma Utf8CharLength(c: char)
    ensures |Utf8Char(c)| ==
            (var b := Utf8Char(c)[0]; if b < 0xC0 then 1 else if b < 0xE0 then 2 else if b < 0xF0 then 3 else 4)
  {
  }

  /** No encoded character is the beginning of another one. */
  lemma Utf8CharPrefixCode(c: char, d: char, s: Bytes, t: Bytes)
    requires Utf8Char(c) + s == Utf8Char(d) + t
    ensures c == d && s == t
  {
    var x, y := Utf8Char(c), Utf8Char(d);
    assert (x + s)[0] == x[0] && (y + t)[0] == y[0];
    Utf8CharLength(c);
    Utf8CharLength(d);
    assert |x| == |y|;
    assert x == (x + s)[..|x|] == (y + t)[..|y|] == y;
    assert s == (x + s)[|x|..] == (y + t)[|y|..] == t;
    SameUtf8Char(c, d);
  }

  /** The scalar value is read back from the bytes. */
  lemma Utf8CharValue(c: char)
    ensures var b := Utf8Char(c);
            c as int == if |b| == 1 then b[0] as int
                        else if |b| == 2 then (b[0] as int - 0xC0) * 0x40 + (b[1] as int - 0x80)
                        else if |b| == 3 then (b[0] as int - 0xE0) * 0x1000 + (b[1] as int - 0x80) * 0x40 + (b[2] as int - 0x80)
                        else (b[0] as int - 0xF0) * 0x4_0000 + (b[1] as int - 0x80) * 0x1000 + (b[2] as int - 0x80) * 0x40 + (b[3] as int - 0x80)
  {
    var n := c as int;
    SplitBy64(n);
    SplitBy64(n / 0x40);
    SplitBy64(n / 0x1000);
  }

  lemma SplitBy64(n: nat)
    ensures n == n / 0x40 * 0x40 + n % 0x40 && n / 0x40 / 0x40 == n / 0x1000 && n / 0x1000 / 0x40 == n / 0x4_0000
  {
  }

  lemma SameUtf8Char(c: char, d: char)
    requires Utf8Char(c) == Utf8Char(d)
    ensures c == d
  {
    Utf8CharValue(c);
    Utf8CharValue(d);
  }

  lemma {:induction false} Utf8Prefix(a: string, b: string)
    requires Utf8(a) <= Utf8(b)
    ensures a <= b
  {
    if a != [] {
      assert Utf8(b) == Utf8(a) + Utf8(b)[|Utf8(a)|..];
      assert b != [];
      var s := Utf8(a[1..]) + Utf8(b)[|Utf8(a)|..];
      assert Utf8Char(a[0]) + s == Utf8Char(b[0]) + Utf8(b[1..]);
      Utf8CharPrefixCode(a[0], b[0], s, Utf8(b[1..]));
      Utf8Prefix(a[1..], b[1..]);
    }
  }

  lemma Utf8Injective(a: string, b: string)
    requires Utf8(a) == Utf8(b)
    ensures a == b
  {
    Utf8Prefix(a, b);
    Utf8Prefix(b, a);
  }

  /** On ASCII text the encoding keeps every position. */
  lemma {:induction false} Utf8Ascii(s: string)
    requires forall i | 0 <= i < |s| :: s[i] as int < 0x80
    ensures |Utf8(s)| == |s| && forall i | 0 <= i < |s| :: Utf8(s)[i] == s[i] as int
  {
    if s != [] {
      Utf8Ascii(s[1..]);
      assert Utf8(s) == [s[0] as int] + Utf8(s[1..]);
    }
  }

  // ------------------------------------------------------- bytewise order

  predicate BytesBefore(a: Bytes, b: Bytes) {
    b != [] && (a == [] || a[0] < b[0] || (a[0] == b[0] && BytesBefore(a[1..], b[1..])))
  }

  lemma {:induction false} BytesBeforeTotal(a: Bytes, b: Bytes)
    ensures a == b || BytesBefore(a, b) || BytesBefore(b, a)
  {
    if a != [] && b != [] {
      assert a == [a[0]] + a[1..] && b == [b[0]] + b[1..];
      BytesBeforeTotal(a[1..], b[1..]);
    }
  }

  lemma {:induction false} BytesBeforeStrict(a: Bytes, b: Bytes)
    requires BytesBefore(a, b)
    ensures !BytesBefore(b, a) && a != b
  {
    if a != [] && a[0] == b[0] {
      BytesBeforeStrict(a[1..], b[1..]);
    }
  }

  lemma {:induction false} BytesBeforeTransitive(a: Bytes, b: Bytes, c: Bytes)
    requires BytesBefore(a, b) && BytesBefore(b, c)
    ensures BytesBefore(a, c)
  {
    if a != [] && a[0] == b[0] == c[0] {
      BytesBeforeTransitive(a[1..], b[1..], c[1..]);
    }
  }

  /** Object keys are compared as UTF-8 bytes. */
  predicate KeyBefore(a: string, b: string) {
    BytesBefore(Utf8(a), Utf8(b))
  }

  lemma KeyBeforeTotal(a: string, b: string)
    ensures a == b || KeyBefore(a, b) || KeyBefore(b, a)
  {
    BytesBeforeTotal(Utf8(a), Utf8(b));
    if Utf8(a) == Utf8(b) {
      Utf8Injective(a, b);
    }
  }

  // ---------------------------------------------------------- hexadecimal

  predicate IsHexDigit(c: char) {
    '0' <= c <= '9' || 'a' <= c <= 'f'
  }

  predicate AllHex(s: string) {
    forall i | 0 <= i < |s| :: IsHexDigit(s[i])
  }

  function HexDigit(n: int): (c: char)
    requires 0 <= n < 16
    ensures IsHexDigit(c) && HexValue(c) == n
  {
    "0123456789abcdef"[n]
  }

  function HexValue(c: char): (n: int)
    requires IsHexDigit(c)
    ensures 0 <= n < 16
  {
    if c <= '9' then c as int - '0' as int else c as int - 'a' as int + 10
  }

  lemma HexValueInjective(c: char, d: char)
    requires IsHexDigit(c) && IsHexDigit(d) && HexValue(c) == HexValue(d)
    ensures c == d
  {
  }

  /** Reads pairs of lower-case digits; other text is refused. */
  function DecodeHex(s: string): (r: Option<Bytes>)
    ensures r.Some? <==> |s| % 2 == 0 && AllHex(s)
    ensures r.Some? ==> 2 * |r.value| == |s|
  {
    if |s| % 2 != 0 || !AllHex(s) then None else Some(HexPairs(s))
  }

  function HexPairs(s: string): (r: Bytes)
    requires |s| % 2 == 0 && AllHex(s)
    ensures 2 * |r| == |s|
  {
    if s == [] then [] else [HexValue(s[0]) * 16 + HexValue(s[1])] + HexPairs(s[2..])
  }

  function HexText(bytes: Bytes): (s: string)
    ensures |s| == 2 * |bytes| && AllHex(s)
  {
    if bytes == [] then "" else [HexDigit(bytes[0] / 16), HexDigit(bytes[0] % 16)] + HexText(bytes[1..])
  }

  lemma {:induction false} HexTextStep(bytes: Bytes, b: byte)
    ensures HexText(bytes + [b]) == HexText(bytes) + [HexDigit(b / 16), HexDigit(b % 16)]
  {
    if bytes != [] {
      HexTextStep(bytes[1..], b);
      assert (bytes + [b])[1..] == bytes[1..] + [b];
    }
  }

  lemma NoHex()
    ensures HexText([]) == ""
  {
  }

  method EncodeHex(bytes: Bytes) returns (out: string)
    ensures out == HexText(bytes)
  {
    hide HexText, HexDigit;
    out := "";
    NoHex();
    for i := 0 to |bytes|
      invariant out == HexText(bytes[..i])
    {
      HexTextStep(bytes[..i], bytes[i]);
      assert bytes[..i] + [bytes[i]] == bytes[..i + 1];
      out := out + [HexDigit(bytes[i] / 16)];
      out := out + [HexDigit(bytes[i] % 16)];
    }
    assert bytes[..|bytes|] == bytes;
  }

  lemma {:induction false} HexRoundTrip(bytes: Bytes)
    ensures DecodeHex(HexText(bytes)) == Some(bytes)
  {
    if bytes != [] {
      var s := HexText(bytes);
      HexRoundTrip(bytes[1..]);
      assert s[2..] == HexText(bytes[1..]);
      assert HexPairs(s) == [HexValue(s[0]) * 16 + HexValue(s[1])] + HexPairs(s[2..]);
      assert HexValue(s[0]) * 16 + HexValue(s[1]) == bytes[0];
      assert bytes == [bytes[0]] + bytes[1..];
    }
  }

  /** Only lower-case digits are read, so a byte string has one spelling. */
  lemma {:induction false} HexPairsOfText(s: string)
    requires DecodeHex(s).Some?
    ensures HexText(DecodeHex(s).value) == s
  {
    if s != [] {
      HexPairsOfText(s[2..]);
      assert s == [s[0], s[1]] + s[2..];
      var v := HexValue(s[0]) * 16 + HexValue(s[1]);
      assert v / 16 == HexValue(s[0]) && v % 16 == HexValue(s[1]);
      HexValueInjective(s[0], HexDigit(v / 16));
      HexValueInjective(s[1], HexDigit(v % 16));
      assert HexPairs(s) == [v] + HexPairs(s[2..]);
    }
  }

  lemma DecodeHexInjective(a: string, b: string)
    requires DecodeHex(a).Some? && DecodeHex(a) == DecodeHex(b)
    ensures a == b
  {
    HexPairsOfText(a);
    HexPairsOfText(b);
  }

  // -------------------------------------------------------------- decimal

  predicate IsDigit(c: char) {
    '0' <= c <= '9'
  }

  function Decimal(n: nat): (s: string)
    ensures |s| > 0 && forall c | c in s :: IsDigit(c)
    ensures DecimalValue(s) == n
  {
    var last := ['0' + (n % 10) as char];
    if n < 10 then last else Decimal(n / 10) + last
  }

  function DecimalValue(s: string): int {
    if s == [] then 0 else 10 * DecimalValue(s[..|s| - 1]) + (s[|s| - 1] as int - '0' as int)
  }

  lemma DecimalInjective(m: nat, n: nat)
    requires Decimal(m) == Decimal(n)
    ensures m == n
  {
    assert DecimalValue(Decimal(m)) == DecimalValue(Decimal(n));
  }
}
