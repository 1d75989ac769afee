/** Text as the canonical encodings see it: UTF-8, whitespace stripping and UTC timestamps. */
module Text {
  import opened Bytes

  /** UTF-8 of one Unicode scalar value (RFC 3629, section 3). */
  function Utf8Char(c: char): (s: Bytes)
    ensures 1 <= |s| <= 4
  {
    var n := c as int;
    if n < 0x80 then [n]
    else if n < 0x800 then [0xC0 + n / 64, 0x80 + n % 64]
    else if n < 0x10000 then [0xE0 + n / 4096, 0x80 + n / 64 % 64, 0x80 + n % 64]
    else [0xF0 + n / 262144, 0x80 + n / 4096 % 64, 0x80 + n / 64 % 64, 0x80 + n % 64]
  }

  /** `str.encode("utf-8")`. */
  function Utf8(s: string): Bytes {
    if s == "" then [] else Utf8Char(s[0]) + Utf8(s[1..])
  }

  lemma {:induction false} Utf8Size(s: string)
    ensures |Utf8(s)| <= 4 * |s|
  {
    if s != [] { Utf8Size(s[1..]); }
  }

  /** The code point spelled by the first k bytes of s, given their lead-byte class. */
  function ReadChar(s: Bytes, k: nat): int
    requires 1 <= k <= 4 && k <= |s|
  {
    if k == 1 then s[0]
    else if k == 2 then (s[0] as int - 0xC0) * 64 + (s[1] as int - 0x80)
    else if k == 3 then (s[0] as int - 0xE0) * 4096 + (s[1] as int - 0x80) * 64 + (s[2] as int - 0x80)
    else (s[0] as int - 0xF0) * 262144 + (s[1] as int - 0x80) * 4096 + (s[2] as int - 0x80) * 64 + (s[3] as int - 0x80)
  }

  /** How many bytes a lead byte announces. */
  function LeadLength(b: Byte): nat {
    if b < 0x80 then 1 else if b < 0xE0 then 2 else if b < 0xF0 then 3 else 4
  }

  lemma ReadCharInverts(c: char)
    ensures |Utf8Char(c)| == LeadLength(Utf8Char(c)[0])
    ensures ReadChar(Utf8Char(c), |Utf8Char(c)|) == c as int
  {
    SixBitGroups(c as int);
  }

  lemma SixBitGroups(n: nat)
    ensures n == n / 64 * 64 + n % 64
    ensures n / 64 == n / 4096 * 64 + n / 64 % 64
    ensures n / 4096 == n / 262144 * 64 + n / 4096 % 64
  {
    assert n / 4096 == n / 64 / 64;
    assert n / 262144 == n / 4096 / 64;
  }

  /** The lead byte gives the length, so a character can be read off the front of any byte string. */
  lemma Utf8CharPrefixFree(c: char, x: Bytes, d: char, y: Bytes)
    requires Utf8Char(c) + x == Utf8Char(d) + y
    ensures c == d && x == y
  {
    assert Utf8Char(c)[0] == (Utf8Char(c) + x)[0] == (Utf8Char(d) + y)[0] == Utf8Char(d)[0];
    ReadCharInverts(c);
    ReadCharInverts(d);
    ConcatSplit(Utf8Char(c), x, Utf8Char(d), y);
  }

  lemma {:induction false} Utf8Injective(a: string, b: string)
    requires Utf8(a) == Utf8(b)
    ensures a == b
  {
    if a != "" && b != "" {
      Utf8CharPrefixFree(a[0], Utf8(a[1..]), b[0], Utf8(b[1..]));
      Utf8Injective(a[1..], b[1..]);
      assert a == [a[0]] + a[1..] && b == [b[0]] + b[1..];
    }
  }

  /** The code points `str.strip` removes. */
  predicate IsSpace(c: char) {
    var n := c as int;
    9 <= n <= 13 || 0x1C <= n <= 0x20 || n == 0x85 || n == 0xA0 || n == 0x1680 || 0x2000 <= n <= 0x200A
    || n == 0x2028 || n == 0x2029 || n == 0x202F || n == 0x205F || n == 0x3000
  }

  function StripLeft(s: string): (r: string) {
    if s != "" && IsSpace(s[0]) then StripLeft(s[1..]) else s
  }

  function StripRight(s: string): (r: string) {
    if s != "" && IsSpace(s[|s| - 1]) then StripRight(s[..|s| - 1]) else s
  }

  function Strip(s: string): string {
    StripRight(StripLeft(s))
  }

  predicate Stripped(s: string) {
    s == "" || (!IsSpace(s[0]) && !IsSpace(s[|s| - 1]))
  }

  lemma {:induction false} StripRightKeepsHead(s: string)
    requires s == "" || !IsSpace(s[0])
    ensures Stripped(StripRight(s))
  {
    if s != "" && IsSpace(s[|s| - 1]) {
      StripRightKeepsHead(s[..|s| - 1]);
    }
  }

  lemma {:induction false} StripIsStripped(s: string)
    ensures Stripped(Strip(s))
    ensures Stripped(s) ==> Strip(s) == s
  {
    if s != "" && IsSpace(s[0]) {
      StripIsStripped(s[1..]);
    } else {
      StripRightKeepsHead(s);
    }
  }

  /** A UTC instant at microsecond resolution; naive values are read as UTC before they get here. */
  datatype UtcParts = UtcParts(year: nat, month: nat, day: nat, hour: nat, minute: nat, second: nat, micro: nat)
  {
    predicate Valid() {
      1 <= year <= 9999 && 1 <= month <= 12 && 1 <= day <= 31 && hour < 24 && minute < 60 && second < 60
      && micro < 1000000
    }
  }

  type Utc = u: UtcParts | u.Valid() witness UtcParts(1970, 1, 1, 0, 0, 0, 0)

  function Pow10(k: nat): (p: nat)
    ensures p >= 1
  {
    if k == 0 then 1 else 10 * Pow10(k - 1)
  }

  /** Decimal digits of n, zero-padded to a fixed width, in ASCII. */
  function Digits(n: nat, width: nat): (s: Bytes)
    requires n < Pow10(width)
    ensures |s| == width
  {
    if width == 0 then [] else Digits(n / 10, width - 1) + [48 + n % 10]
  }

  lemma {:induction false} DigitsInjective(m: nat, n: nat, width: nat)
    requires m < Pow10(width) && n < Pow10(width)
    requires Digits(m, width) == Digits(n, width)
    ensures m == n
  {
    if width > 0 {
      ConcatSplit(Digits(m / 10, width - 1), [48 + m % 10], Digits(n / 10, width - 1), [48 + n % 10]);
      DigitsInjective(m / 10, n / 10, width - 1);
      assert [48 + m % 10][0] == [48 + n % 10][0];
    }
  }

  function Field(n: nat, width: nat, separator: Byte): (s: Bytes)
    requires n < Pow10(width)
    ensures |s| == width + 1
  {
    Digits(n, width) + [separator]
  }

  lemma FieldSplit(m: nat, x: Bytes, n: nat, y: Bytes, width: nat, separator: Byte)
    requires m < Pow10(width) && n < Pow10(width)
    requires Field(m, width, separator) + x == Field(n, width, separator) + y
    ensures m == n && x == y
  {
    ConcatSplit(Field(m, width, separator), x, Field(n, width, separator), y);
    ConcatSplit(Digits(m, width), [separator], Digits(n, width), [separator]);
    DigitsInjective(m, n, width);
  }

  lemma FieldWidths()
    ensures Pow10(2) == 100 && Pow10(4) == 10000 && Pow10(6) == 1000000
  {
    assert Pow10(1) == 10 && Pow10(3) == 1000 && Pow10(5) == 100000;
  }

  /** `YYYY-MM-DDTHH:MM:SS.ffffffZ`, with the year padded to four digits. */
  function CanonicalUtc(t: Utc): (s: Bytes)
    ensures |s| == 27
  {
    FieldWidths();
    Field(t.year, 4, 45) + (Field(t.month, 2, 45) + (Field(t.day, 2, 84) + (Field(t.hour, 2, 58)
    + (Field(t.minute, 2, 58) + (Field(t.second, 2, 46) + Field(t.micro, 6, 90))))))
  }

  lemma TimestampFits(ts: Utc)
    ensures FitsPrefix(CanonicalUtc(ts))
  {
    assert Pow256(1) == 256 && Pow256(4) >= Pow256(3) >= Pow256(2) >= Pow256(1);
  }

  lemma CanonicalUtcInjective(t: Utc, u: Utc)
    requires CanonicalUtc(t) == CanonicalUtc(u)
    ensures t == u
  {
    FieldWidths();
    var t6, u6 := Field(t.micro, 6, 90), Field(u.micro, 6, 90);
    var t5, u5 := Field(t.second, 2, 46) + t6, Field(u.second, 2, 46) + u6;
    var t4, u4 := Field(t.minute, 2, 58) + t5, Field(u.minute, 2, 58) + u5;
    var t3, u3 := Field(t.hour, 2, 58) + t4, Field(u.hour, 2, 58) + u4;
    var t2, u2 := Field(t.day, 2, 84) + t3, Field(u.day, 2, 84) + u3;
    var t1, u1 := Field(t.month, 2, 45) + t2, Field(u.month, 2, 45) + u2;
    FieldSplit(t.year, t1, u.year, u1, 4, 45);
    FieldSplit(t.month, t2, u.month, u2, 2, 45);
    FieldSplit(t.day, t3, u.day, u3, 2, 84);
    FieldSplit(t.hour, t4, u.hour, u4, 2, 58);
    FieldSplit(t.minute, t5, u.minute, u5, 2, 58);
    FieldSplit(t.second, t6, u.second, u6, 2, 46);
    assert t6 + [] == t6 && u6 + [] == u6;
    FieldSplit(t.micro, [], u.micro, [], 6, 90);
  }
}
