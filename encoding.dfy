/** Bytes, UTF-8 encoding of strings (what `Buffer.byteLength(s, "utf8")`
    counts and `stdout.write(s)` emits) and decimal numerals. */
module Encoding {

  type Byte = b: int | 0 <= b < 256

  /** Number of bytes UTF-8 uses for one Unicode scalar value. */
  function Utf8Width(c: char): (w: nat)
    ensures 1 <= w <= 4
    ensures w == 1 <==> c as int < 0x80
  {
    var cp := c as int;
    if cp < 0x80 then 1 else if cp < 0x800 then 2 else if cp < 0x10000 then 3 else 4
  }

  /** The UTF-8 encoding of one character. A multi-byte encoding contains no
      byte below 0x80, so ASCII bytes in an encoded text are exactly its
      ASCII characters. */
  function EncodeChar(c: char): (bs: seq<Byte>)
    ensures |bs| == Utf8Width(c)
    ensures c as int < 0x80 ==> bs == [c as int]
    ensures c as int >= 0x80 ==> forall i :: 0 <= i < |bs| ==> bs[i] >= 0x80
  {
    var cp := c as int;
    if cp < 0x80 then [cp]
    else if cp < 0x800 then [0xC0 + cp / 64, 0x80 + cp % 64]
    else if cp < 0x10000 then [0xE0 + cp / 4096, 0x80 + (cp / 64) % 64, 0x80 + cp % 64]
    else [0xF0 + cp / 262144, 0x80 + (cp / 4096) % 64, 0x80 + (cp / 64) % 64, 0x80 + cp % 64]
  }

  /** The UTF-8 encoding of a string. */
  function Utf8(s: string): seq<Byte>
  {
    if s == [] then [] else EncodeChar(s[0]) + Utf8(s[1..])
  }

  /** The total UTF-8 width of a string, character by character. */
  function Width(s: string): nat
  {
    if s == [] then 0 else Utf8Width(s[0]) + Width(s[1..])
  }

  predicate IsAscii(s: string)
  {
    forall i :: 0 <= i < |s| ==> s[i] as int < 0x80
  }

  lemma {:induction false} Utf8Concat(a: string, b: string)
    ensures Utf8(a + b) == Utf8(a) + Utf8(b)
  {
    if a == [] {
      assert a + b == b;
    } else {
      assert (a + b)[0] == a[0];
      assert (a + b)[1..] == a[1..] + b;
      Utf8Concat(a[1..], b);
    }
  }

  /** The byte length of a string is the sum of its characters' widths; it is
      never below the character count, and equals it exactly for ASCII text. */
  lemma {:induction false} Utf8Length(s: string)
    ensures |Utf8(s)| == Width(s)
    ensures |Utf8(s)| >= |s|
    ensures |Utf8(s)| == |s| <==> IsAscii(s)
  {
    if s != [] {
      Utf8Length(s[1..]);
      if IsAscii(s[1..]) && s[0] as int < 0x80 {
        forall i | 0 <= i < |s| ensures s[i] as int < 0x80 {
          if i > 0 { assert s[i] == s[1..][i - 1]; }
        }
      }
      if IsAscii(s) {
        forall i | 0 <= i < |s| - 1 ensures s[1..][i] as int < 0x80 {
          assert s[1..][i] == s[i + 1];
        }
      }
    }
  }

  /** Encoding an ASCII string maps each character to its code. */
  lemma {:induction false} Utf8Ascii(s: string)
    requires IsAscii(s)
    ensures |Utf8(s)| == |s|
    ensures forall i :: 0 <= i < |s| ==> Utf8(s)[i] == s[i] as int
  {
    if s != [] {
      assert IsAscii(s[1..]) by {
        forall i | 0 <= i < |s| - 1 ensures s[1..][i] as int < 0x80 {
          assert s[1..][i] == s[i + 1];
        }
      }
      Utf8Ascii(s[1..]);
      forall i | 0 <= i < |s| ensures Utf8(s)[i] == s[i] as int {
        if i > 0 { assert Utf8(s)[i] == Utf8(s[1..])[i - 1]; assert s[1..][i - 1] == s[i]; }
      }
    }
  }

  /** A text without the character `b as char`, for an ASCII byte `b`, has an
      encoding without the byte `b`: multi-byte sequences use only bytes `>= 0x80`. */
  lemma {:induction false} Utf8AsciiByte(s: string, b: Byte)
    requires b < 0x80
    requires forall i :: 0 <= i < |s| ==> s[i] as int != b
    ensures forall i :: 0 <= i < |Utf8(s)| ==> Utf8(s)[i] != b
  {
    if s != [] {
      Utf8AsciiByte(s[1..], b);
      var e := EncodeChar(s[0]);
      forall i | 0 <= i < |Utf8(s)| ensures Utf8(s)[i] != b {
        if i >= |e| { assert Utf8(s)[i] == Utf8(s[1..])[i - |e|]; }
      }
    }
  }

  predicate IsDigit(c: char) { '0' <= c <= '9' }

  predicate IsDigitByte(b: Byte) { 48 <= b <= 57 }

  /** The decimal numeral of `n`, without sign or leading zeros (`${n}`). */
  function Decimal(n: nat): (s: string)
    ensures |s| >= 1 && forall i :: 0 <= i < |s| ==> IsDigit(s[i])
    ensures |s| > 1 ==> s[0] != '0'
    decreases n
  {
    if n < 10 then [('0' as int + n) as char]
    else Decimal(n / 10) + [('0' as int + n % 10) as char]
  }

  /** JavaScript's String() of an integer. */
  function IntText(i: int): string
  {
    if i < 0 then "-" + Decimal(-i) else Decimal(i)
  }

  /** The value of a run of ASCII digit bytes, read most significant first. */
  function DigitsValue(bs: seq<Byte>): nat
    requires forall i :: 0 <= i < |bs| ==> IsDigitByte(bs[i])
  {
    if bs == [] then 0
    else
      assert IsDigitByte(bs[|bs| - 1]);
      DigitsValue(bs[..|bs| - 1]) * 10 + (bs[|bs| - 1] as int - 48)
  }

  /** The bytes of a decimal numeral are digits, and reading them back gives `n`. */
  lemma {:induction false} DecimalRoundTrip(n: nat)
    ensures IsAscii(Decimal(n))
    ensures forall i :: 0 <= i < |Utf8(Decimal(n))| ==> IsDigitByte(Utf8(Decimal(n))[i])
    ensures DigitsValue(Utf8(Decimal(n))) == n
    decreases n
  {
    var s := Decimal(n);
    assert IsAscii(s);
    Utf8Ascii(s);
    var bs := Utf8(s);
    if n >= 10 {
      DecimalRoundTrip(n / 10);
      var t := Decimal(n / 10);
      Utf8Ascii(t);
      assert s == t + [s[|s| - 1]];
      assert bs[..|bs| - 1] == Utf8(t) by {
        forall i | 0 <= i < |t| ensures bs[..|bs| - 1][i] == Utf8(t)[i] {
          assert s[i] == t[i];
        }
      }
    } else {
      assert bs == [48 + n];
      assert bs[..0] == [];
    }
  }
}
