/** Decimal and radix digits as the sources' formatting (`format!`, `%d`-style
    printing) and Rust's integer parsing use them, and the UTF-16 encoding
    of Windows wide strings (section 2.1 of RFC 2781). */
module Text {
  import opened BoundedInts
  import opened Wrappers

  /** `char::to_digit(radix)` succeeds: 0-9, then letters a/A onwards. */
  predicate IsDigitIn(c: char, radix: nat)
    requires 2 <= radix <= 36
  {
    ('0' <= c <= '9' && (c as int - '0' as int) < radix)
    || ('a' <= c <= 'z' && (c as int - 'a' as int) + 10 < radix)
    || ('A' <= c <= 'Z' && (c as int - 'A' as int) + 10 < radix)
  }

  predicate AllDigitsIn(s: string, radix: nat)
    requires 2 <= radix <= 36
  {
    forall i :: 0 <= i < |s| ==> IsDigitIn(s[i], radix)
  }

  function DigitValue(c: char, radix: nat): (d: nat)
    requires 2 <= radix <= 36 && IsDigitIn(c, radix)
    ensures d < radix
  {
    if '0' <= c <= '9' then c as int - '0' as int
    else if 'a' <= c <= 'z' then c as int - 'a' as int + 10
    else c as int - 'A' as int + 10
  }

  /** Digits read left to right, starting from the accumulated value `acc`:
      the value a positional numeral denotes. */
  function ValueOf(acc: nat, s: string, radix: nat): nat
    requires 2 <= radix <= 36 && AllDigitsIn(s, radix)
    decreases |s|
  {
    if s == [] then acc else ValueOf(acc * radix + DigitValue(s[0], radix), s[1..], radix)
  }

  /** Appending one digit multiplies the value by the radix and adds the digit. */
  lemma {:induction false} ValueOfSnoc(acc: nat, s: string, c: char, radix: nat)
    requires 2 <= radix <= 36 && AllDigitsIn(s, radix) && IsDigitIn(c, radix)
    ensures AllDigitsIn(s + [c], radix)
    ensures ValueOf(acc, s + [c], radix) == ValueOf(acc, s, radix) * radix + DigitValue(c, radix)
    decreases |s|
  {
    if s != [] {
      assert (s + [c])[1..] == s[1..] + [c];
      MulAtLeast(acc, radix);
      ValueOfSnoc(acc * radix + DigitValue(s[0], radix), s[1..], c, radix);
    }
  }

  /** Reading never lowers the accumulated value. */
  lemma {:induction false} ValueOfAtLeastAcc(acc: nat, s: string, radix: nat)
    requires 2 <= radix <= 36 && AllDigitsIn(s, radix)
    ensures acc <= ValueOf(acc, s, radix)
    decreases |s|
  {
    if s != [] {
      var next := acc * radix + DigitValue(s[0], radix);
      assert acc <= next by { MulAtLeast(acc, radix); }
      ValueOfAtLeastAcc(next, s[1..], radix);
    }
  }

  lemma MulAtLeast(a: nat, b: nat)
    requires 1 <= b
    ensures a <= a * b
  {
    assert a * b == a + a * (b - 1);
  }

  function DigitChar(d: nat): (c: char)
    requires d < 10
    ensures IsDigitIn(c, 10) && DigitValue(c, 10) == d
  {
    ('0' as int + d) as char
  }

  /** `{}` formatting of a non-negative integer: shortest decimal numeral. */
  function NatToDecimal(n: nat): (s: string)
    ensures 1 <= |s| && AllDigitsIn(s, 10)
    ensures n < 10 <==> |s| == 1
  {
    if n < 10 then [DigitChar(n)] else NatToDecimal(n / 10) + [DigitChar(n % 10)]
  }

  /** `{}` formatting of a signed integer: a minus sign for negatives. */
  function IntToDecimal(i: int): (s: string)
    ensures 1 <= |s|
    ensures i < 0 <==> s[0] == '-'
  {
    if i < 0 then "-" + NatToDecimal(-i) else NatToDecimal(i)
  }

  /** Reading back a formatted number gives the number. */
  lemma {:induction false} DecimalRoundTrip(n: nat)
    ensures ValueOf(0, NatToDecimal(n), 10) == n
  {
    if n >= 10 {
      DecimalRoundTrip(n / 10);
      ValueOfSnoc(0, NatToDecimal(n / 10), DigitChar(n % 10), 10);
    }
  }

  /** The numeral of n has at most k digits exactly when n is below 10^k (k = 3). */
  lemma {:induction false} DecimalLengthBelowThousand(n: nat)
    requires n < 1000
    ensures |NatToDecimal(n)| <= 3
  {
    if n >= 10 {
      DecimalLengthBelowThousand(n / 10);
      assert |NatToDecimal(n / 10)| <= 2 by {
        if n / 10 >= 10 {
          assert n / 100 < 10;
          assert (n / 10) / 10 == n / 100;
        }
      }
    }
  }

  /** Left-pads with '0' to `width` characters, as `{:0width}` does. */
  function ZeroPad(s: string, width: nat): (r: string)
    ensures |r| == if |s| < width then width else |s|
    ensures AllDigitsIn(s, 10) ==> AllDigitsIn(r, 10)
    decreases width - |s|
  {
    if |s| < width then ZeroPad("0" + s, width) else s
  }

  /** Leading zeros do not change a numeral's value. */
  lemma {:induction false} ZeroPadValue(s: string, width: nat)
    requires AllDigitsIn(s, 10)
    ensures ValueOf(0, ZeroPad(s, width), 10) == ValueOf(0, s, 10)
    decreases width - |s|
  {
    if |s| < width {
      ZeroPadValue("0" + s, width);
      assert ("0" + s)[1..] == s;
    }
  }

  // ---------------------------------------------------------------------
  // UTF-16 (`str::encode_utf16`, `OsStr::encode_wide` of a valid string)
  // ---------------------------------------------------------------------

  predicate IsHighSurrogate(u: uint16) { 0xD800 <= u < 0xDC00 }
  predicate IsLowSurrogate(u: uint16) { 0xDC00 <= u < 0xE000 }

  /** The UTF-16 code units of one Unicode scalar value. */
  function EncodeChar(c: char): (w: seq<uint16>)
    ensures 1 <= |w| <= 2
    ensures |w| == 1 <==> c as int < 0x1_0000
    ensures |w| == 1 ==> w[0] == c as int && !IsHighSurrogate(w[0]) && !IsLowSurrogate(w[0])
    ensures |w| == 2 ==> IsHighSurrogate(w[0]) && IsLowSurrogate(w[1])
  {
    if c as int < 0x1_0000 then [c as int]
    else
      var v := c as int - 0x1_0000;
      [0xD800 + v / 0x400, 0xDC00 + v % 0x400]
  }

  function EncodeUtf16(s: string): (w: seq<uint16>)
    ensures |w| >= |s|
  {
    if s == [] then [] else EncodeChar(s[0]) + EncodeUtf16(s[1..])
  }

  /** The inverse: None on an unpaired surrogate. */
  function DecodeUtf16(w: seq<uint16>): Option<string>
    decreases |w|
  {
    if w == [] then Some([])
    else if IsLowSurrogate(w[0]) then None
    else if IsHighSurrogate(w[0]) then
      if |w| < 2 || !IsLowSurrogate(w[1]) then None
      else
        var c := 0x1_0000 + (w[0] as int - 0xD800) * 0x400 + (w[1] as int - 0xDC00);
        match DecodeUtf16(w[2..])
        case None => None
        case Some(rest) => Some([c as char] + rest)
    else
      match DecodeUtf16(w[1..])
      case None => None
      case Some(rest) => Some([w[0] as char] + rest)
  }

  /** Decoding undoes encoding. */
  lemma {:induction false} Utf16RoundTrip(s: string)
    ensures DecodeUtf16(EncodeUtf16(s)) == Some(s)
  {
    if s != [] {
      Utf16RoundTrip(s[1..]);
      var head := EncodeChar(s[0]);
      var w := EncodeUtf16(s);
      assert w == head + EncodeUtf16(s[1..]);
      if |head| == 1 {
        assert w[0] == s[0] as int && w[0] as char == s[0];
        assert w[1..] == EncodeUtf16(s[1..]);
      } else {
        var v := s[0] as int - 0x1_0000;
        assert 0x1_0000 + (head[0] as int - 0xD800) * 0x400 + (head[1] as int - 0xDC00) == s[0] as int;
        assert w[0] == head[0] && w[1] == head[1];
        assert w[2..] == EncodeUtf16(s[1..]);
        assert (s[0] as int) as char == s[0];
      }
      assert [s[0]] + s[1..] == s;
    }
  }

  /** Only the NUL character encodes to a zero unit. */
  lemma {:induction false} Utf16ZeroFree(s: string)
    ensures (0 in EncodeUtf16(s)) <==> ('\0' in s)
  {
    if s != [] {
      Utf16ZeroFree(s[1..]);
      assert s == [s[0]] + s[1..];
    }
  }
}
