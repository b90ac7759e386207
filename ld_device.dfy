/** The LD-device sender's argument parsing and report building
    (rust/src/ld_device.rs): Rust's unsigned integer parsing as the standard
    library does it, the hex payload reader, the 65-byte output report and
    the 12-byte metrics payload.

    The f32 values of the metrics payload are kept as their 32-bit patterns
    (`f32::to_bits`), which is what `to_le_bytes` splits. */
module LdDevice {
  import opened BoundedInts
  import opened Wrappers
  import Text

  const ReportId: uint8 := 0
  const ReportSize: nat := 64
  const MaxPayload: nat := ReportSize - 1

  // ---------------------------------------------------------------------
  // Rust's unsigned integer parsing
  // ---------------------------------------------------------------------

  /** `IntErrorKind` for unsigned targets, with the texts `Display` gives. */
  datatype IntErrorKind = Empty | InvalidDigit | PosOverflow
  {
    function Text(): string
    {
      match this
      case Empty => "cannot parse integer from empty string"
      case InvalidDigit => "invalid digit found in string"
      case PosOverflow => "number too large to fit in target type"
    }
  }

  /** `from_str_radix` for an unsigned type whose largest value is `max`:
      empty input fails, a lone sign is an invalid digit, one leading '+' is
      skipped, then the digits are read left to right and the first
      character that is not a digit, or the first digit that would take the
      value past `max`, ends the parse with that error. */
  function FromStrRadix(s: string, radix: nat, max: nat): (r: Result<nat, IntErrorKind>)
    requires 2 <= radix <= 36
    ensures r.Ok? ==> r.value <= max
  {
    if s == [] then Err(Empty)
    else if s == "+" || s == "-" then Err(InvalidDigit)
    else if s[0] == '+' then Scan(0, s[1..], radix, max)
    else Scan(0, s, radix, max)
  }

  function Scan(acc: nat, s: string, radix: nat, max: nat): (r: Result<nat, IntErrorKind>)
    requires 2 <= radix <= 36
    ensures acc <= max && r.Ok? ==> r.value <= max
    decreases |s|
  {
    if s == [] then Ok(acc)
    else if !Text.IsDigitIn(s[0], radix) then Err(InvalidDigit)
    else if acc * radix + Text.DigitValue(s[0], radix) > max then Err(PosOverflow)
    else Scan(acc * radix + Text.DigitValue(s[0], radix), s[1..], radix, max)
  }

  /** The scan succeeds exactly on an all-digit string whose value fits, and
      then yields that value; an all-digit string whose value does not fit
      is an overflow. */
  lemma ScanMeaning(acc: nat, s: string, radix: nat, max: nat)
    requires 2 <= radix <= 36 && acc <= max
    ensures Scan(acc, s, radix, max).Ok? <==> Text.AllDigitsIn(s, radix) && Text.ValueOf(acc, s, radix) <= max
    ensures Scan(acc, s, radix, max).Ok? ==> Scan(acc, s, radix, max).value == Text.ValueOf(acc, s, radix)
    ensures Text.AllDigitsIn(s, radix) && Text.ValueOf(acc, s, radix) > max ==> Scan(acc, s, radix, max) == Err(PosOverflow)
  {
    if !Text.AllDigitsIn(s, radix) {
      ScanInvalid(acc, s, radix, max);
    } else if Text.ValueOf(acc, s, radix) <= max {
      ScanFits(acc, s, radix, max);
    } else {
      ScanOverflows(acc, s, radix, max);
    }
  }

  lemma AllDigitsTail(s: string, radix: nat)
    requires 2 <= radix <= 36 && s != []
    ensures Text.AllDigitsIn(s, radix) <==> Text.IsDigitIn(s[0], radix) && Text.AllDigitsIn(s[1..], radix)
  {
    if Text.IsDigitIn(s[0], radix) && Text.AllDigitsIn(s[1..], radix) {
      assert forall i :: 1 <= i < |s| ==> s[i] == s[1..][i - 1];
    }
  }

  lemma {:induction false} ScanInvalid(acc: nat, s: string, radix: nat, max: nat)
    requires 2 <= radix <= 36 && !Text.AllDigitsIn(s, radix)
    ensures Scan(acc, s, radix, max).Err?
    decreases |s|
  {
    AllDigitsTail(s, radix);
    if Text.IsDigitIn(s[0], radix) {
      Text.MulAtLeast(acc, radix);
      var next := acc * radix + Text.DigitValue(s[0], radix);
      if next <= max {
        ScanInvalid(next, s[1..], radix, max);
      }
    }
  }

  lemma {:induction false} ScanFits(acc: nat, s: string, radix: nat, max: nat)
    requires 2 <= radix <= 36 && Text.AllDigitsIn(s, radix) && Text.ValueOf(acc, s, radix) <= max
    ensures Scan(acc, s, radix, max) == Ok(Text.ValueOf(acc, s, radix))
    decreases |s|
  {
    if s != [] {
      AllDigitsTail(s, radix);
      Text.MulAtLeast(acc, radix);
      var next := acc * radix + Text.DigitValue(s[0], radix);
      var value := Text.ValueOf(next, s[1..], radix);
      assert value == Text.ValueOf(acc, s, radix);
      assert next <= max by { Text.ValueOfAtLeastAcc(next, s[1..], radix); }
      assert Scan(acc, s, radix, max) == Scan(next, s[1..], radix, max);
      ScanFits(next, s[1..], radix, max);
    }
  }

  lemma {:induction false} ScanOverflows(acc: nat, s: string, radix: nat, max: nat)
    requires 2 <= radix <= 36 && acc <= max && Text.AllDigitsIn(s, radix) && Text.ValueOf(acc, s, radix) > max
    ensures Scan(acc, s, radix, max) == Err(PosOverflow)
    decreases |s|
  {
    AllDigitsTail(s, radix);
    Text.MulAtLeast(acc, radix);
    var next := acc * radix + Text.DigitValue(s[0], radix);
    if next <= max {
      assert Text.ValueOf(next, s[1..], radix) > max;
      ScanOverflows(next, s[1..], radix, max);
    }
  }

  /** A formatted number that fits parses back to itself. */
  lemma DecimalParses(n: nat, max: nat)
    ensures n <= max ==> FromStrRadix(Text.NatToDecimal(n), 10, max) == Ok(n)
    ensures n > max ==> FromStrRadix(Text.NatToDecimal(n), 10, max) == Err(PosOverflow)
  {
    var s := Text.NatToDecimal(n);
    Text.DecimalRoundTrip(n);
    ScanMeaning(0, s, 10, max);
    assert Text.IsDigitIn(s[0], 10);
  }

  // ---------------------------------------------------------------------
  // str::trim
  // ---------------------------------------------------------------------

  /** The Unicode White_Space property, which `str::trim` removes. */
  predicate IsWhiteSpace(c: char)
  {
    ('\U{9}' <= c <= '\U{D}') || c == '\U{20}' || c == '\U{85}' || c == '\U{A0}' || c == '\U{1680}'
    || ('\U{2000}' <= c <= '\U{200A}') || c == '\U{2028}' || c == '\U{2029}' || c == '\U{202F}'
    || c == '\U{205F}' || c == '\U{3000}'
  }

  function TrimStart(s: string): (t: string)
    ensures |t| <= |s| && t == s[|s| - |t|..]
    ensures forall i :: 0 <= i < |s| - |t| ==> IsWhiteSpace(s[i])
    ensures t != [] ==> !IsWhiteSpace(t[0])
  {
    if s != [] && IsWhiteSpace(s[0]) then TrimStart(s[1..]) else s
  }

  function TrimEnd(s: string): (t: string)
    ensures |t| <= |s| && t == s[..|t|]
    ensures forall i :: |t| <= i < |s| ==> IsWhiteSpace(s[i])
    ensures t != [] ==> !IsWhiteSpace(t[|t| - 1])
  {
    if s != [] && IsWhiteSpace(s[|s| - 1]) then TrimEnd(s[..|s| - 1]) else s
  }

  /** `str::trim`: the slice left after removing white space at both ends. */
  function Trim(s: string): (t: string)
    ensures exists i, j :: (0 <= i <= j <= |s| && t == s[i..j]
      && (forall k :: 0 <= k < i ==> IsWhiteSpace(s[k])) && (forall k :: j <= k < |s| ==> IsWhiteSpace(s[k])))
    ensures t != [] ==> !IsWhiteSpace(t[0]) && !IsWhiteSpace(t[|t| - 1])
  {
    var front := TrimStart(s);
    var t := TrimEnd(front);
    assert t == s[|s| - |front|..|s| - |front| + |t|];
    t
  }

  /** White space around a string with no white space at its ends is
      removed and nothing else is. */
  lemma TrimPadded(pre: string, s: string, post: string)
    requires forall k :: 0 <= k < |pre| ==> IsWhiteSpace(pre[k])
    requires forall k :: 0 <= k < |post| ==> IsWhiteSpace(post[k])
    requires s != [] && !IsWhiteSpace(s[0]) && !IsWhiteSpace(s[|s| - 1])
    ensures Trim(pre + s + post) == s
  {
    TrimStartPadded(pre, s + post);
    assert pre + s + post == pre + (s + post);
    TrimEndPadded(s, post);
  }

  lemma {:induction false} TrimStartPadded(pre: string, s: string)
    requires forall k :: 0 <= k < |pre| ==> IsWhiteSpace(pre[k])
    requires s != [] && !IsWhiteSpace(s[0])
    ensures TrimStart(pre + s) == s
    decreases |pre|
  {
    if pre != [] {
      var whole := pre + s;
      assert whole[0] == pre[0] && IsWhiteSpace(whole[0]);
      assert whole[1..] == pre[1..] + s;
      assert TrimStart(whole) == TrimStart(whole[1..]);
      TrimStartPadded(pre[1..], s);
    } else {
      assert pre + s == s;
    }
  }

  lemma {:induction false} TrimEndPadded(s: string, post: string)
    requires forall k :: 0 <= k < |post| ==> IsWhiteSpace(post[k])
    requires s != [] && !IsWhiteSpace(s[|s| - 1])
    ensures TrimEnd(s + post) == s
    decreases |post|
  {
    if post != [] {
      assert (s + post)[..|s + post| - 1] == s + post[..|post| - 1];
      TrimEndPadded(s, post[..|post| - 1]);
    } else {
      assert s + post == s;
    }
  }

  // ---------------------------------------------------------------------
  // Argument parsing
  // ---------------------------------------------------------------------

  /** parse_u16_value: trim, then read what is left. A value that is all
      white space is the empty-string error, and every failure reports one
      of the three texts of IntErrorKind. */
  function ParseU16Value(value: string): (r: Result<uint16, string>)
    ensures (forall k :: 0 <= k < |value| ==> IsWhiteSpace(value[k])) ==> r == Err(Empty.Text())
    ensures r.Err? ==> r.error in {Empty.Text(), InvalidDigit.Text(), PosOverflow.Text()}
  {
    ParseU16Trimmed(Trim(value))
  }

  /** Base 16 after a lowercase "0x" prefix and base 10 otherwise,
      reporting the parse error's text: nothing, or a bare prefix, is the
      empty-string error. */
  function ParseU16Trimmed(normalized: string): (r: Result<uint16, string>)
    ensures normalized == [] || normalized == "0x" ==> r == Err(Empty.Text())
    ensures r.Err? ==> r.error in {Empty.Text(), InvalidDigit.Text(), PosOverflow.Text()}
  {
    var parsed := if |normalized| >= 2 && normalized[..2] == "0x"
      then FromStrRadix(normalized[2..], 16, Uint16Max)
      else FromStrRadix(normalized, 10, Uint16Max);
    match parsed
    case Ok(v) => Ok(v as uint16)
    case Err(e) => Err(e.Text())
  }

  /** A string with no white space at its ends is read as it is. */
  lemma TrimmedAlready(s: string)
    requires s != [] && !IsWhiteSpace(s[0]) && !IsWhiteSpace(s[|s| - 1])
    ensures ParseU16Value(s) == ParseU16Trimmed(s)
  {
    TrimPadded([], s, []);
    assert [] + s + [] == s;
  }

  /** A decimal number in range, with any white space around it, parses to
      itself; one too large is rejected with the overflow text. */
  lemma ParseU16Decimal(pre: string, n: nat, post: string)
    requires forall k :: 0 <= k < |pre| ==> IsWhiteSpace(pre[k])
    requires forall k :: 0 <= k < |post| ==> IsWhiteSpace(post[k])
    ensures n <= Uint16Max ==> ParseU16Value(pre + Text.NatToDecimal(n) + post) == Ok(n as uint16)
    ensures n > Uint16Max ==> ParseU16Value(pre + Text.NatToDecimal(n) + post) == Err(PosOverflow.Text())
  {
    var s := Text.NatToDecimal(n);
    assert Text.IsDigitIn(s[0], 10) && Text.IsDigitIn(s[|s| - 1], 10);
    TrimPadded(pre, s, post);
    if |s| >= 2 {
      assert s[..2][1] == s[1];
      assert Text.IsDigitIn(s[1], 10);
    }
    DecimalParses(n, Uint16Max);
  }

  /** After a lowercase "0x", hex digits of either case are read in base 16. */
  lemma ParseU16Hex(digits: string)
    requires digits != [] && Text.AllDigitsIn(digits, 16)
    ensures var v := Text.ValueOf(0, digits, 16);
      ParseU16Value("0x" + digits) == if v <= Uint16Max then Ok(v as uint16) else Err(PosOverflow.Text())
  {
    var s := "0x" + digits;
    assert Text.IsDigitIn(digits[|digits| - 1], 16);
    assert s[|s| - 1] == digits[|digits| - 1];
    TrimmedAlready(s);
    assert s[..2] == "0x" && s[2..] == digits;
    assert Text.IsDigitIn(digits[0], 16);
    ScanMeaning(0, digits, 16, Uint16Max);
  }

  /** An upper-case "0X" is not a prefix: the text is read in base 10 and
      the 'X' is an invalid digit. */
  lemma UpperCasePrefixRejected(digits: string)
    requires digits != [] && Text.AllDigitsIn(digits, 16)
    ensures ParseU16Value("0X" + digits) == Err(InvalidDigit.Text())
  {
    var s := "0X" + digits;
    assert Text.IsDigitIn(digits[|digits| - 1], 16);
    assert s[|s| - 1] == digits[|digits| - 1];
    TrimmedAlready(s);
    assert s[..2][1] == 'X';
    assert s[1..][1..] == s[2..];
    assert Scan(0, s, 10, Uint16Max) == Scan(0, s[1..], 10, Uint16Max);
  }

  /** find_arg_value: the argument after the first occurrence of `name`. */
  function FindArgValue(args: seq<string>, name: string): (r: Option<string>)
    ensures r.Some? <==> name in args && Position(args, name) + 1 < |args|
    ensures r.Some? ==> r.value == args[Position(args, name) + 1]
  {
    var p := Position(args, name);
    if p + 1 < |args| then Some(args[p + 1]) else None
  }

  /** `Iterator::position`: the first index holding `name`, or |args|. */
  function Position(args: seq<string>, name: string): (p: nat)
    ensures p <= |args| && (p < |args| <==> name in args)
    ensures p < |args| ==> args[p] == name
    ensures forall k :: 0 <= k < p ==> args[k] != name
  {
    if args == [] then 0 else if args[0] == name then 0 else 1 + Position(args[1..], name)
  }

  /** The value is found exactly when the name occurs before the last
      token, and it is the token straight after the first occurrence. */
  lemma FindArgValueMeaning(args: seq<string>, name: string, i: nat)
    requires i < |args| && args[i] == name && name !in args[..i]
    ensures FindArgValue(args, name) == if i + 1 < |args| then Some(args[i + 1]) else None
  {
    assert forall k :: 0 <= k < i ==> args[k] == args[..i][k];
  }

  const IntervalFlag: string := "--interval-ms"
  const CountFlag: string := "--count"
  const DefaultIntervalMs: nat := 1000
  const IntervalZeroError: string := "Interval must be greater than zero."
  const CountZeroError: string := "Count must be greater than zero."

  function InvalidValue(name: string, value: string, e: IntErrorKind): string
  {
    "Invalid value for " + name + " (" + value + "): " + e.Text()
  }

  /** parse_interval: one second when absent; otherwise a u64 number of
      milliseconds that must not be zero. */
  function ParseInterval(args: seq<string>): (r: Result<nat, string>)
    ensures FindArgValue(args, IntervalFlag).None? ==> r == Ok(DefaultIntervalMs)
    ensures r.Ok? ==> 0 < r.value <= Uint64Max
  {
    match FindArgValue(args, IntervalFlag)
    case None => Ok(DefaultIntervalMs)
    case Some(value) =>
      match FromStrRadix(value, 10, Uint64Max)
      case Err(e) => Err(InvalidValue(IntervalFlag, value, e))
      case Ok(millis) => if millis == 0 then Err(IntervalZeroError) else Ok(millis)
  }

  /** parse_count: absent means "no limit"; otherwise a usize (64-bit) that
      must not be zero. */
  function ParseCount(args: seq<string>): (r: Result<Option<nat>, string>)
    ensures FindArgValue(args, CountFlag).None? <==> r == Ok(None)
    ensures r.Ok? && r.value.Some? ==> 0 < r.value.value <= Uint64Max
  {
    match FindArgValue(args, CountFlag)
    case None => Ok(None)
    case Some(value) =>
      match FromStrRadix(value, 10, Uint64Max)
      case Err(e) => Err(InvalidValue(CountFlag, value, e))
      case Ok(count) => if count == 0 then Err(CountZeroError) else Ok(Some(count))
  }

  /** Given as a decimal number, an interval or count is accepted exactly
      when it is not zero, and then is that number. */
  lemma IntervalAndCountFromDecimal(args: seq<string>, i: nat, n: nat)
    requires n <= Uint64Max && i + 1 < |args| && args[i + 1] == Text.NatToDecimal(n)
    ensures args[i] == IntervalFlag && IntervalFlag !in args[..i] ==>
      ParseInterval(args) == if n == 0 then Err(IntervalZeroError) else Ok(n)
    ensures args[i] == CountFlag && CountFlag !in args[..i] ==>
      ParseCount(args) == if n == 0 then Err(CountZeroError) else Ok(Some(n))
  {
    DecimalParses(n, Uint64Max);
    if args[i] == IntervalFlag && IntervalFlag !in args[..i] {
      FindArgValueMeaning(args, IntervalFlag, i);
    }
    if args[i] == CountFlag && CountFlag !in args[..i] {
      FindArgValueMeaning(args, CountFlag, i);
    }
  }

  // ---------------------------------------------------------------------
  // Hex payloads
  // ---------------------------------------------------------------------

  predicate IsHexDigit(c: char)
  {
    Text.IsDigitIn(c, 16)
  }

  /** The hex digits of `s`, in order; everything else is dropped. */
  function HexDigits(s: string): (d: string)
    ensures |d| <= |s|
    ensures forall k :: 0 <= k < |d| ==> IsHexDigit(d[k])
  {
    if s == [] then []
    else HexDigits(s[..|s| - 1]) + (if IsHexDigit(s[|s| - 1]) then [s[|s| - 1]] else [])
  }

  /** Two hex digits as one byte, high digit first. */
  function HexByte(hi: char, lo: char): uint8
    requires IsHexDigit(hi) && IsHexDigit(lo)
  {
    (16 * Text.DigitValue(hi, 16) + Text.DigitValue(lo, 16)) as uint8
  }

  /** Consecutive pairs of digits, each as one byte. */
  function PairBytes(d: string): (b: seq<uint8>)
    requires |d| % 2 == 0 && forall k :: 0 <= k < |d| ==> IsHexDigit(d[k])
    ensures |b| == |d| / 2
  {
    if d == [] then [] else PairBytes(d[..|d| - 2]) + [HexByte(d[|d| - 2], d[|d| - 1])]
  }

  const OddDigitsError: string := "Payload hex string must contain an even number of digits."

  /** What parse_hex_bytes returns. */
  function HexBytes(value: string): Result<seq<uint8>, string>
  {
    var d := HexDigits(value);
    if |d| % 2 == 1 then Err(OddDigitsError) else Ok(PairBytes(d))
  }

  /** A pair of hex digits never fails `u8::from_str_radix(.., 16)`. */
  lemma PairParses(hi: char, lo: char)
    requires IsHexDigit(hi) && IsHexDigit(lo)
    ensures FromStrRadix([hi, lo], 16, 255) == Ok(HexByte(hi, lo) as nat)
  {
    var s := [hi, lo];
    assert s[1..] == [lo] && [lo][1..] == [];
    assert s != "+" && s != "-" by { assert s[0] == hi; }
    var h := Text.DigitValue(hi, 16);
    assert Scan(0, s, 16, 255) == Scan(h, [lo], 16, 255);
    assert Scan(h, [lo], 16, 255) == Scan(16 * h + Text.DigitValue(lo, 16), [], 16, 255);
  }

  /** The loop's view of the digits seen so far: the full pairs became
      `bytes`, and at most one digit waits in `buffer`. */
  ghost predicate Split(d: string, bytes: seq<uint8>, buffer: string)
  {
    && |buffer| <= 1 && |d| == 2 * |bytes| + |buffer|
    && (forall k :: 0 <= k < |d| ==> IsHexDigit(d[k]))
    && (forall k :: 0 <= k < |buffer| ==> IsHexDigit(buffer[k]))
    && buffer == d[2 * |bytes|..]
    && bytes == PairBytes(d[..2 * |bytes|])
  }

  lemma SplitFirstDigit(d: string, bytes: seq<uint8>, ch: char)
    requires Split(d, bytes, []) && IsHexDigit(ch)
    ensures Split(d + [ch], bytes, [ch])
  {
    var e := d + [ch];
    assert d[..2 * |bytes|] == d;
    assert e[..2 * |bytes|] == d;
    assert e[2 * |bytes|..] == [ch];
    assert forall k :: 0 <= k < |e| ==> IsHexDigit(e[k]) by {
      forall k | 0 <= k < |e| ensures IsHexDigit(e[k]) {
        if k < |d| { assert e[k] == d[k]; }
      }
    }
  }

  lemma SplitSecondDigit(d: string, bytes: seq<uint8>, first: char, ch: char)
    requires Split(d, bytes, [first]) && IsHexDigit(first) && IsHexDigit(ch)
    ensures Split(d + [ch], bytes + [HexByte(first, ch)], [])
  {
    var e := d + [ch];
    assert e[..2 * (|bytes| + 1)] == e;
    assert e[..|e| - 2] == d[..2 * |bytes|];
    assert e[|e| - 2] == first by { assert d[2 * |bytes|..][0] == first; }
    assert forall k :: 0 <= k < |e| ==> IsHexDigit(e[k]) by {
      forall k | 0 <= k < |e| ensures IsHexDigit(e[k]) {
        if k < |d| { assert e[k] == d[k]; }
      }
    }
  }

  /** One hex digit into the buffer; a full pair leaves it as a byte. */
  method AbsorbDigit(ghost d: string, bytes: seq<uint8>, buffer: string, ch: char)
    returns (bytes': seq<uint8>, buffer': string)
    requires Split(d, bytes, buffer) && IsHexDigit(ch)
    ensures Split(d + [ch], bytes', buffer')
  {
    if buffer == [] {
      SplitFirstDigit(d, bytes, ch);
      bytes', buffer' := bytes, [ch];
    } else {
      var first := buffer[0];
      assert buffer == [first];
      SplitSecondDigit(d, bytes, first, ch);
      PairParses(first, ch);
      var parsed := FromStrRadix([first, ch], 16, 255);
      assert parsed.value as uint8 == HexByte(first, ch);
      bytes', buffer' := bytes + [parsed.value as uint8], [];
    }
  }

  /** parse_hex_bytes: walk the characters, collecting hex digits in a
      buffer and turning every full pair into a byte; a digit left over at
      the end is an error. */
  method ParseHexBytes(value: string) returns (r: Result<seq<uint8>, string>)
    ensures r == HexBytes(value)
  {
    var bytes: seq<uint8> := [];
    var buffer: string := [];
    for i := 0 to |value|
      invariant Split(HexDigits(value[..i]), bytes, buffer)
    {
      ghost var before := HexDigits(value[..i]);
      HexDigitsStep(value, i);
      var ch := value[i];
      if IsHexDigit(ch) {
        bytes, buffer := AbsorbDigit(before, bytes, buffer, ch);
      } else {
        assert HexDigits(value[..i + 1]) == before;
      }
    }
    assert value[..|value|] == value;
    if buffer != [] {
      return Err(OddDigitsError);
    }
    assert HexDigits(value)[..2 * |bytes|] == HexDigits(value);
    r := Ok(bytes);
  }

  lemma HexDigitsStep(value: string, i: nat)
    requires i < |value|
    ensures HexDigits(value[..i + 1]) == HexDigits(value[..i]) + if IsHexDigit(value[i]) then [value[i]] else []
  {
    assert value[..i + 1][..i] == value[..i];
  }

  /** Byte k of the result is digits 2k and 2k+1 of the hex digits. */
  lemma {:induction false} PairBytesAt(d: string, k: nat)
    requires |d| % 2 == 0 && forall j :: 0 <= j < |d| ==> IsHexDigit(d[j])
    requires k < |d| / 2
    ensures PairBytes(d)[k] == HexByte(d[2 * k], d[2 * k + 1])
    decreases |d|
  {
    var init := d[..|d| - 2];
    if k < |init| / 2 {
      PairBytesAt(init, k);
    }
  }

  /** Characters that are not hex digits anywhere in the string are
      skipped. */
  lemma {:induction false} HexDigitsAppend(a: string, b: string)
    ensures HexDigits(a + b) == HexDigits(a) + HexDigits(b)
    decreases |b|
  {
    if b == [] {
      assert a + b == a;
    } else {
      assert (a + b)[..|a + b| - 1] == a + b[..|b| - 1];
      HexDigitsAppend(a, b[..|b| - 1]);
    }
  }

  lemma SeparatorSkipped(a: string, c: char, b: string)
    requires !IsHexDigit(c)
    ensures HexBytes(a + [c] + b) == HexBytes(a + b)
  {
    HexDigitsAppend(a + [c], b);
    HexDigitsAppend(a, [c]);
    HexDigitsAppend(a, b);
    assert [c][..0] == [];
    assert HexDigits([c]) == [];
    assert HexDigits(a + [c] + b) == HexDigits(a) + HexDigits(b);
  }

  /** The lowercase hex digit of a value below 16. */
  function HexDigitChar(v: nat): (c: char)
    requires v < 16
    ensures IsHexDigit(c) && Text.DigitValue(c, 16) == v
  {
    if v < 10 then ('0' as int + v) as char else ('a' as int + v - 10) as char
  }

  /** The lowercase two-digit hex numeral of a byte. */
  function HexPair(b: uint8): (p: string)
    ensures |p| == 2 && IsHexDigit(p[0]) && IsHexDigit(p[1]) && HexByte(p[0], p[1]) == b
  {
    [HexDigitChar(b as nat / 16), HexDigitChar(b as nat % 16)]
  }

  function ToHex(b: seq<uint8>): (s: string)
    ensures |s| == 2 * |b|
    ensures forall k :: 0 <= k < |s| ==> IsHexDigit(s[k])
  {
    if b == [] then [] else ToHex(b[..|b| - 1]) + HexPair(b[|b| - 1])
  }

  /** A string of hex digits keeps all of them. */
  lemma {:induction false} HexDigitsOfDigits(d: string)
    requires forall k :: 0 <= k < |d| ==> IsHexDigit(d[k])
    ensures HexDigits(d) == d
    decreases |d|
  {
    if d != [] {
      HexDigitsOfDigits(d[..|d| - 1]);
    }
  }

  /** Pairing the digits of ToHex gives the bytes back. */
  lemma {:induction false} PairBytesOfHex(b: seq<uint8>)
    ensures PairBytes(ToHex(b)) == b
    decreases |b|
  {
    if b != [] {
      var init := b[..|b| - 1];
      PairBytesOfHex(init);
      var s := ToHex(b);
      assert s[..|s| - 2] == ToHex(init);
      assert b == init + [b[|b| - 1]];
    }
  }

  /** Bytes written as hex digits read back as the same bytes. */
  lemma HexRoundTrip(b: seq<uint8>)
    ensures HexBytes(ToHex(b)) == Ok(b)
  {
    HexDigitsOfDigits(ToHex(b));
    PairBytesOfHex(b);
  }

  const EmptyPayloadError: string := "Payload cannot be empty."

  function TooLargeError(n: nat): string
  {
    "Payload is too large (" + Text.NatToDecimal(n) + " bytes). Maximum supported is 63."
  }

  /** parse_payload_hex: the hex bytes, refused above 63 bytes and when
      there are none. */
  function ParsePayloadHex(value: string): (r: Result<seq<uint8>, string>)
    ensures r.Ok? <==> HexBytes(value).Ok? && 1 <= |HexBytes(value).value| <= MaxPayload
    ensures r.Ok? ==> r == HexBytes(value)
    ensures HexBytes(value).Err? ==> r == HexBytes(value)
    ensures HexBytes(value).Ok? && |HexBytes(value).value| > MaxPayload ==>
      r == Err(TooLargeError(|HexBytes(value).value|))
    ensures HexBytes(value) == Ok([]) ==> r == Err(EmptyPayloadError)
  {
    match HexBytes(value)
    case Err(e) => Err(e)
    case Ok(bytes) =>
      if |bytes| > MaxPayload then Err(TooLargeError(|bytes|))
      else if bytes == [] then Err(EmptyPayloadError)
      else Ok(bytes)
  }

  /** Any 1..63 bytes written as hex are accepted as the payload. */
  lemma PayloadRoundTrip(b: seq<uint8>)
    requires 1 <= |b| <= MaxPayload
    ensures ParsePayloadHex(ToHex(b)) == Ok(b)
  {
    HexRoundTrip(b);
  }

  // ---------------------------------------------------------------------
  // Reports
  // ---------------------------------------------------------------------

  function PayloadTooLongError(n: nat): string
  {
    "Payload length " + Text.NatToDecimal(n) + " exceeds maximum 63."
  }

  /** build_packet: a zeroed 65-byte buffer, the report id, then the payload
      copied to bytes 1..=len. */
  method BuildPacket(payload: seq<uint8>) returns (r: Result<seq<uint8>, string>)
    ensures r.Err? <==> |payload| > MaxPayload
    ensures r.Err? ==> r.error == PayloadTooLongError(|payload|)
    ensures r.Ok? ==> var p := r.value;
      && |p| == ReportSize + 1
      && p[0] == ReportId
      && p[1..1 + |payload|] == payload
      && (forall k :: 1 + |payload| <= k < |p| ==> p[k] == 0)
  {
    if |payload| > MaxPayload {
      return Err(PayloadTooLongError(|payload|));
    }
    var packet := new uint8[ReportSize + 1](_ => 0);
    packet[0] := ReportId;
    forall k | 0 <= k < |payload| {
      packet[1 + k] := payload[k];
    }
    assert forall k | 0 <= k < |payload| :: packet[1 + k] == payload[k];
    assert packet[1..1 + |payload|] == payload;
    r := Ok(packet[..]);
  }

  /** `f32::to_le_bytes` of a value with bit pattern `bits`. */
  function LittleEndian32(bits: uint32): seq<uint8>
  {
    [ByteOf(bits, 0), ByteOf(bits, 1), ByteOf(bits, 2), ByteOf(bits, 3)]
  }

  /** Reading four little-endian bytes gives the bit pattern back. */
  lemma LittleEndian32RoundTrip(bits: uint32)
    ensures var b := LittleEndian32(bits);
      b[0] as int + b[1] as int * 0x100 + b[2] as int * 0x1_0000 + b[3] as int * 0x100_0000 == bits
  {
    var q1 := bits / 0x100;
    var q2 := q1 / 0x100;
    var q3 := q2 / 0x100;
    assert bits == q1 * 0x100 + bits % 256;
    assert q1 == q2 * 0x100 + q1 % 256;
    assert q2 == q3 * 0x100 + q2 % 256;
    assert q2 == bits / 0x1_0000;
    assert q3 == bits / 0x100_0000 && q3 < 256;
  }

  /** build_metrics_payload: the three values' little-endian bytes, in the
      order temperature, power, utilisation. */
  method BuildMetricsPayload(temperature: uint32, power: uint32, utilization: uint32) returns (payload: seq<uint8>)
    ensures |payload| == 12
    ensures payload[0..4] == LittleEndian32(temperature)
    ensures payload[4..8] == LittleEndian32(power)
    ensures payload[8..12] == LittleEndian32(utilization)
  {
    payload := [];
    payload := payload + LittleEndian32(temperature);
    payload := payload + LittleEndian32(power);
    payload := payload + LittleEndian32(utilization);
  }
}
