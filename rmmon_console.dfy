/** The console monitor's output (rmmon_console/src/main.rs): the
    zero-padded three-digit field formatter and the choice, per poll,
    between the metrics line and the failure line.

    The rounding of the f32 readings to i32 is left to the caller: the
    formatter and the line take the already-rounded values. */
module RmmonConsole {
  import opened BoundedInts
  import Text

  /** fmt3: clamp to 0..=999, then `{:03}`. */
  function Fmt3(v: int32): string
  {
    var x := if v < 0 then 0 else v;
    var x := if x > 999 then 999 else x;
    Text.ZeroPad(Text.NatToDecimal(x), 3)
  }

  /** The field is always exactly three decimal digits. */
  lemma Fmt3Shape(v: int32)
    ensures |Fmt3(v)| == 3 && Text.AllDigitsIn(Fmt3(v), 10)
  {
    var x := if v < 0 then 0 else if v > 999 then 999 else v;
    Text.DecimalLengthBelowThousand(x);
  }

  /** Values below the range show as "000", values above it as "999". */
  lemma Fmt3Clamps(v: int32)
    ensures v < 0 ==> Fmt3(v) == "000"
    ensures v > 999 ==> Fmt3(v) == "999"
  {
    if v < 0 {
      assert Text.NatToDecimal(0) == "0";
      assert Text.ZeroPad("0", 3) == Text.ZeroPad("00", 3) == "000";
    }
    if v > 999 {
      assert Text.NatToDecimal(99) == Text.NatToDecimal(9) + "9";
      assert Text.NatToDecimal(999) == Text.NatToDecimal(99) + "9" == "999";
    }
  }

  /** Inside the range, the field reads back as the value. */
  lemma Fmt3RoundTrip(v: int32)
    requires 0 <= v <= 999
    ensures Text.ValueOf(0, Fmt3(v), 10) == v
  {
    Text.ZeroPadValue(Text.NatToDecimal(v), 3);
    Text.DecimalRoundTrip(v);
  }

  /** What one poll prints. */
  datatype Line = Metrics(power: string, temp: string, usage: string) | Failure(rc: int32)
  {
    function Rendered(): (r: string)
      ensures Metrics? ==> |r| >= 4 && r[..4] == "PPT=" && r[|r| - 1] == '%'
      ensures Failure? ==> |r| >= 16 && r[..16] == "rm_read failed: "
    {
      match this
      case Metrics(p, t, u) => "PPT=" + p + "W  TEMP=" + t + "C  USAGE=" + u + "%"
      case Failure(rc) => "rm_read failed: " + Text.IntToDecimal(rc)
    }
  }

  /** One poll of the loop in main: the metrics line when rm_read returned
      0 and bit 0 of the flags is set, the failure line otherwise. */
  function Report(rc: int32, flags: uint32, power: int32, temp: int32, usage: int32): (l: Line)
    ensures l.Metrics? <==> rc == 0 && flags % 2 == 1
    ensures l.Metrics? ==> l == Metrics(Fmt3(power), Fmt3(temp), Fmt3(usage))
    ensures l.Failure? ==> l.rc == rc
  {
    if rc == 0 && (flags as bv32) & 1 != 0 then Metrics(Fmt3(power), Fmt3(temp), Fmt3(usage))
    else Failure(rc)
  }

  /** A metrics line always has the same 31-character layout. */
  lemma MetricsLineLength(flags: uint32, power: int32, temp: int32, usage: int32)
    requires flags % 2 == 1
    ensures |Report(0, flags, power, temp, usage).Rendered()| == 31
  {
    Fmt3Shape(power);
    Fmt3Shape(temp);
    Fmt3Shape(usage);
  }
}
