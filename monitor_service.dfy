/** The sequential parts of the Rust monitor service (rust/src/main.rs): the
    HID frames it sends, the bounded telemetry retry, the service-state poll,
    the service command line and the status texts.

    The HID write, the SDK read, the stop event and QueryServiceStatus are
    parameters: a boolean for a write, and for the loops an oracle indexed by
    attempt number. */
module MonitorService {
  import opened BoundedInts
  import opened Wrappers
  import opened DeepcoolFrame
  import Text
  import Telemetry

  const StatusOk: int := 0
  const StatusReadFailed: int := 9

  /** What read_telemetry returns on success. */
  datatype Sample = Sample(temperature: Telemetry.Double, power: Telemetry.Double, usage: Telemetry.Double)

  // ---------------------------------------------------------------------
  // HID frames
  // ---------------------------------------------------------------------

  /** send_status_packet: fill a zeroed 64-byte buffer, accumulate the u16
      checksum over bytes 1..=15, and hand the buffer to the write.
      `tempBits` is `(temperature_c as f32).to_bits()`; `writeOk` is the
      outcome of write_hid_packet. */
  method SendStatusPacket(tempBits: uint32, powerW: int32, usagePercent: int32, writeOk: bool)
    returns (frame: seq<uint8>, ok: bool)
    ensures frame == StatusFrame(tempBits, powerW, usagePercent)
    ensures ok == writeOk
  {
    var packet := new uint8[PacketSize](_ => 0);
    FillStatusBody(packet, tempBits, powerW, usagePercent);
    ghost var body := StatusBody(tempBits, powerW, usagePercent);
    ghost var filled := packet[..];
    assert filled[1..16] == body[1..16];

    var checksum: uint16 := 0;
    var i := 1;
    while i <= 15
      invariant 1 <= i <= 16
      invariant packet[..] == filled
      invariant checksum == Sum(filled[1..i])
      invariant checksum <= 255 * (i - 1)
    {
      SumExtend(filled, 1, i);
      checksum := checksum + packet[i];
      i := i + 1;
    }
    packet[16] := checksum % 256;
    packet[17] := Terminator;
    frame := packet[..];
    assert frame == filled[16 := (checksum % 256) as uint8][17 := Terminator];
    StatusFrameFromFilled(filled, body, (checksum % 256) as uint8);
    ok := writeOk;
  }

  /** init_hid_device: the first init frame, and only if its write succeeds
      the second. Returns the frames written, in order. */
  method InitHidDevice(firstWriteOk: bool, secondWriteOk: bool) returns (sent: seq<seq<uint8>>, ok: bool)
    ensures sent == if firstWriteOk then [FirstInitFrame, SecondInitFrame] else [FirstInitFrame]
    ensures ok == (firstWriteOk && secondWriteOk)
  {
    var initPacket := NewFirstInitPacket();
    sent := [initPacket[..]];
    if !firstWriteOk {
      return sent, false;
    }
    RewriteToSecondInitPacket(initPacket);
    sent := sent + [initPacket[..]];
    ok := secondWriteOk;
  }

  // ---------------------------------------------------------------------
  // Bounded loops
  // ---------------------------------------------------------------------

  /** read_telemetry_with_retries: up to `maxAttempts` reads, returning the
      first success; between attempts the stop event may end the loop.
      `read(k)` and `stop(k)` answer attempt k+1. */
  method ReadTelemetryWithRetries(maxAttempts: uint32, read: nat -> Result<Sample, int>, stop: nat -> bool)
    returns (r: Result<Sample, int>, attempts: nat)
    ensures attempts <= maxAttempts
    ensures maxAttempts == 0 ==> r == Err(StatusReadFailed)
    ensures forall k :: 0 <= k && k + 1 < attempts ==> read(k).Err? && !stop(k)
    ensures r.Ok? ==> attempts >= 1 && r == read(attempts - 1)
    ensures r.Err? && attempts >= 1 ==> read(attempts - 1).Err? && r.error == read(attempts - 1).error
    ensures r.Err? ==> attempts == maxAttempts || (attempts >= 1 && stop(attempts - 1))
    ensures maxAttempts > 0 ==> attempts >= 1
  {
    var lastStatus := StatusReadFailed;
    attempts := 0;
    var attempt: nat := 1;
    while attempt <= maxAttempts
      invariant 1 <= attempt <= maxAttempts + 1
      invariant attempts == attempt - 1
      invariant forall k :: 0 <= k < attempts ==> read(k).Err?
      invariant forall k :: 0 <= k < attempts && k + 1 < maxAttempts ==> !stop(k)
      invariant attempts == 0 ==> lastStatus == StatusReadFailed
      invariant attempts > 0 ==> lastStatus == read(attempts - 1).error
    {
      var result := read(attempt - 1);
      attempts := attempt;
      if result.Ok? {
        return result, attempts;
      }
      lastStatus := result.error;
      if attempt < maxAttempts {
        if stop(attempt - 1) {
          return Err(lastStatus), attempts;
        }
      }
      attempt := attempt + 1;
    }
    r := Err(lastStatus);
  }

  function CeilDiv(a: nat, b: nat): nat
    requires b > 0
  {
    (a + b - 1) / b
  }

  /** `u32::saturating_add`. */
  function SaturatingAdd(a: uint32, b: uint32): (r: uint32)
    ensures r == if a + b <= Uint32Max then a + b else Uint32Max
  {
    if a + b <= Uint32Max then a + b else Uint32Max
  }

  const PollIntervalMs: nat := 250

  /** wait_service_state: poll every 250 ms until the service reports the
      desired state or the (u32-clamped) timeout has elapsed. `reached(k)`
      is whether poll k+1 saw the state. */
  method WaitServiceState(timeoutMs: nat, reached: nat -> bool) returns (ok: bool, polls: nat)
    ensures var limit := CeilDiv(Clamp(timeoutMs, 0, Uint32Max), PollIntervalMs);
      && polls <= limit
      && (ok <==> exists k :: 0 <= k < limit && reached(k))
      && (ok ==> polls >= 1 && reached(polls - 1))
      && (forall k :: 0 <= k && k + 1 < polls ==> !reached(k))
      && (!ok ==> polls == limit)
  {
    var timeout: uint32 := Clamp(timeoutMs, 0, Uint32Max);
    ghost var limit := CeilDiv(timeout, PollIntervalMs);
    var elapsed: uint32 := 0;
    polls := 0;
    while elapsed < timeout
      invariant elapsed == Clamp(PollIntervalMs * polls, 0, Uint32Max)
      invariant polls <= limit
      invariant forall k :: 0 <= k < polls ==> !reached(k)
    {
      if reached(polls) {
        return true, polls + 1;
      }
      elapsed := SaturatingAdd(elapsed, PollIntervalMs);
      polls := polls + 1;
    }
    ok := false;
  }

  // ---------------------------------------------------------------------
  // The service command line
  // ---------------------------------------------------------------------

  const Quote: uint16 := '"' as int
  const Space: uint16 := ' ' as int
  const ServiceFlag: string := "--service"
  const ExePathError: string := "获取程序路径失败: "

  /** to_wide: the UTF-16 of the string and exactly one terminating NUL. */
  function ToWide(value: string): (w: seq<uint16>)
    ensures |w| >= 1 && w[|w| - 1] == 0
    ensures w[..|w| - 1] == Text.EncodeUtf16(value)
  {
    Text.EncodeUtf16(value) + [0]
  }

  /** A NUL-free string's wide form has its only zero at the end, and the
      text decodes back from it. */
  lemma ToWideTerminatedOnce(value: string)
    requires '\0' !in value
    ensures var w := ToWide(value);
      (forall k :: 0 <= k < |w| - 1 ==> w[k] != 0) && Text.DecodeUtf16(w[..|w| - 1]) == Some(value)
  {
    Text.Utf16ZeroFree(value);
    Text.Utf16RoundTrip(value);
  }

  /** build_service_bin_path: `"<exe>" --service` and a NUL, or the error of
      current_exe with its prefix. `exe` is the executable path as wide
      units, or the reason it could not be got. */
  method BuildServiceBinPath(exe: Result<seq<uint16>, string>) returns (r: Result<seq<uint16>, string>)
    ensures exe.Err? ==> r == Err(ExePathError + exe.error)
    ensures exe.Ok? ==> r == Ok([Quote] + exe.value + [Quote, Space] + ToWide(ServiceFlag))
  {
    if exe.Err? {
      return Err(ExePathError + exe.error);
    }
    var path := exe.value;
    var flag := Text.EncodeUtf16(ServiceFlag);
    var wide: seq<uint16> := [];
    wide := wide + [Quote];
    assert wide == [Quote];
    wide := wide + path;
    wide := wide + [Quote];
    wide := wide + [Space];
    assert wide == [Quote] + path + [Quote, Space];
    wide := wide + flag;
    wide := wide + [0];
    assert wide == [Quote] + path + [Quote, Space] + (flag + [0]);
    r := Ok(wide);
  }

  /** How the service manager reads a command line whose program path is
      quoted: the units up to the next quote, then one space, then the
      NUL-terminated arguments. */
  function SplitQuotedCommand(w: seq<uint16>): Option<(seq<uint16>, seq<uint16>)>
  {
    if |w| < 2 || w[0] != Quote then None
    else
      var close := FirstIndexOf(w, Quote, 1);
      if close + 1 >= |w| || w[close + 1] != Space then None
      else
        var args := w[close + 2..];
        if args == [] || args[|args| - 1] != 0 || 0 in args[..|args| - 1] then None
        else Some((w[1..close], args[..|args| - 1]))
  }

  /** The first index at or after `from` holding `u`, or |w| if none. */
  function FirstIndexOf(w: seq<uint16>, u: uint16, from: nat): (i: nat)
    requires from <= |w|
    ensures from <= i <= |w|
    ensures i < |w| ==> w[i] == u
    ensures forall k :: from <= k < i ==> w[k] != u
    decreases |w| - from
  {
    if from == |w| then |w| else if w[from] == u then from else FirstIndexOf(w, u, from + 1)
  }

  /** For a path with no quote and no NUL, the service manager gets back
      exactly the executable path and the `--service` argument. */
  lemma ServiceCommandRoundTrip(exe: seq<uint16>)
    requires Quote !in exe && 0 !in exe
    ensures SplitQuotedCommand([Quote] + exe + [Quote, Space] + ToWide(ServiceFlag))
      == Some((exe, Text.EncodeUtf16(ServiceFlag)))
  {
    Text.Utf16ZeroFree(ServiceFlag);
    QuotedCommandSplits(exe, Text.EncodeUtf16(ServiceFlag));
  }

  /** A quoted quote-free path, a space and NUL-free NUL-terminated
      arguments split back into the path and the arguments. */
  lemma QuotedCommandSplits(exe: seq<uint16>, args: seq<uint16>)
    requires Quote !in exe && 0 !in args
    ensures SplitQuotedCommand([Quote] + exe + [Quote, Space] + (args + [0])) == Some((exe, args))
  {
    var w := [Quote] + exe + [Quote, Space] + (args + [0]);
    assert forall k :: 1 <= k < |exe| + 1 ==> w[k] == exe[k - 1];
    assert w[|exe| + 1] == Quote;
    assert FirstIndexOf(w, Quote, 1) == |exe| + 1 by {
      FirstIndexAt(w, Quote, 1, |exe| + 1);
    }
    assert w[1..|exe| + 1] == exe;
    var rest := w[|exe| + 3..];
    assert rest == args + [0];
    assert rest[..|rest| - 1] == args;
  }

  lemma {:induction false} FirstIndexAt(w: seq<uint16>, u: uint16, from: nat, at: nat)
    requires from <= at < |w| && w[at] == u
    requires forall k :: from <= k < at ==> w[k] != u
    ensures FirstIndexOf(w, u, from) == at
    decreases at - from
  {
    if from < at {
      FirstIndexAt(w, u, from + 1, at);
    }
  }

  // ---------------------------------------------------------------------
  // Texts
  // ---------------------------------------------------------------------

  /** status_message. */
  function StatusMessage(code: int): (m: string)
    ensures m == "unknown error" <==> !(0 <= code <= 9)
  {
    match code
    case 0 => "ok"
    case 1 => "invalid argument"
    case 2 => "admin privileges required"
    case 3 => "unsupported Windows version"
    case 4 => "non-AMD CPU detected"
    case 5 => "Ryzen Master driver missing or failed to start"
    case 6 => "unsupported CPU model"
    case 7 => "allocation failure"
    case 8 => "SDK initialization failed"
    case 9 => "telemetry read failed"
    case _ => "unknown error"
  }

  /** Each status 0..9 has its own message. */
  lemma StatusMessagesDistinct()
    ensures forall i, j :: 0 <= i < j <= 9 ==> StatusMessage(i) != StatusMessage(j)
  {
  }

  datatype ServiceState = NotInstalled | Running | Stopped

  /** service_state_label. */
  function ServiceStateLabel(state: ServiceState): string
  {
    match state
    case Running => "运行中"
    case Stopped => "未运行"
    case NotInstalled => "未安装"
  }

  /** The menu shows a different label for each state. */
  lemma ServiceStateLabelsDistinct(a: ServiceState, b: ServiceState)
    requires a != b
    ensures ServiceStateLabel(a) != ServiceStateLabel(b)
  {
    assert ServiceStateLabel(a)[1] != ServiceStateLabel(b)[1];
  }
}
