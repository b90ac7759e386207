/** The C++ sample application (src/sampleApp.cpp): the Deepcool HID init
    and status frames, the bounded telemetry retry and the streaming loop
    that gives up the USB device after a failed write.

    Device discovery, CreateFile, WriteFile and the SDK read are parameters:
    whether a path was found, the handle CreateFile returned (None for
    INVALID_HANDLE_VALUE), a boolean per write and, for the retry loop, an
    oracle indexed by attempt number. */
module SampleApp {
  import opened BoundedInts
  import opened Wrappers
  import opened DeepcoolFrame
  import MonitorService

  datatype DeviceHandle = InvalidHandle | Open(id: nat)

  /** What the program holds of the USB device: `usbReady`, `usbHandle`,
      every frame written to it, and every handle closed, in order. */
  datatype Usb = Usb(ready: bool, handle: DeviceHandle, sent: seq<seq<uint8>>, closed: seq<DeviceHandle>)

  /** `usbReady` is true exactly while a handle is held. */
  predicate Coherent(u: Usb)
  {
    u.ready <==> u.handle.Open?
  }

  // ---------------------------------------------------------------------
  // HID frames
  // ---------------------------------------------------------------------

  /** The outcome of InitUsbDevice: no path or no handle gives nothing
      written; otherwise the first frame, then the second only if the first
      write succeeded; a failed write closes the handle and leaves it
      invalid. */
  function UsbStart(pathFound: bool, created: Option<nat>, firstWriteOk: bool, secondWriteOk: bool): Usb
  {
    if !pathFound || created.None? then Usb(false, InvalidHandle, [], [])
    else if !firstWriteOk then Usb(false, InvalidHandle, [FirstInitFrame], [Open(created.value)])
    else if !secondWriteOk then Usb(false, InvalidHandle, [FirstInitFrame, SecondInitFrame], [Open(created.value)])
    else Usb(true, Open(created.value), [FirstInitFrame, SecondInitFrame], [])
  }

  /** InitUsbDevice: fill two 64-byte init frames in place and write them. */
  method InitUsbDevice(pathFound: bool, created: Option<nat>, firstWriteOk: bool, secondWriteOk: bool)
    returns (handle: DeviceHandle, ok: bool, sent: seq<seq<uint8>>, closed: seq<DeviceHandle>)
    ensures Usb(ok, handle, sent, closed) == UsbStart(pathFound, created, firstWriteOk, secondWriteOk)
  {
    handle, sent, closed := InvalidHandle, [], [];
    if !pathFound {
      return handle, false, sent, closed;
    }
    if created.None? {
      return handle, false, sent, closed;
    }
    handle := Open(created.value);

    var initPacket := NewFirstInitPacket();
    sent := sent + [initPacket[..]];
    if !firstWriteOk {
      closed := closed + [handle];
      handle := InvalidHandle;
      return handle, false, sent, closed;
    }

    RewriteToSecondInitPacket(initPacket);
    sent := sent + [initPacket[..]];
    if !secondWriteOk {
      closed := closed + [handle];
      handle := InvalidHandle;
      return handle, false, sent, closed;
    }
    ok := true;
  }

  /** InitUsbDevice succeeds exactly when a handle was opened and both writes
      went through; on any failure after opening, that handle is closed and
      none is kept; the second frame follows the first only after a good
      first write. */
  lemma UsbStartFacts(pathFound: bool, created: Option<nat>, firstWriteOk: bool, secondWriteOk: bool)
    ensures var u := UsbStart(pathFound, created, firstWriteOk, secondWriteOk);
      && Coherent(u)
      && (u.ready <==> pathFound && created.Some? && firstWriteOk && secondWriteOk)
      && (u.closed != [] <==> pathFound && created.Some? && !u.ready)
      && (u.closed != [] ==> u.closed == [Open(created.value)] && u.handle == InvalidHandle)
      && (u.sent == [] <==> !pathFound || created.None?)
      && (u.sent != [] ==> u.sent[0] == FirstInitFrame)
      && (|u.sent| == 2 <==> pathFound && created.Some? && firstWriteOk)
      && (|u.sent| == 2 ==> u.sent[1] == SecondInitFrame)
  {
  }

  /** SendUsbStatusPacket: the same 64-byte layout as the Rust encoder, with
      the checksum summed by index over bytes 1..15. `tempBits` is the bit
      pattern of `static_cast<float>(temperatureC)`. */
  method SendUsbStatusPacket(tempBits: uint32, powerW: int32, usagePercent: int32, writeOk: bool)
    returns (frame: seq<uint8>, ok: bool)
    ensures frame == StatusFrame(tempBits, powerW, usagePercent)
    ensures ok == writeOk
  {
    var packet := new uint8[PacketSize](_ => 0);
    FillStatusBody(packet, tempBits, powerW, usagePercent);
    ghost var body := StatusBody(tempBits, powerW, usagePercent);
    ghost var filled := packet[..];
    assert filled[1..16] == body[1..16];

    var checksum: uint16 := 0;
    for i := 1 to 16
      invariant packet[..] == filled
      invariant checksum == Sum(filled[1..i])
      invariant checksum <= 255 * (i - 1)
    {
      SumExtend(filled, 1, i);
      checksum := checksum + packet[i];
    }
    packet[16] := checksum % 256;
    packet[17] := Terminator;
    frame := packet[..];
    assert frame == filled[16 := (checksum % 256) as uint8][17 := Terminator];
    StatusFrameFromFilled(filled, body, (checksum % 256) as uint8);
    ok := writeOk;
  }

  /** The C++ and the Rust encoders write byte-identical frames for the same
      inputs. */
  method EncodersAgree(tempBits: uint32, powerW: int32, usagePercent: int32)
    returns (cpp: seq<uint8>, rust: seq<uint8>)
    ensures cpp == rust && |cpp| == PacketSize
  {
    var okCpp, okRust;
    cpp, okCpp := SendUsbStatusPacket(tempBits, powerW, usagePercent, true);
    rust, okRust := MonitorService.SendStatusPacket(tempBits, powerW, usagePercent, true);
    StatusFrameLayout(tempBits, powerW, usagePercent);
  }

  // ---------------------------------------------------------------------
  // The telemetry retry
  // ---------------------------------------------------------------------

  /** Some read among the first `maxAttempts` succeeds. */
  ghost predicate ReadSucceeds(readOk: nat -> bool, maxAttempts: int)
  {
    exists k: nat :: k < maxAttempts && readOk(k)
  }

  /** The tryReadTelemetry lambda: attempts 1..maxAttempts, stopping at the
      first successful read. `readOk(k)` answers attempt k+1. */
  method TryReadTelemetry(maxAttempts: int32, readOk: nat -> bool) returns (ok: bool, attempts: nat)
    ensures ok == ReadSucceeds(readOk, maxAttempts)
    ensures ok ==> 1 <= attempts <= maxAttempts as int && readOk(attempts - 1)
    ensures forall k: nat :: k + 1 < attempts ==> !readOk(k)
    ensures !ok ==> attempts == if maxAttempts > 0 then maxAttempts as int else 0
  {
    attempts := 0;
    var attempt: int := 1;
    while attempt <= maxAttempts as int
      invariant 1 <= attempt && (maxAttempts > 0 ==> attempt <= maxAttempts as int + 1)
      invariant maxAttempts <= 0 ==> attempt == 1
      invariant attempts == attempt - 1
      invariant forall k: nat :: k < attempts ==> !readOk(k)
    {
      attempts := attempt;
      if readOk(attempt - 1) {
        return true, attempts;
      }
      attempt := attempt + 1;
    }
    ok := false;
  }

  // ---------------------------------------------------------------------
  // StreamToConsoleAndUsb
  // ---------------------------------------------------------------------

  /** What one pass of the streaming loop sees: the reads of both rounds of
      tryReadTelemetry(10), the rounded power and usage and the float bits
      of the rounded temperature, and the outcome of the status write. */
  datatype Pass = Pass(firstReads: nat -> bool, secondReads: nat -> bool,
                       tempBits: uint32, power: int32, usage: int32, writeOk: bool)

  datatype StreamState = StreamState(usb: Usb, stopped: bool)

  const ReadAttemptsPerRound: int32 := 10

  /** A pass gets telemetry in its first round or, after the minute's pause,
      in its second. */
  ghost predicate TelemetryOk(p: Pass)
  {
    ReadSucceeds(p.firstReads, ReadAttemptsPerRound) || ReadSucceeds(p.secondReads, ReadAttemptsPerRound)
  }

  /** One pass: break when both rounds fail; otherwise, while the device is
      ready, write the status frame and give the device up if that fails. */
  ghost function StreamStep(st: StreamState, p: Pass): StreamState
  {
    if st.stopped then st
    else if !TelemetryOk(p) then st.(stopped := true)
    else if !st.usb.ready then st
    else
      var u := st.usb.(sent := st.usb.sent + [StatusFrame(p.tempBits, p.power, p.usage)]);
      if p.writeOk then st.(usb := u)
      else st.(usb := u.(ready := false, handle := InvalidHandle, closed := u.closed + [u.handle]))
  }

  /** The passes in order, from the state after InitUsbDevice. */
  ghost function Stream(st: StreamState, passes: seq<Pass>): StreamState
    decreases |passes|
  {
    if passes == [] then st else StreamStep(Stream(st, passes[..|passes| - 1]), passes[|passes| - 1])
  }

  /** After the loop a handle still held is closed. */
  function Finish(u: Usb): Usb
  {
    if u.handle.Open? then u.(closed := u.closed + [u.handle]) else u
  }

  /** The whole run: nothing at all without a monitoring context. */
  ghost function Run(contextOk: bool, start: Usb, passes: seq<Pass>): Usb
  {
    if !contextOk then Usb(false, InvalidHandle, [], []) else Finish(Stream(StreamState(start, false), passes).usb)
  }

  /** One pass of the loop body: read telemetry in up to two rounds, then
      write the status frame while the device is ready. */
  method StreamPass(usbReady: bool, usbHandle: DeviceHandle, sent: seq<seq<uint8>>, closed: seq<DeviceHandle>, p: Pass)
    returns (usbReady': bool, usbHandle': DeviceHandle, sent': seq<seq<uint8>>, closed': seq<DeviceHandle>, stopped: bool)
    requires usbReady <==> usbHandle.Open?
    ensures StreamState(Usb(usbReady', usbHandle', sent', closed'), stopped)
         == StreamStep(StreamState(Usb(usbReady, usbHandle, sent, closed), false), p)
    ensures usbReady' <==> usbHandle'.Open?
  {
    usbReady', usbHandle', sent', closed', stopped := usbReady, usbHandle, sent, closed, false;
    var telemetryOk, attempts := TryReadTelemetry(ReadAttemptsPerRound, p.firstReads);
    if !telemetryOk {
      telemetryOk, attempts := TryReadTelemetry(ReadAttemptsPerRound, p.secondReads);
    }
    if !telemetryOk {
      stopped := true;
    } else if usbReady {
      var frame, writeOk := SendUsbStatusPacket(p.tempBits, p.power, p.usage, p.writeOk);
      sent' := sent + [frame];
      if !writeOk {
        closed' := closed + [usbHandle];
        usbHandle' := InvalidHandle;
        usbReady' := false;
      }
    }
  }

  /** StreamToConsoleAndUsb over a finite run of loop passes. */
  method StreamToConsoleAndUsb(contextOk: bool, pathFound: bool, created: Option<nat>, firstWriteOk: bool,
                               secondWriteOk: bool, passes: seq<Pass>)
    returns (usb: Usb)
    ensures usb == Run(contextOk, UsbStart(pathFound, created, firstWriteOk, secondWriteOk), passes)
  {
    if !contextOk {
      return Usb(false, InvalidHandle, [], []);
    }
    var usbHandle, usbReady, sent, closed := InitUsbDevice(pathFound, created, firstWriteOk, secondWriteOk);
    ghost var start := StreamState(Usb(usbReady, usbHandle, sent, closed), false);
    UsbStartFacts(pathFound, created, firstWriteOk, secondWriteOk);
    var stopped := false;
    var i := 0;
    while i < |passes| && !stopped
      invariant 0 <= i <= |passes|
      invariant StreamState(Usb(usbReady, usbHandle, sent, closed), stopped) == Stream(start, passes[..i])
      invariant usbReady <==> usbHandle.Open?
    {
      assert passes[..i + 1][..i] == passes[..i];
      usbReady, usbHandle, sent, closed, stopped := StreamPass(usbReady, usbHandle, sent, closed, passes[i]);
      i := i + 1;
    }
    if i < |passes| {
      StoppedStaysStopped(start, passes[..i], passes[i..]);
      assert passes[..i] + passes[i..] == passes;
    } else {
      assert passes[..i] == passes;
    }
    usb := Usb(usbReady, usbHandle, sent, closed);
    if usbHandle != InvalidHandle {
      usb := usb.(closed := closed + [usbHandle]);
    }
  }

  // ---------------------------------------------------------------------
  // Properties of the streaming loop
  // ---------------------------------------------------------------------

  /** The run is a fold: more passes extend it. */
  lemma {:induction false} StreamAppend(st: StreamState, a: seq<Pass>, b: seq<Pass>)
    ensures Stream(st, a + b) == Stream(Stream(st, a), b)
    decreases |b|
  {
    if b == [] {
      assert a + b == a;
    } else {
      var b' := b[..|b| - 1];
      assert (a + b)[..|a + b| - 1] == a + b';
      StreamAppend(st, a, b');
    }
  }

  /** After the loop breaks, later passes change nothing. */
  lemma {:induction false} StoppedStaysStopped(st: StreamState, a: seq<Pass>, b: seq<Pass>)
    requires Stream(st, a).stopped
    ensures Stream(st, a + b) == Stream(st, a)
    decreases |b|
  {
    if b == [] {
      assert a + b == a;
    } else {
      var b' := b[..|b| - 1];
      assert (a + b)[..|a + b| - 1] == a + b';
      StoppedStaysStopped(st, a, b');
    }
  }

  /** Once the device is given up (or never came up), it stays given up:
      no frame is written to it again and no other handle is taken or
      closed. */
  lemma {:induction false} DisabledStaysDisabled(st: StreamState, a: seq<Pass>, b: seq<Pass>)
    requires Coherent(st.usb) && !Stream(st, a).usb.ready
    ensures Stream(st, a + b).usb == Stream(st, a).usb
    decreases |b|
  {
    if b == [] {
      assert a + b == a;
    } else {
      var b' := b[..|b| - 1];
      assert (a + b)[..|a + b| - 1] == a + b';
      DisabledStaysDisabled(st, a, b');
    }
  }

  /** A failed status write leaves `usbReady` false and the handle invalid,
      having closed the handle that was held. */
  lemma FailedWriteDisables(st: StreamState, p: Pass)
    requires Coherent(st.usb) && st.usb.ready && !st.stopped && TelemetryOk(p) && !p.writeOk
    ensures var n := StreamStep(st, p);
      && !n.usb.ready && n.usb.handle == InvalidHandle
      && n.usb.closed == st.usb.closed + [st.usb.handle]
      && n.usb.sent == st.usb.sent + [StatusFrame(p.tempBits, p.power, p.usage)]
  {
  }

  /** Every pass keeps `usbReady` in step with the handle. */
  lemma {:induction false} StreamCoherent(st: StreamState, passes: seq<Pass>)
    requires Coherent(st.usb)
    ensures Coherent(Stream(st, passes).usb)
    decreases |passes|
  {
    if passes != [] {
      StreamCoherent(st, passes[..|passes| - 1]);
    }
  }

  /** The loop breaks exactly when some pass fails both rounds of reads. */
  lemma {:induction false} StopsIffBothRoundsFail(st: StreamState, passes: seq<Pass>)
    requires !st.stopped
    ensures Stream(st, passes).stopped <==> exists j :: 0 <= j < |passes| && !TelemetryOk(passes[j])
    decreases |passes|
  {
    if passes != [] {
      var init := passes[..|passes| - 1];
      StopsIffBothRoundsFail(st, init);
      if exists j :: 0 <= j < |init| && !TelemetryOk(init[j]) {
        var j :| 0 <= j < |init| && !TelemetryOk(init[j]);
        assert passes[j] == init[j];
      }
      if exists j :: 0 <= j < |passes| && !TelemetryOk(passes[j]) {
        var j :| 0 <= j < |passes| && !TelemetryOk(passes[j]);
        if j < |init| {
          assert init[j] == passes[j];
        }
      }
    }
  }

  /** At the end of a run no handle is left open: every handle the run
      opened appears among the closed ones. */
  lemma RunClosesHandle(contextOk: bool, pathFound: bool, created: Option<nat>, firstWriteOk: bool,
                        secondWriteOk: bool, passes: seq<Pass>)
    requires contextOk && pathFound && created.Some?
    ensures var u := Run(contextOk, UsbStart(pathFound, created, firstWriteOk, secondWriteOk), passes);
      Open(created.value) in u.closed
  {
    var start := UsbStart(pathFound, created, firstWriteOk, secondWriteOk);
    var st := StreamState(start, false);
    var end := Stream(st, passes);
    UsbStartFacts(pathFound, created, firstWriteOk, secondWriteOk);
    if start.ready {
      HandleKeptOrClosed(st, passes, created.value);
    } else {
      DisabledStaysDisabled(st, [], passes);
      assert [] + passes == passes;
    }
  }

  /** From a ready start holding handle `id`, the run either still holds it
      or has closed it. */
  lemma {:induction false} HandleKeptOrClosed(st: StreamState, passes: seq<Pass>, id: nat)
    requires st.usb.ready && st.usb.handle == Open(id)
    ensures var u := Stream(st, passes).usb;
      (u.ready && u.handle == Open(id)) || (!u.ready && Open(id) in u.closed)
    decreases |passes|
  {
    if passes != [] {
      HandleKeptOrClosed(st, passes[..|passes| - 1], id);
    }
  }
}
