/** The 64-byte HID frames a Deepcool display (VID 0x3633, PID 0x000A)
    accepts, as both senders build them: rust/src/main.rs and
    src/sampleApp.cpp. This module is the one description of their layout;
    the two encoders are proved to fill their arrays to it. */
module DeepcoolFrame {
  import opened BoundedInts

  const PacketSize: nat := 64
  const Terminator: uint8 := 22

  /** Bytes 0..7 of a status frame. */
  const StatusHeader: seq<uint8> := [16, 104, 1, 1, 11, 1, 2, 5]

  function Zeros(n: nat): (z: seq<uint8>)
    ensures |z| == n && forall i :: 0 <= i < n ==> z[i] == 0
  {
    seq(n, _ => 0)
  }

  /** Sum of bytes, accumulated from the left as the checksum loops do. */
  function Sum(s: seq<uint8>): nat
  {
    if s == [] then 0 else Sum(s[..|s| - 1]) + s[|s| - 1] as int
  }

  lemma {:induction false} SumBound(s: seq<uint8>)
    ensures Sum(s) <= 255 * |s|
  {
    if s != [] {
      SumBound(s[..|s| - 1]);
    }
  }

  /** One step of the checksum accumulation over `a[lo..hi]`. */
  lemma SumExtend(a: seq<uint8>, lo: nat, hi: nat)
    requires lo <= hi < |a|
    ensures Sum(a[lo..hi + 1]) == Sum(a[lo..hi]) + a[hi] as int
  {
    assert a[lo..hi + 1][..hi - lo] == a[lo..hi];
  }

  /** The four bytes of a 32-bit word, most significant first. */
  function BigEndian32(bits: uint32): seq<uint8>
  {
    [ByteOf(bits, 3), ByteOf(bits, 2), ByteOf(bits, 1), ByteOf(bits, 0)]
  }

  /** Reassembling the four bytes gives the word back. */
  lemma BigEndian32RoundTrip(bits: uint32)
    ensures var b := BigEndian32(bits);
      b[0] as int * 0x100_0000 + b[1] as int * 0x1_0000 + b[2] as int * 0x100 + b[3] as int == bits
  {
    var q1 := bits / 0x100;
    var q2 := q1 / 0x100;
    var q3 := q2 / 0x100;
    assert bits == q1 * 0x100 + bits % 256;
    assert q1 == q2 * 0x100 + q1 % 256;
    assert q2 == q3 * 0x100 + q2 % 256;
    assert q2 == bits / 0x1_0000;
    assert q3 == bits / 0x100_0000 && q3 < 256;
  }

  /** Bytes 0..15 of a status frame: header, clamped power (big-endian),
      a zero, the temperature word (big-endian), clamped usage. */
  function StatusBody(tempBits: uint32, powerW: int, usagePercent: int): (b: seq<uint8>)
    ensures |b| == 16 && b[..8] == StatusHeader
  {
    var power := Clamp(powerW, 0, Uint16Max);
    [16, 104, 1, 1, 11, 1, 2, 5, (power / 256) as uint8, (power % 256) as uint8, 0,
     ByteOf(tempBits, 3), ByteOf(tempBits, 2), ByteOf(tempBits, 1), ByteOf(tempBits, 0),
     Clamp(usagePercent, 0, 100) as uint8]
  }

  /** The whole status frame: body, mod-256 checksum of bytes 1..15,
      terminator, zero padding. */
  function StatusFrame(tempBits: uint32, powerW: int, usagePercent: int): seq<uint8>
  {
    var body := StatusBody(tempBits, powerW, usagePercent);
    body + [(Sum(body[1..16]) % 256) as uint8, Terminator] + Zeros(PacketSize - 18)
  }

  /** The layout of a status frame, field by field. */
  lemma StatusFrameLayout(tempBits: uint32, powerW: int, usagePercent: int)
    ensures var p := StatusFrame(tempBits, powerW, usagePercent);
      && |p| == PacketSize
      && p[..8] == StatusHeader
      && 256 * p[8] as int + p[9] as int == Clamp(powerW, 0, Uint16Max)
      && p[10] == 0
      && p[11..15] == BigEndian32(tempBits)
      && p[15] as int == Clamp(usagePercent, 0, 100)
      && p[16] as int == Sum(p[1..16]) % 256
      && Sum(p[1..16]) < TwoTo16
      && p[17] == Terminator
      && (forall i :: 18 <= i < PacketSize ==> p[i] == 0)
  {
    var body := StatusBody(tempBits, powerW, usagePercent);
    var p := StatusFrame(tempBits, powerW, usagePercent);
    assert p[1..16] == body[1..16];
    SumBound(body[1..16]);
  }

  /** The two frames init_hid_device / InitUsbDevice send, differing in
      bytes 5 and 7. */
  function InitFrame(b5: uint8, b7: uint8): seq<uint8>
  {
    [16, 104, 1, 1, 2, b5, 1, b7, Terminator] + Zeros(PacketSize - 9)
  }
  const FirstInitFrame: seq<uint8> := InitFrame(3, 112)
  const SecondInitFrame: seq<uint8> := InitFrame(2, 111)

  /** The second init frame is the first with bytes 5 and 7 changed. */
  lemma InitFramesDifferOnlyIn5And7()
    ensures |FirstInitFrame| == |SecondInitFrame| == PacketSize
    ensures forall i :: 0 <= i < PacketSize && i != 5 && i != 7 ==> FirstInitFrame[i] == SecondInitFrame[i]
    ensures FirstInitFrame[5] == 3 && SecondInitFrame[5] == 2
    ensures FirstInitFrame[7] == 112 && SecondInitFrame[7] == 111
    ensures FirstInitFrame[8] == Terminator && FirstInitFrame[..4] == [16, 104, 1, 1]
  {
  }

  // ---------------------------------------------------------------------
  // Filling a zeroed buffer in place, as both encoders do
  // ---------------------------------------------------------------------

  /** The field stores send_status_packet and SendUsbStatusPacket make into
      a zeroed buffer: the header, then the measured fields. */
  method FillStatusBody(packet: array<uint8>, tempBits: uint32, powerW: int32, usagePercent: int32)
    requires packet.Length == PacketSize && forall k | 0 <= k < PacketSize :: packet[k] == 0
    modifies packet
    ensures packet[..16] == StatusBody(tempBits, powerW, usagePercent)
    ensures forall k | 16 <= k < PacketSize :: packet[k] == 0
  {
    WriteStatusHeader(packet);
    WriteStatusFields(packet, tempBits, powerW, usagePercent);
    assert packet[..16] == packet[..8] + packet[8..16];
  }

  /** Bytes 0..7: the fixed status header. */
  method WriteStatusHeader(packet: array<uint8>)
    requires packet.Length == PacketSize
    modifies packet
    ensures packet[..8] == StatusHeader
    ensures forall k | 8 <= k < PacketSize :: packet[k] == old(packet[k])
  {
    packet[0] := 16;
    packet[1] := 104;
    packet[2] := 1;
    packet[3] := 1;
    packet[4] := 11;
    packet[5] := 1;
    packet[6] := 2;
    packet[7] := 5;
  }

  /** Bytes 8..15: clamped power big-endian, a zero, the f32 bits
      big-endian, clamped usage. */
  method WriteStatusFields(packet: array<uint8>, tempBits: uint32, powerW: int32, usagePercent: int32)
    requires packet.Length == PacketSize
    modifies packet
    ensures packet[8..16] == StatusBody(tempBits, powerW, usagePercent)[8..]
    ensures forall k | 0 <= k < PacketSize && !(8 <= k < 16) :: packet[k] == old(packet[k])
  {
    var powerInt: uint16 := Clamp(powerW, 0, Uint16Max);
    packet[8] := powerInt / 256;
    packet[9] := powerInt % 256;

    packet[10] := 0;
    packet[11] := ByteOf(tempBits, 3);
    packet[12] := ByteOf(tempBits, 2);
    packet[13] := ByteOf(tempBits, 1);
    packet[14] := ByteOf(tempBits, 0);

    var utilization: uint8 := Clamp(usagePercent, 0, 100);
    packet[15] := utilization;
  }

  /** A zeroed buffer whose first 16 bytes hold `body`, with the checksum and
      the terminator stored at 16 and 17, is the status frame layout. */
  lemma StatusFrameFromFilled(filled: seq<uint8>, body: seq<uint8>, c: uint8)
    requires |filled| == PacketSize && |body| == 16 && filled[..16] == body
    requires forall k | 16 <= k < PacketSize :: filled[k] == 0
    ensures filled[16 := c][17 := Terminator] == body + [c, Terminator] + Zeros(PacketSize - 18)
  {
    var lhs := filled[16 := c][17 := Terminator];
    var rhs := body + [c, Terminator] + Zeros(PacketSize - 18);
    forall k | 0 <= k < PacketSize
      ensures lhs[k] == rhs[k]
    {
      if k < 16 {
        assert lhs[k] == filled[..16][k];
      }
    }
  }

  /** The buffer init_hid_device and InitUsbDevice write first: a zeroed
      packet with the four-byte prefix, copied, and bytes 4..8 stored into
      the copy. */
  method NewFirstInitPacket() returns (initPacket: array<uint8>)
    ensures fresh(initPacket) && initPacket[..] == FirstInitFrame
  {
    var packet := new uint8[PacketSize](_ => 0);
    packet[0] := 16;
    packet[1] := 104;
    packet[2] := 1;
    packet[3] := 1;

    initPacket := new uint8[PacketSize](_ => 0);
    forall k | 0 <= k < PacketSize {
      initPacket[k] := packet[k];
    }
    ghost var copied := initPacket[..];
    assert copied[..4] == [16, 104, 1, 1];
    initPacket[4] := 2;
    initPacket[5] := 3;
    initPacket[6] := 1;
    initPacket[7] := 112;
    initPacket[8] := Terminator;
    assert initPacket[..] == copied[4 := 2 as uint8][5 := 3 as uint8][6 := 1 as uint8][7 := 112 as uint8][8 := Terminator];
    InitFrameFromCopy(copied, 3, 112);
  }

  /** The two stores that turn the first init frame into the second. */
  method RewriteToSecondInitPacket(initPacket: array<uint8>)
    requires initPacket[..] == FirstInitFrame
    modifies initPacket
    ensures initPacket[..] == SecondInitFrame
  {
    ghost var first := initPacket[..];
    initPacket[5] := 2;
    initPacket[7] := 111;
    assert initPacket[..] == first[5 := 2][7 := 111];
    InitFrameRewrite(3, 112, 2, 111);
  }

  /** A buffer holding an init frame's nine leading bytes and zeros after
      them is that init frame. */
  lemma InitFrameFromBuffer(buf: seq<uint8>, b5: uint8, b7: uint8)
    requires |buf| == PacketSize && buf[..9] == [16, 104, 1, 1, 2, b5, 1, b7, Terminator]
    requires forall k | 9 <= k < PacketSize :: buf[k] == 0
    ensures buf == InitFrame(b5, b7)
  {
    assert buf == buf[..9] + buf[9..];
    assert buf[9..] == Zeros(PacketSize - 9);
  }

  /** The header prefix followed by zeros, with bytes 4..8 of an init frame
      stored over it, is that init frame. */
  lemma InitFrameFromCopy(copied: seq<uint8>, b5: uint8, b7: uint8)
    requires |copied| == PacketSize && copied[..4] == [16, 104, 1, 1]
    requires forall k | 4 <= k < PacketSize :: copied[k] == 0
    ensures copied[4 := 2 as uint8][5 := b5][6 := 1 as uint8][7 := b7][8 := Terminator] == InitFrame(b5, b7)
  {
    var buf := copied[4 := 2 as uint8][5 := b5][6 := 1 as uint8][7 := b7][8 := Terminator];
    assert buf[..9] == [16, 104, 1, 1, 2, b5, 1, b7, Terminator] by {
      assert forall k | 0 <= k < 4 :: buf[k] == copied[..4][k];
    }
    InitFrameFromBuffer(buf, b5, b7);
  }

  /** Overwriting bytes 5 and 7 of an init frame gives the init frame with
      those bytes. */
  lemma InitFrameRewrite(b5: uint8, b7: uint8, c5: uint8, c7: uint8)
    ensures InitFrame(b5, b7)[5 := c5][7 := c7] == InitFrame(c5, c7)
  {
    var lhs := InitFrame(b5, b7)[5 := c5][7 := c7];
    forall k | 0 <= k < PacketSize
      ensures lhs[k] == InitFrame(c5, c7)[k]
    {
    }
  }
}
