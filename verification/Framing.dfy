/** The frame codec: src/util.cpp builds a frame, `ReadAsync` in src/ClientSocket.cpp recognises one. */
module Framing {
  import opened Bytes
  import opened Options
  import opened Words

  type Int32 = n: int | -0x8000_0000 <= n < 0x8000_0000

  /** The letters "prot". */
  const MAGIC: seq<Byte> := [112, 114, 111, 116]

  // ---------------------------------------------------------------- building

  /** Two's complement, least significant octet first. */
  function Int32Bytes(value: Int32): (s: seq<Byte>)
    ensures |s| == 4
  {
    [value % 256, value / 0x100 % 256, value / 0x1_0000 % 256, value / 0x100_0000 % 256]
  }

  /** The bit pattern of a signed value. */
  function Bits(value: Int32): bv32 {
    (if value < 0 then value + TWO_32 else value) as bv32
  }

  // `>>` on a signed int copies the sign bit in from the left.

  function Shift8(x: bv32): bv32 { if x & 0x8000_0000 == 0 then x >> 8 else (x >> 8) | 0xFF00_0000 }

  function Shift16(x: bv32): bv32 { if x & 0x8000_0000 == 0 then x >> 16 else (x >> 16) | 0xFFFF_0000 }

  function Shift24(x: bv32): bv32 { if x & 0x8000_0000 == 0 then x >> 24 else (x >> 24) | 0xFFFF_FF00 }

  /** `static_cast<char>(x & 0xFF)`. */
  function LowOctet(x: bv32): Byte { (x & 0xFF) as int }

  /** `append_int_vec_char_le`: masks and arithmetic shifts of the bits. */
  method AppendInt(buffer: seq<Byte>, value: Int32) returns (r: seq<Byte>)
    ensures r == buffer + Int32Bytes(value)
  {
    hide Bits;
    hide Shift8;
    hide Shift16;
    hide Shift24;
    hide LowOctet;
    var x := Bits(value);
    MaskedBits(value);
    r := buffer + [LowOctet(x)];
    r := r + [LowOctet(Shift8(x))];
    r := r + [LowOctet(Shift16(x))];
    r := r + [LowOctet(Shift24(x))];
  }

  // After the mask the copies of the sign bit are gone.

  lemma Masked8(x: bv32)
    ensures LowOctet(Shift8(x)) == Unpack32(x)[2]
  {
    assert Shift8(x) & 0xFF == (x >> 8) & 0xFF;
    hide Shift8;
  }

  lemma Masked16(x: bv32)
    ensures LowOctet(Shift16(x)) == Unpack32(x)[1]
  {
    assert Shift16(x) & 0xFF == (x >> 16) & 0xFF;
    hide Shift16;
  }

  lemma Masked24(x: bv32)
    ensures LowOctet(Shift24(x)) == Unpack32(x)[0]
  {
    assert Shift24(x) & 0xFF == (x >> 24) & 0xFF;
    hide Shift24;
  }

  lemma Masked0(x: bv32)
    ensures LowOctet(x) == Unpack32(x)[3]
  {
  }

  /** Masks and arithmetic shifts yield the Euclidean octets of the signed value. */
  lemma MaskedBits(value: Int32)
    ensures var x := Bits(value);
            [LowOctet(x), LowOctet(Shift8(x)), LowOctet(Shift16(x)), LowOctet(Shift24(x))] == Int32Bytes(value)
  {
    hide LowOctet;
    hide Shift8;
    hide Shift16;
    hide Shift24;
    hide Unpack32;
    hide BigEndian;
    var u: nat, x := if value < 0 then value + TWO_32 else value, Bits(value);
    WordOfNumber(u);
    hide Bits;
    Unpack32IsBigEndian(x);
    BigEndianOctets(u);
    SameOctets(value);
    Masked0(x);
    Masked8(x);
    Masked16(x);
    Masked24(x);
  }

  lemma BigEndianOctets(u: nat)
    ensures BigEndian(u, 4) == [u / 0x100_0000 % 256, u / 0x1_0000 % 256, u / 0x100 % 256, u % 256]
  {
    var u1 := u / 256;
    var u2 := u1 / 256;
    var u3 := u2 / 256;
    assert u / 0x1_0000 == u2 && u / 0x100_0000 == u3;
    assert BigEndian(u3, 1) == [u3 % 256];
    assert BigEndian(u2, 2) == [u3 % 256, u2 % 256];
    assert BigEndian(u1, 3) == [u3 % 256, u2 % 256, u1 % 256];
  }

  lemma SameOctets(value: int)
    ensures (value + TWO_32) % 256 == value % 256
    ensures (value + TWO_32) / 0x100 % 256 == value / 0x100 % 256
    ensures (value + TWO_32) / 0x1_0000 % 256 == value / 0x1_0000 % 256
    ensures (value + TWO_32) / 0x100_0000 % 256 == value / 0x100_0000 % 256
  {
    Mod256(value, 0x100_0000);
    assert (value + TWO_32) / 0x100 == value / 0x100 + 256 * 0x1_0000;
    Mod256(value / 0x100, 0x1_0000);
    assert (value + TWO_32) / 0x1_0000 == value / 0x1_0000 + 256 * 0x100;
    Mod256(value / 0x1_0000, 0x100);
    assert (value + TWO_32) / 0x100_0000 == value / 0x100_0000 + 256;
    Mod256(value / 0x100_0000, 1);
  }

  lemma Mod256(y: int, k: int)
    ensures (y + 256 * k) % 256 == y % 256
  {
  }

  function Header(kind: Int32, len: Int32): (s: seq<Byte>)
    ensures |s| == 12
  {
    MAGIC + Int32Bytes(kind) + Int32Bytes(len)
  }

  method AppendProtPacket(buffer: seq<Byte>, kind: Int32, len: Int32) returns (r: seq<Byte>)
    ensures r == buffer + Header(kind, len)
  {
    r := buffer + MAGIC;
    r := AppendInt(r, kind);
    r := AppendInt(r, len);
  }

  function Frame(kind: Int32, payload: seq<Byte>): (f: seq<Byte>)
    requires |payload| + 12 < 0x8000_0000
    ensures |f| == 12 + |payload|
  {
    Header(kind, 12 + |payload|) + payload
  }

  /** What every handler does with its serialised answer. */
  method BuildFrame(kind: Int32, payload: seq<Byte>) returns (f: seq<Byte>)
    requires |payload| + 12 < 0x8000_0000
    ensures f == Frame(kind, payload)
  {
    f := AppendProtPacket([], kind, |payload| + 12);
    f := f + payload;
  }

  // ---------------------------------------------------------------- recognising

  /** Four octets read as a 32-bit signed integer on a little-endian machine. */
  function Int32At(s: seq<Byte>, at: nat): Int32
    requires at + 4 <= |s|
  {
    var u := (s[at] as int) + 0x100 * (s[at + 1] as int) + 0x1_0000 * (s[at + 2] as int) + 0x100_0000 * (s[at + 3] as int);
    if u < 0x8000_0000 then u else u - TWO_32
  }

  /**
   * The test ReadAsync makes on its buffer after a read of `length` octets: what is handed to
   * HandlePacket, as the type and the length of the data from octet 12 on.
   */
  function Recognise(buffer: seq<Byte>, length: nat): Option<(Int32, int)>
    requires |buffer| == 4096  // RECV_BUFFER_SIZE
  {
    if buffer[..4] == MAGIC && Int32At(buffer, 8) == length
    then Some((Int32At(buffer, 4), length - 12))
    else None
  }

  class Reader {
    const recvBuffer: array<Byte>

    constructor ()
      ensures fresh(recvBuffer) && recvBuffer.Length == 4096
    {
      recvBuffer := new Byte[4096](i => 0);
    }

    /** A read overwrites the start of the buffer; what follows is left from earlier reads. */
    method OnRead(data: seq<Byte>) returns (packet: Option<(Int32, int)>)
      requires recvBuffer.Length == 4096 && 0 < |data| <= 4096
      modifies recvBuffer
      ensures recvBuffer[..] == data + old(recvBuffer[|data|..])
      ensures packet == Recognise(recvBuffer[..], |data|)
      ensures |data| >= 12 ==> Delivered(recvBuffer[..], packet) == Decode(data)
    {
      forall i | 0 <= i < |data| {
        recvBuffer[i] := data[i];
      }
      assert recvBuffer[..] == data + old(recvBuffer[|data|..]);
      var buffer := recvBuffer[..];
      packet := None;
      if buffer[..4] == MAGIC {
        var kind, total := Int32At(buffer, 4), Int32At(buffer, 8);
        if total == |data| {
          packet := Some((kind, |data| - 12));
        }
      }
      if |data| >= 12 {
        RecogniseIsDecode(buffer, data);
      }
    }
  }

  /** The type and octets a handler sees. */
  function Delivered(buffer: seq<Byte>, packet: Option<(Int32, int)>): (Option<Int32>, seq<Byte>)
    requires |buffer| == 4096
    requires packet.Some? ==> 0 <= packet.value.1 <= 4096 - 12
  {
    if packet.Some? then (Some(packet.value.0), buffer[12..12 + packet.value.1]) else (None, [])
  }

  /** Once a header has been read, what earlier reads left behind does not matter. */
  lemma RecogniseIsDecode(buffer: seq<Byte>, data: seq<Byte>)
    requires |buffer| == 4096 && 12 <= |data| <= 4096 && data <= buffer
    ensures Delivered(buffer, Recognise(buffer, |data|)) == Decode(data)
  {
    assert buffer[..4] == data[..4];
    assert buffer[12..|data|] == data[12..];
  }

  /** What a read of at least a header delivers: it depends on the octets read alone. */
  function Decode(data: seq<Byte>): (Option<Int32>, seq<Byte>)
    requires 12 <= |data| <= 4096
  {
    if data[..4] == MAGIC && Int32At(data, 8) == |data| then (Some(Int32At(data, 4)), data[12..])
    else (None, [])
  }

  // ---------------------------------------------------------------- the two are inverse

  lemma Int32RoundTrip(value: Int32, pre: seq<Byte>, post: seq<Byte>)
    ensures Int32At(pre + Int32Bytes(value) + post, |pre|) == value
  {
    var s, b := pre + Int32Bytes(value) + post, Int32Bytes(value);
    assert s[|pre|] == b[0] && s[|pre| + 1] == b[1] && s[|pre| + 2] == b[2] && s[|pre| + 3] == b[3];
    OctetSum(value);
  }

  /** The four octets of a signed value add up to its value modulo 2^32. */
  lemma OctetSum(value: Int32)
    ensures value % 256 + 0x100 * (value / 0x100 % 256) + 0x1_0000 * (value / 0x1_0000 % 256)
            + 0x100_0000 * (value / 0x100_0000 % 256)
         == if value < 0 then value + TWO_32 else value
  {
    var a := value / 0x100;
    var b := a / 0x100;
    var c := b / 0x100;
    assert value / 0x1_0000 == b && value / 0x100_0000 == c;
    assert c % 256 == if value < 0 then c + 256 else c;
  }

  lemma OctetsOf(b0: Byte, b1: Byte, b2: Byte, b3: int, value: Int32)
    requires -128 <= b3 < 128
    requires value == (b0 as int) + 0x100 * ((b1 as int) + 0x100 * ((b2 as int) + 0x100 * b3))
    ensures Int32Bytes(value) == [b0, b1, b2, b3 % 256]
  {
    var v1: int := (b1 as int) + 0x100 * ((b2 as int) + 0x100 * b3);
    var v2: int := (b2 as int) + 0x100 * b3;
    assert value / 0x100 == v1 && v1 / 0x100 == v2 && v2 / 0x100 == b3;
    assert value / 0x1_0000 == v2 && value / 0x100_0000 == b3;
  }

  lemma Int32AtInjective(s: seq<Byte>, at: nat)
    requires at + 4 <= |s|
    ensures s[at..at + 4] == Int32Bytes(Int32At(s, at))
  {
    var b3: int := s[at + 3];
    OctetsOf(s[at], s[at + 1], s[at + 2], if b3 < 128 then b3 else b3 - 256, Int32At(s, at));
  }

  /** A read that holds exactly one frame is delivered with its type and payload. */
  lemma FrameDecodes(kind: Int32, payload: seq<Byte>)
    requires 12 + |payload| <= 4096
    ensures Decode(Frame(kind, payload)) == (Some(kind), payload)
  {
    var f := Frame(kind, payload);
    var len := 12 + |payload|;
    hide Int32At;
    hide Int32Bytes;
    assert f == MAGIC + Int32Bytes(kind) + (Int32Bytes(len) + payload);
    Int32RoundTrip(kind, MAGIC, Int32Bytes(len) + payload);
    assert f == (MAGIC + Int32Bytes(kind)) + Int32Bytes(len) + payload;
    Int32RoundTrip(len, MAGIC + Int32Bytes(kind), payload);
  }

  /** And nothing else is ever delivered: the recogniser accepts exactly the frames. */
  lemma DecodesOnlyFrames(data: seq<Byte>, kind: Int32, payload: seq<Byte>)
    requires 12 <= |data| <= 4096
    ensures Decode(data) == (Some(kind), payload) <==> 12 + |payload| <= 4096 && data == Frame(kind, payload)
  {
    if Decode(data) == (Some(kind), payload) {
      Int32AtInjective(data, 4);
      Int32AtInjective(data, 8);
      hide Int32At;
      hide Int32Bytes;
      assert data == data[..4] + data[4..8] + data[8..12] + data[12..];
    } else if 12 + |payload| <= 4096 && data == Frame(kind, payload) {
      FrameDecodes(kind, payload);
    }
  }

  /** Neither a proper prefix of a frame nor a frame followed by more octets is delivered. */
  lemma FramesArePrefixFree(kind: Int32, payload: seq<Byte>, data: seq<Byte>)
    requires 12 + |payload| <= 4096 && 12 <= |data| <= 4096
    requires data < Frame(kind, payload) || Frame(kind, payload) < data
    ensures Decode(data).0 == None
  {
    var f := Frame(kind, payload);
    FrameDecodes(kind, payload);
    assert data[..12] == f[..12];
    assert data[8..12] == data[..12][8..12] == f[..12][8..12] == f[8..12];
    assert data[8] == f[8] && data[9] == f[9] && data[10] == f[10] && data[11] == f[11];
    assert Int32At(data, 8) == Int32At(f, 8) == |f|;
  }

  // ---------------------------------------------------------------- the frame, octet by octet

  /** Octets at .. at + 4 read with the least significant first. */
  function LittleEndianAt(s: seq<Byte>, at: nat): int
    requires at + 4 <= |s|
  {
    (s[at] as int) + 0x100 * (s[at + 1] as int) + 0x1_0000 * (s[at + 2] as int) + 0x100_0000 * (s[at + 3] as int)
  }

  lemma LettersProt(i: nat)
    requires i < 4
    ensures MAGIC[i] == "prot"[i] as int
  {
  }

  /**
   * A frame is the letters "prot", the type in octets 4..8, the total length in octets 8..12, both
   * in two's complement with the least significant octet first, and the payload.
   */
  lemma FrameLayout(kind: Int32, payload: seq<Byte>)
    requires |payload| + 12 < 0x8000_0000
    ensures var f := Frame(kind, payload);
            && (forall i | 0 <= i < 4 :: f[i] == "prot"[i] as int)
            && LittleEndianAt(f, 4) == (if kind < 0 then kind + TWO_32 else kind)
            && LittleEndianAt(f, 8) == |f| == 12 + |payload|
            && f[12..] == payload
  {
    var f := Frame(kind, payload);
    var len: Int32 := 12 + |payload|;
    forall i | 0 <= i < 4
      ensures f[i] == "prot"[i] as int
    {
      LettersProt(i);
    }
    OctetSum(kind);
    OctetSum(len);
    assert f[4] == kind % 256 && f[5] == kind / 0x100 % 256 && f[6] == kind / 0x1_0000 % 256 && f[7] == kind / 0x100_0000 % 256;
    assert f[8] == len % 256 && f[9] == len / 0x100 % 256 && f[10] == len / 0x1_0000 % 256 && f[11] == len / 0x100_0000 % 256;
  }

  lemma StartsProt(s: seq<Byte>)
    requires |s| >= 4
    ensures s[..4] == MAGIC <==> forall i | 0 <= i < 4 :: s[i] == "prot"[i] as int
  {
    LettersProt(0);
    LettersProt(1);
    LettersProt(2);
    LettersProt(3);
    var start := s[..4];
    assert start[0] == s[0] && start[1] == s[1] && start[2] == s[2] && start[3] == s[3];
    assert start == [s[0], s[1], s[2], s[3]];
  }

  /**
   * The code hands on what it read exactly if the buffer starts with "prot" and the length written
   * there is that of the read.
   */
  lemma RecognisedIff(buffer: seq<Byte>, length: nat)
    requires |buffer| == 4096 && length <= 4096
    ensures Recognise(buffer, length).Some?
       <==> (forall i | 0 <= i < 4 :: buffer[i] == "prot"[i] as int) && LittleEndianAt(buffer, 8) == length
    ensures Recognise(buffer, length).Some? ==>
              var (kind, n) := Recognise(buffer, length).value;
              n == length - 12 && LittleEndianAt(buffer, 4) == if kind < 0 then kind + TWO_32 else kind
  {
    StartsProt(buffer);
  }

  /** So does a read of at least a header. */
  lemma DecodedIff(data: seq<Byte>)
    requires 12 <= |data| <= 4096
    ensures Decode(data).0.Some?
       <==> (forall i | 0 <= i < 4 :: data[i] == "prot"[i] as int) && LittleEndianAt(data, 8) == |data|
  {
    StartsProt(data);
  }
}
