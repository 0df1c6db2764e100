/** 32-bit machine words, the numbers they stand for and the octets they are written as. */
module Words {
  import opened Bytes

  lemma Join8(a: bv4, b: bv4)
    ensures (((a as bv8) << 4) | (b as bv8)) as int == 0x10 * (a as int) + (b as int)
  {
  }

  lemma Join16(a: bv8, b: bv8)
    ensures (((a as bv16) << 8) | (b as bv16)) as int == 0x100 * (a as int) + (b as int)
  {
  }

  lemma Join32(a: bv16, b: bv16)
    ensures (((a as bv32) << 16) | (b as bv32)) as int == 0x1_0000 * (a as int) + (b as int)
  {
  }

  lemma NibbleValue(n: nat)
    requires n < 16
    ensures (n as bv4) as int == n
  {
  }

  lemma BitsOfNumber(x: bv32)
    ensures (x as int) as bv32 == x
  {
  }

  lemma OctetBits(n: Byte) returns (x: bv8)
    ensures x as int == n
  {
    var a: nat, b: nat := n / 16, n % 16;
    NibbleValue(a);
    NibbleValue(b);
    var p, q := a as bv4, b as bv4;
    Join8(p, q);
    x := ((p as bv8) << 4) | (q as bv8);
  }

  /** A word put together from four octets. */
  function Word(a: bv8, b: bv8, c: bv8, d: bv8): bv32 {
    var hi, lo := ((a as bv16) << 8) | (b as bv16), ((c as bv16) << 8) | (d as bv16);
    ((hi as bv32) << 16) | (lo as bv32)
  }

  lemma WordValue(a: bv8, b: bv8, c: bv8, d: bv8)
    ensures Word(a, b, c, d) as int
         == 0x1_0000 * (0x100 * (a as int) + (b as int)) + (0x100 * (c as int) + (d as int))
  {
    var hi, lo := ((a as bv16) << 8) | (b as bv16), ((c as bv16) << 8) | (d as bv16);
    Join16(a, b);
    Join16(c, d);
    Join32(hi, lo);
  }

  lemma WordParts(a: bv8, b: bv8, c: bv8, d: bv8)
    ensures var x := Word(a, b, c, d);
            && (x >> 24) & 0xFF == a as bv32 && (x >> 16) & 0xFF == b as bv32
            && (x >> 8) & 0xFF == c as bv32 && x & 0xFF == d as bv32
  {
  }

  lemma Widen(a: bv8)
    ensures (a as bv32) as int == a as int
  {
  }

  lemma IsWord(x: bv32) returns (a: bv8, b: bv8, c: bv8, d: bv8)
    ensures x == Word(a, b, c, d)
  {
    a, b, c, d := ((x >> 24) & 0xFF) as bv8, ((x >> 16) & 0xFF) as bv8, ((x >> 8) & 0xFF) as bv8, (x & 0xFF) as bv8;
  }

  /** `SHA2_UNPACK32`: most significant octet first. */
  function Unpack32(x: bv32): (s: seq<Byte>)
    ensures |s| == 4
  {
    [((x >> 24) & 0xFF) as int, ((x >> 16) & 0xFF) as int, ((x >> 8) & 0xFF) as int, (x & 0xFF) as int]
  }

  lemma FourOctets(a: Byte, b: Byte, c: Byte, d: Byte)
    ensures BigEndian(0x1_0000 * (0x100 * (a as int) + (b as int)) + (0x100 * (c as int) + (d as int)), 4) == [a, b, c, d]
  {
    var n3: nat := a;
    var n2: nat := 0x100 * n3 + b;
    var n1: nat := 0x100 * n2 + c;
    var n0: nat := 0x100 * n1 + d;
    assert n0 / 256 == n1 && n1 / 256 == n2 && n2 / 256 == n3 && n3 / 256 == 0;
    assert BigEndian(n3, 1) == [a];
    assert BigEndian(n2, 2) == [a, b];
    assert BigEndian(n1, 3) == [a, b, c];
  }

  lemma UnpackWord(a: bv8, b: bv8, c: bv8, d: bv8)
    ensures Unpack32(Word(a, b, c, d)) == [a as int, b as int, c as int, d as int]
  {
    WordParts(a, b, c, d);
    hide Word;
    Widen(a);
    Widen(b);
    Widen(c);
    Widen(d);
  }

  /** Shifting and masking a word yields the octets of its value. */
  lemma Unpack32IsBigEndian(x: bv32)
    ensures 0 <= x as int < TWO_32 && Unpack32(x) == BigEndian(x as int, 4)
  {
    hide Word;
    hide Unpack32;
    hide BigEndian;
    var a, b, c, d := IsWord(x);
    WordValue(a, b, c, d);
    UnpackWord(a, b, c, d);
    FourOctets(a as int, b as int, c as int, d as int);
  }

  lemma WordBits(n: UInt32) returns (x: bv32)
    ensures x as int == n
  {
    hide Word;
    var m3 := n / 0x100;
    var m2 := m3 / 0x100;
    var a := OctetBits(m2 / 0x100);
    var b := OctetBits(m2 % 0x100);
    var c := OctetBits(m3 % 0x100);
    var d := OctetBits(n % 0x100);
    WordValue(a, b, c, d);
    x := Word(a, b, c, d);
  }

  /** Every 32-bit value has its word. */
  lemma WordOfNumber(n: UInt32)
    ensures (n as bv32) as int == n
  {
    var x := WordBits(n);
    BitsOfNumber(x);
  }
}
