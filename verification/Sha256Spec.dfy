/**
 * SHA-256 as FIPS 180-4 defines it: recursive functions over 32-bit words, with
 * no buffer, no window and no notion of a chunk.
 */
module Sha256Spec {
  import opened Bytes
  import opened Sha256Constants
  import opened Words

  type Word = bv32

  /** A named tuple of eight words: both the hash value H0..H7 and the working variables a..h. */
  datatype Regs = Regs(a: Word, b: Word, c: Word, d: Word, e: Word, f: Word, g: Word, h: Word)

  /** Addition modulo 2^32. */
  function Add(x: Word, y: Word): Word { x + y }

  function Sum(x: Regs, y: Regs): Regs {
    Regs(Add(x.a, y.a), Add(x.b, y.b), Add(x.c, y.c), Add(x.d, y.d),
         Add(x.e, y.e), Add(x.f, y.f), Add(x.g, y.g), Add(x.h, y.h))
  }

  // Section 4.1.2: logical functions.

  function Ch(x: Word, y: Word, z: Word): Word { (x & y) ^ (!x & z) }

  function Maj(x: Word, y: Word, z: Word): Word { (x & y) ^ (x & z) ^ (y & z) }

  function BigSigma0(x: Word): Word { x.RotateRight(2) ^ x.RotateRight(13) ^ x.RotateRight(22) }

  function BigSigma1(x: Word): Word { x.RotateRight(6) ^ x.RotateRight(11) ^ x.RotateRight(25) }

  function SmallSigma0(x: Word): Word { x.RotateRight(7) ^ x.RotateRight(18) ^ (x >> 3) }

  function SmallSigma1(x: Word): Word { x.RotateRight(17) ^ x.RotateRight(19) ^ (x >> 10) }

  // Section 3.1: words and octets, most significant octet first.

  function Pack32(s: seq<Byte>): Word
    requires |s| == 4
  {
    (s[3] as bv32) | ((s[2] as bv32) << 8) | ((s[1] as bv32) << 16) | ((s[0] as bv32) << 24)
  }

  function RoundConstant(t: nat): Word
    requires t < 64
  {
    ConstantRow(t / 4)[t % 4] as bv32
  }

  function RegsOf(lo: seq<UInt32>, hi: seq<UInt32>): Regs
    requires |lo| == |hi| == 4
  {
    Regs(lo[0] as bv32, lo[1] as bv32, lo[2] as bv32, lo[3] as bv32,
         hi[0] as bv32, hi[1] as bv32, hi[2] as bv32, hi[3] as bv32)
  }

  function InitialValue(): Regs {
    RegsOf(InitialRow(0), InitialRow(1))
  }

  // Section 6.2.2: the message schedule, the rounds and the compression of one block.

  function Schedule(block: seq<Byte>, t: nat): Word
    requires |block| == 64 && t < 64
  {
    if t < 16 then
      Pack32(block[4 * t..4 * t + 4])
    else
      Add(Add(Add(SmallSigma1(Schedule(block, t - 2)), Schedule(block, t - 7)),
              SmallSigma0(Schedule(block, t - 15))), Schedule(block, t - 16))
  }

  function Round(r: Regs, k: Word, w: Word): Regs {
    var t1 := Add(Add(Add(Add(r.h, BigSigma1(r.e)), Ch(r.e, r.f, r.g)), k), w);
    var t2 := Add(BigSigma0(r.a), Maj(r.a, r.b, r.c));
    Regs(Add(t1, t2), r.a, r.b, r.c, Add(r.d, t1), r.e, r.f, r.g)
  }

  /** The working variables after t rounds. */
  function Rounds(h: Regs, block: seq<Byte>, t: nat): Regs
    requires |block| == 64 && t <= 64
  {
    if t == 0 then h
    else Round(Rounds(h, block, t - 1), RoundConstant(t - 1), Schedule(block, t - 1))
  }

  function Compress(h: Regs, block: seq<Byte>): Regs
    requires |block| == 64
  {
    Sum(h, Rounds(h, block, 64))
  }

  function Block(m: seq<Byte>, i: nat): (b: seq<Byte>)
    requires 64 * i + 64 <= |m|
    ensures |b| == 64
  {
    m[64 * i..64 * i + 64]
  }

  /** The hash value after the first n blocks of m. */
  function Fold(h: Regs, m: seq<Byte>, n: nat): Regs
    requires 64 * n <= |m|
  {
    if n == 0 then h else Compress(Fold(h, m, n - 1), Block(m, n - 1))
  }

  // Section 5.1.1: padding.  A message is a whole number of octets here.

  /** The least number of zero octets that leaves room for exactly the length field. */
  function ZeroCount(len: nat): (z: nat)
    ensures z < 64 && (len + 1 + z + 8) % 64 == 0
  {
    (55 - len) % 64
  }

  function Pad(m: seq<Byte>): (p: seq<Byte>)
    ensures |p| == |m| + 1 + ZeroCount(|m|) + 8
  {
    m + [0x80] + Zeros(ZeroCount(|m|)) + BigEndian(8 * |m|, 8)
  }

  function RegBytes(r: Regs): (s: seq<Byte>)
    ensures |s| == 32
  {
    Unpack32(r.a) + Unpack32(r.b) + Unpack32(r.c) + Unpack32(r.d)
    + Unpack32(r.e) + Unpack32(r.f) + Unpack32(r.g) + Unpack32(r.h)
  }

  /** The digest of a message that has already been padded. */
  function DigestOfPadded(p: seq<Byte>): (s: seq<Byte>)
    ensures |s| == 32
  {
    RegBytes(Fold(InitialValue(), p, |p| / 64))
  }

  function Sha256(m: seq<Byte>): (s: seq<Byte>)
    ensures |s| == 32
  {
    DigestOfPadded(Pad(m))
  }

  /** Folding is compositional: hashing a then b is hashing a ++ b. */
  lemma {:induction false} FoldConcat(h: Regs, a: seq<Byte>, na: nat, b: seq<Byte>, nb: nat)
    requires |a| == 64 * na && 64 * nb <= |b|
    ensures Fold(h, a + b, na + nb) == Fold(Fold(h, a, na), b, nb)
    decreases nb
  {
    hide Compress;
    if nb == 0 {
      FoldPrefix(h, a, a + b, na);
    } else {
      var n := na + nb;
      assert Block(a + b, n - 1) == Block(b, nb - 1);
      FoldConcat(h, a, na, b, nb - 1);
    }
  }

  /** Only the first n blocks matter. */
  lemma {:induction false} FoldPrefix(h: Regs, a: seq<Byte>, b: seq<Byte>, n: nat)
    requires 64 * n <= |a| && 64 * n <= |b|
    requires a[..64 * n] == b[..64 * n]
    ensures Fold(h, a, n) == Fold(h, b, n)
  {
    hide Compress;
    if n > 0 {
      var lo, hi := 64 * (n - 1), 64 * n;
      assert a[..lo] == a[..hi][..lo] == b[..hi][..lo] == b[..lo];
      assert Block(a, n - 1) == a[..hi][lo..hi] == b[..hi][lo..hi] == Block(b, n - 1);
      FoldPrefix(h, a, b, n - 1);
    }
  }

  /** No smaller number of zero octets would do (section 5.1.1 asks for the least). */
  lemma ZeroCountIsLeast(len: nat, z: nat)
    requires (len + 1 + z + 8) % 64 == 0
    ensures ZeroCount(len) <= z
  {
  }

  /** Padding loses nothing on the standard's domain, messages of fewer than 2^64 bits. */
  lemma PadInjective(a: seq<Byte>, b: seq<Byte>)
    requires |a| < 0x2000_0000_0000_0000 && |b| < 0x2000_0000_0000_0000
    requires Pad(a) == Pad(b)
    ensures a == b
  {
    var n := |Pad(a)|;
    assert Pad(a)[n - 8..] == BigEndian(8 * |a|, 8);
    assert Pad(b)[n - 8..] == BigEndian(8 * |b|, 8);
    Pow256Values();
    BigEndianInjective(8 * |a|, 8 * |b|, 8);
    assert a == Pad(a)[..|a|];
    assert b == Pad(b)[..|b|];
  }

  // ---------------------------------------------------------------- what the shared functions compute

  /** Where a bit of x is set the bit of y is taken, and elsewhere that of z. */
  lemma ChIsChoice(x: Word, y: Word, z: Word)
    ensures Ch(x, y, z) & x == y & x && Ch(x, y, z) & !x == z & !x
  {
  }

  /** A bit is set where it is set in at least two of the three. */
  lemma MajIsMajority(x: Word, y: Word, z: Word)
    ensures Maj(x, y, z) == (x & y) | (x & z) | (y & z)
  {
  }

  lemma PackBits(x: Word)
    ensures (x & 0xFF) | (((x >> 8) & 0xFF) << 8) | (((x >> 16) & 0xFF) << 16) | (((x >> 24) & 0xFF) << 24) == x
  {
  }

  /** Packing the octets of a word gives it back ... */
  lemma PackUnpack(x: Word)
    ensures Pack32(Unpack32(x)) == x
  {
    BitsOfNumber((x >> 24) & 0xFF);
    BitsOfNumber((x >> 16) & 0xFF);
    BitsOfNumber((x >> 8) & 0xFF);
    BitsOfNumber(x & 0xFF);
    PackBits(x);
  }

  /** ... and every four octets are those of the word packed from them, most significant first. */
  lemma UnpackPack(s: seq<Byte>)
    requires |s| == 4
    ensures Unpack32(Pack32(s)) == s && BigEndian(Pack32(s) as int, 4) == s
  {
    var a := OctetBits(s[0]);
    var b := OctetBits(s[1]);
    var c := OctetBits(s[2]);
    var d := OctetBits(s[3]);
    var x := Words.Word(a, b, c, d);
    UnpackWord(a, b, c, d);
    PackUnpack(x);
    hide Pack32;
    hide Unpack32;
    hide Words.Word;
    hide BigEndian;
    assert s == Unpack32(x);
    Unpack32IsBigEndian(x);
  }

  /** The t-th prime, counting from zero. */
  function Prime(t: nat): nat
    requires t < 64
  {
    PrimeRow(t / 4)[t % 4]
  }

  lemma FirstPrimes()
    ensures Prime(0) == 2 && Prime(1) == 3 && Prime(2) == 5 && Prime(3) == 7
    ensures Prime(4) == 11 && Prime(5) == 13 && Prime(6) == 17 && Prime(7) == 19
  {
  }

  lemma PrimeIsPrime(t: nat)
    requires t < 64
    ensures IsPrime(Prime(t))
  {
    hide IsPrime;
    hide PrimeRow;
    hide RowStart;
    PrimeRowIsPrimes(t / 4, Prime(t));
  }

  /** No prime strictly between two neighbours of one row, none behind its last before the next row. */
  lemma RowGap(r: nat, i: nat, n: nat)
    requires r < 16 && i < 4 && PrimeRow(r)[i] < n < if i < 3 then PrimeRow(r)[i + 1] else RowStart(r + 1)
    ensures !IsPrime(n)
  {
    PrimeRowIsPrimes(r, n);
    hide IsPrime;
    hide PrimeRow;
    hide RowStart;
    var p := PrimeRow(r);
    assert p == [p[0], p[1], p[2], p[3]];
  }

  lemma NextInRow(t: nat)
    requires 0 < t < 64
    ensures var r, i := (t - 1) / 4, (t - 1) % 4;
            Prime(t - 1) < Prime(t) == if i < 3 then PrimeRow(r)[i + 1] else RowStart(r + 1)
  {
    var r, i := (t - 1) / 4, (t - 1) % 4;
    RowOrder(r);
    if i < 3 {
      assert t / 4 == r && t % 4 == i + 1;
    } else {
      assert t / 4 == r + 1 && t % 4 == 0;
      RowOrder(r + 1);
    }
    hide PrimeRow;
    hide RowStart;
  }

  /** The primes are in order, from the first on, without a gap. */
  lemma PrimesInOrder(t: nat, n: nat)
    requires t < 64
    ensures IsPrime(Prime(t)) && Prime(0) == 2
    ensures t > 0 ==> Prime(t - 1) < Prime(t) && (Prime(t - 1) < n < Prime(t) ==> !IsPrime(n))
  {
    PrimeIsPrime(t);
    FirstPrimes();
    hide IsPrime;
    hide PrimeRow;
    hide RowStart;
    if t > 0 {
      NextInRow(t);
      if Prime(t - 1) < n < Prime(t) {
        RowGap((t - 1) / 4, (t - 1) % 4, n);
      }
    }
  }

  lemma CubeRootAt(ps: seq<nat>, ks: seq<nat>, i: nat)
    requires CubeRoots(ps, ks) && i < |ps|
    ensures IsCubeRootFraction(ps[i], ks[i])
  {
    hide IsCubeRootFraction;
    if i > 0 {
      CubeRootAt(ps[1..], ks[1..], i - 1);
    }
  }

  /** The constant of round t is the first 32 fractional bits of the cube root of the t-th prime. */
  lemma RoundConstantIsCubeRoot(t: nat)
    requires t < 64
    ensures RoundConstant(t) as int == ConstantRow(t / 4)[t % 4]
    ensures IsCubeRootFraction(Prime(t), RoundConstant(t) as int)
  {
    WordOfNumber(ConstantRow(t / 4)[t % 4]);
    RoundConstantsAreCubeRoots(t / 4);
    hide ConstantRow;
    hide PrimeRow;
    hide CubeRoots;
    hide IsCubeRootFraction;
    CubeRootAt(PrimeRow(t / 4), ConstantRow(t / 4), t % 4);
  }

  lemma SquareRootAt(ps: seq<nat>, ks: seq<nat>, i: nat)
    requires SquareRoots(ps, ks) && i < |ps|
    ensures IsSquareRootFraction(ps[i], ks[i])
  {
    hide IsSquareRootFraction;
    if i > 0 {
      SquareRootAt(ps[1..], ks[1..], i - 1);
    }
  }

  lemma InitialWordIsSquareRoot(t: nat)
    requires t < 8
    ensures IsSquareRootFraction(Prime(t), (InitialRow(t / 4)[t % 4] as bv32) as int)
  {
    WordOfNumber(InitialRow(t / 4)[t % 4]);
    InitialValueIsSquareRoots();
    hide InitialRow;
    hide PrimeRow;
    hide SquareRoots;
    hide IsSquareRootFraction;
    SquareRootAt(PrimeRow(t / 4), InitialRow(t / 4), t % 4);
  }

  /** Each word of the initial hash value is the first 32 fractional bits of the square root of its own prime. */
  lemma InitialValueInOrder()
    ensures var v := InitialValue();
            && IsSquareRootFraction(2, v.a as int) && IsSquareRootFraction(3, v.b as int)
            && IsSquareRootFraction(5, v.c as int) && IsSquareRootFraction(7, v.d as int)
            && IsSquareRootFraction(11, v.e as int) && IsSquareRootFraction(13, v.f as int)
            && IsSquareRootFraction(17, v.g as int) && IsSquareRootFraction(19, v.h as int)
  {
    FirstPrimes();
    hide Prime;
    hide IsSquareRootFraction;
    hide InitialRow;
    InitialWordIsSquareRoot(0);
    InitialWordIsSquareRoot(1);
    InitialWordIsSquareRoot(2);
    InitialWordIsSquareRoot(3);
    InitialWordIsSquareRoot(4);
    InitialWordIsSquareRoot(5);
    InitialWordIsSquareRoot(6);
    InitialWordIsSquareRoot(7);
  }
}
