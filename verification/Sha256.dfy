/**
 * The streaming implementation (src/sha256.cpp): a partial block, a running length that
 * excludes it, an in-place eight-register window, and padding in one or two blocks.
 * Every method is proved against the fold of Sha256Spec.
 */
module Sha256Stream {
  import opened Bytes
  import opened Sha256Spec
  import opened Words

  // ---------------------------------------------------------------- padding

  /**
   * What `final` leaves in its buffer: the unread tail, the stop bit, zeros and a 32-bit
   * length field, in one block if tail and field fit and in two otherwise.
   */
  function FinalBlocks(tail: seq<Byte>, total: nat): (p: seq<Byte>)
    requires |tail| < 64
    ensures |p| == 64 * FinalBlockCount(|tail|)
  {
    tail + [0x80] + Zeros(64 * FinalBlockCount(|tail|) - |tail| - 5) + BigEndian(U32(8 * total), 4)
  }

  function FinalBlockCount(tailLen: nat): (n: nat)
    ensures n == 1 || n == 2
    ensures tailLen < 64 ==> 64 * n >= tailLen + 9
  {
    if 55 < tailLen % 64 then 2 else 1
  }

  /** The octets of an n-octet message that fill whole blocks. */
  function Whole(n: nat): (w: nat)
    ensures w <= n < w + 64 && w == 64 * (n / 64) && n - w == n % 64
  {
    64 * (n / 64)
  }

  /** The padded message the code actually hashes after being fed m. */
  function StreamPad(m: seq<Byte>): (p: seq<Byte>)
    ensures |p| == Whole(|m|) + 64 * FinalBlockCount(|m| - Whole(|m|))
  {
    m[..Whole(|m|)] + FinalBlocks(m[Whole(|m|)..], |m|)
  }

  lemma Mod64(x: int, q: int, r: int)
    requires x == 64 * q + r && 0 <= r < 64
    ensures x % 64 == r
  {
  }

  /** One block or two is the standard's choice, for every tail length. */
  lemma FinalBlockCountIsLeast(n: nat)
    ensures ZeroCount(n) + 4 == 64 * FinalBlockCount(n - Whole(n)) - (n - Whole(n)) - 5
  {
    var r := n - Whole(n);
    if r <= 55 {
      Mod64(55 - n, -(n / 64), 55 - r);
    } else {
      Mod64(55 - n, -(n / 64) - 1, 119 - r);
      assert r % 64 == r;
    }
  }

  lemma Regroup(m: seq<Byte>, w: nat, z: nat, fill: nat, field: seq<Byte>)
    requires w <= |m| && z + 4 == fill
    ensures m[..w] + (m[w..] + [0x80] + Zeros(fill) + field) == m + [0x80] + Zeros(z) + (Zeros(4) + field)
  {
    assert m == m[..w] + m[w..];
    assert Zeros(fill) == Zeros(z) + Zeros(4);
  }

  /** StreamPad and Pad differ, if at all, in the eight octets of the length field. */
  lemma PaddingShape(m: seq<Byte>)
    ensures StreamPad(m) == m + [0x80] + Zeros(ZeroCount(|m|)) + (Zeros(4) + BigEndian(U32(8 * |m|), 4))
  {
    hide Whole;
    hide FinalBlockCount;
    hide ZeroCount;
    hide BigEndian;
    hide U32;
    var w := Whole(|m|);
    FinalBlockCountIsLeast(|m|);
    Regroup(m, w, ZeroCount(|m|), 64 * FinalBlockCount(|m| - w) - (|m| - w) - 5, BigEndian(U32(8 * |m|), 4));
  }

  /** The two forms of the length field agree exactly below 2^32 bits. */
  lemma LengthFieldIff(bits: nat)
    requires bits < 0x1_0000_0000_0000_0000
    ensures Zeros(4) + BigEndian(U32(bits), 4) == BigEndian(bits, 8) <==> bits < TWO_32
  {
    hide BigEndian;
    hide Pow256;
    Pow256Values();
    var narrow := Zeros(4) + BigEndian(U32(bits), 4);
    if bits < TWO_32 {
      BigEndianWiden(bits, 4, 4);
    } else if narrow == BigEndian(bits, 8) {
      assert narrow[..4] == Zeros(4);
      BigEndianZeros(bits, 4, 4);
    }
  }

  /**
   * The padding is that of FIPS 180-4 section 5.1.1 exactly when the message has fewer than
   * 2^29 octets: from there on the 32-bit length field has wrapped.
   */
  lemma PaddingIsStandardIff(m: seq<Byte>)
    requires |m| < 0x2000_0000_0000_0000
    ensures StreamPad(m) == Pad(m) <==> |m| < 0x2000_0000
  {
    hide StreamPad;
    hide ZeroCount;
    hide BigEndian;
    hide U32;
    PaddingShape(m);
    LengthFieldIff(8 * |m|);
    var head := m + [0x80] + Zeros(ZeroCount(|m|));
    var narrow, standard := Zeros(4) + BigEndian(U32(8 * |m|), 4), BigEndian(8 * |m|, 8);
    assert (head + narrow)[|head|..] == narrow && (head + standard)[|head|..] == standard;
  }

  lemma CloseAndCongruent(m: nat, n: nat)
    requires m <= n < m + 64 && U32(8 * m) == U32(8 * n)
    ensures m == n
  {
    var p, q := 8 * m / TWO_32, 8 * n / TWO_32;
    assert 8 * n - 8 * m == TWO_32 * (q - p);
  }

  /** The code's padding loses nothing, for messages of every length: not even where its length field has wrapped. */
  lemma StreamPadInjective(a: seq<Byte>, b: seq<Byte>)
    requires StreamPad(a) == StreamPad(b)
    ensures a == b
  {
    PaddingShape(a);
    PaddingShape(b);
    Pow256Values();
    hide StreamPad;
    hide ZeroCount;
    hide BigEndian;
    hide Pow256;
    var p := StreamPad(a);
    var x, y := U32(8 * |a|), U32(8 * |b|);
    assert |p| == |a| + 1 + ZeroCount(|a|) + 8 == |b| + 1 + ZeroCount(|b|) + 8;
    assert p[|p| - 4..] == BigEndian(x, 4) && p[|p| - 4..] == BigEndian(y, 4);
    BigEndianInjective(x, y, 4);
    if |a| <= |b| {
      CloseAndCongruent(|a|, |b|);
    } else {
      CloseAndCongruent(|b|, |a|);
    }
    assert a == p[..|a|] && b == p[..|b|];
  }

  // ---------------------------------------------------------------- compression

  // The rotation macro and the four sigma macros, as shifts (src/sha256.h).

  function F1(x: Word): Word { ((x >> 2) | (x << 30)) ^ ((x >> 13) | (x << 19)) ^ ((x >> 22) | (x << 10)) }

  function F2(x: Word): Word { ((x >> 6) | (x << 26)) ^ ((x >> 11) | (x << 21)) ^ ((x >> 25) | (x << 7)) }

  function F3(x: Word): Word { ((x >> 7) | (x << 25)) ^ ((x >> 18) | (x << 14)) ^ (x >> 3) }

  function F4(x: Word): Word { ((x >> 17) | (x << 15)) ^ ((x >> 19) | (x << 13)) ^ (x >> 10) }

  lemma MacrosAreSigmas(x: Word)
    ensures F1(x) == BigSigma0(x) && F2(x) == BigSigma1(x)
    ensures F3(x) == SmallSigma0(x) && F4(x) == SmallSigma1(x)
  {
  }

  /** Eight words laid out in an array as the hash value or the working variables. */
  function RegsIn(a: array<Word>): Regs
    requires a.Length == 8
    reads a
  {
    Regs(a[0], a[1], a[2], a[3], a[4], a[5], a[6], a[7])
  }

  /** The 64-word schedule array, filled from the front. */
  method ExpandSchedule(block: seq<Byte>) returns (w: array<Word>)
    requires |block| == 64
    ensures fresh(w) && w.Length == 64
    ensures forall t | 0 <= t < 64 :: w[t] == Schedule(block, t)
  {
    hide Add;
    hide Pack32;
    hide F3;
    hide F4;
    hide SmallSigma0;
    hide SmallSigma1;
    w := new Word[64];
    for j := 0 to 16
      invariant forall t | 0 <= t < j :: w[t] == Schedule(block, t)
    {
      w[j] := Pack32(block[4 * j..4 * j + 4]);
    }
    for j := 16 to 64
      invariant forall t | 0 <= t < j :: w[t] == Schedule(block, t)
    {
      MacrosAreSigmas(w[j - 2]);
      MacrosAreSigmas(w[j - 15]);
      w[j] := Add(Add(Add(F4(w[j - 2]), w[j - 7]), F3(w[j - 15])), w[j - 16]);
    }
  }

  /** One round on the sliding window: each register moves up one place. */
  method RoundInPlace(wv: array<Word>, k: Word, w: Word)
    requires wv.Length == 8
    modifies wv
    ensures RegsIn(wv) == Round(old(RegsIn(wv)), k, w)
  {
    hide Add;
    hide F1;
    hide F2;
    hide BigSigma0;
    hide BigSigma1;
    hide Ch;
    hide Maj;
    MacrosAreSigmas(wv[4]);
    MacrosAreSigmas(wv[0]);
    var t1 := Add(Add(Add(Add(wv[7], F2(wv[4])), Ch(wv[4], wv[5], wv[6])), k), w);
    var t2 := Add(F1(wv[0]), Maj(wv[0], wv[1], wv[2]));
    wv[7] := wv[6];
    wv[6] := wv[5];
    wv[5] := wv[4];
    wv[4] := Add(wv[3], t1);
    wv[3] := wv[2];
    wv[2] := wv[1];
    wv[1] := wv[0];
    wv[0] := Add(t1, t2);
  }

  /** The 64 rounds, driven by the schedule array. */
  method RunRounds(wv: array<Word>, w: array<Word>, block: seq<Byte>)
    requires wv.Length == 8 && w.Length == 64 && wv != w && |block| == 64
    requires forall t | 0 <= t < 64 :: w[t] == Schedule(block, t)
    modifies wv
    ensures RegsIn(wv) == Rounds(old(RegsIn(wv)), block, 64)
  {
    hide Round;
    hide Schedule;
    hide RoundConstant;
    for j := 0 to 64
      invariant RegsIn(wv) == Rounds(old(RegsIn(wv)), block, j)
    {
      RoundInPlace(wv, RoundConstant(j), w[j]);
    }
  }

  method CopyWords(h: array<Word>) returns (wv: array<Word>)
    requires h.Length == 8
    ensures fresh(wv) && wv.Length == 8 && RegsIn(wv) == RegsIn(h)
  {
    wv := new Word[8];
    for j := 0 to 8
      invariant forall i | 0 <= i < j :: wv[i] == h[i]
    {
      wv[j] := h[j];
    }
  }

  /** One iteration of the block loop of `transform`. */
  method CompressInPlace(h: array<Word>, block: seq<Byte>)
    requires h.Length == 8 && |block| == 64
    modifies h
    ensures RegsIn(h) == Compress(old(RegsIn(h)), block)
  {
    hide Rounds;
    hide Sum;
    var w := ExpandSchedule(block);
    var wv := CopyWords(h);
    RunRounds(wv, w, block);
    AddInPlace(h, wv);
  }

  method AddInPlace(h: array<Word>, wv: array<Word>)
    requires h.Length == 8 == wv.Length && h != wv
    modifies h
    ensures RegsIn(h) == Sum(old(RegsIn(h)), RegsIn(wv))
  {
    hide Add;
    for j := 0 to 8
      invariant forall i | 0 <= i < j :: h[i] == Add(old(h[i]), wv[i])
      invariant forall i | j <= i < 8 :: h[i] == old(h[i])
    {
      h[j] := Add(h[j], wv[j]);
    }
  }

  // ---------------------------------------------------------------- the context

  /** memcpy from a buffer that is only read. */
  method CopyInto(dst: array<Byte>, at: nat, src: seq<Byte>)
    requires at + |src| <= dst.Length
    modifies dst
    ensures dst[..] == old(dst[..at]) + src + old(dst[at + |src|..])
  {
    forall i | 0 <= i < |src| {
      dst[at + i] := src[i];
    }
  }

  lemma WholeAfter(n: nat, k: nat, w: nat, rem: nat, nb: nat)
    requires w == Whole(n) && rem == 64 - (n - w) <= k && nb == (k - rem) / 64
    ensures Whole(n + k) == w + 64 * (nb + 1)
    ensures (n + k) / 64 == n / 64 + 1 + nb
    ensures n + k - Whole(n + k) == k - rem - 64 * nb
  {
  }

  lemma WholeSame(n: nat, k: nat)
    requires n - Whole(n) + k < 64
    ensures Whole(n + k) == Whole(n) && (n + k) / 64 == n / 64
  {
  }

  lemma U32Shift(x: nat, q: nat)
    ensures U32(x + TWO_32 * q) == U32(x)
  {
  }

  lemma U32Add(a: nat, b: nat)
    ensures U32(U32(a) + b) == U32(a + b)
  {
    U32Shift(U32(a) + b, a / TWO_32);
  }

  lemma U32Times8(a: nat)
    ensures U32(8 * U32(a)) == U32(8 * a)
  {
    U32Shift(8 * U32(a), 8 * (a / TWO_32));
  }

  /** Absorbing a chunk that completes the pending block: pending block, whole blocks, rest. */
  lemma AbsorbFold(h: Regs, bytes: seq<Byte>, message: seq<Byte>, w: nat, rem: nat, nb: nat)
    requires w == Whole(|bytes|) && rem == 64 - (|bytes| - w) <= |message| && nb == (|message| - rem) / 64
    ensures (|bytes| + |message|) / 64 == |bytes| / 64 + 1 + nb
    ensures Whole(|bytes| + |message|) == w + 64 * (nb + 1)
    ensures |message[rem..]| - 64 * nb == (|message| - rem) % 64 == |bytes| + |message| - (w + 64 * (nb + 1))
    ensures (bytes + message)[w + 64 * (nb + 1)..] == message[rem..][64 * nb..]
    ensures Fold(h, bytes + message, |bytes| / 64 + 1 + nb)
         == Fold(Fold(Fold(h, bytes, |bytes| / 64), bytes[w..] + message[..rem], 1), message[rem..], nb)
  {
    hide Fold;
    WholeAfter(|bytes|, |message|, w, rem, nb);
    var q, first, rest := |bytes| / 64, bytes[w..] + message[..rem], message[rem..];
    assert bytes + message == bytes[..w] + (first + rest);
    FoldConcat(h, bytes[..w], q, first + rest, 1 + nb);
    FoldPrefix(h, bytes[..w], bytes, q);
    FoldConcat(Fold(h, bytes[..w], q), first, 1, rest, nb);
  }

  /** What `final` folds into the hash value completes the padded message. */
  lemma FinalFold(h: Regs, bytes: seq<Byte>)
    ensures var w := Whole(|bytes|);
            var last := FinalBlocks(bytes[w..], |bytes|);
            Fold(Fold(h, bytes, |bytes| / 64), last, FinalBlockCount(|bytes| - w))
            == Fold(h, StreamPad(bytes), |StreamPad(bytes)| / 64)
  {
    hide Fold;
    hide FinalBlocks;
    hide FinalBlockCount;
    var w, q := Whole(|bytes|), |bytes| / 64;
    var last, n := FinalBlocks(bytes[w..], |bytes|), FinalBlockCount(|bytes| - w);
    FoldConcat(h, bytes[..w], q, last, n);
    FoldPrefix(h, bytes[..w], bytes, q);
    assert |StreamPad(bytes)| == 64 * (q + n);
  }

  class Context {
    const h: array<Word>
    const block: array<Byte>
    var len: nat
    var totLen: UInt32
    /** Everything fed in since Init. */
    ghost var bytes: seq<Byte>

    /** The counters and the hash value account for every octet fed in. */
    ghost predicate Counted()
      reads this, h
    {
      && h.Length == 8 && block.Length == 128
      && len == |bytes| - Whole(|bytes|)
      && totLen == U32(Whole(|bytes|))
      && RegsIn(h) == Fold(InitialValue(), bytes, |bytes| / 64)
    }

    ghost predicate Valid()
      reads this, h, block
    {
      Counted() && block[..len] == bytes[Whole(|bytes|)..]
    }

    constructor ()
      ensures fresh(h) && fresh(block)
      ensures Valid() && bytes == []
    {
      h := new Word[8];
      block := new Byte[128](i => 0);
      len, totLen, bytes := 0, 0, [];
      new;
      Init();
    }

    method Init()
      requires h.Length == 8 && block.Length == 128
      modifies this, h
      ensures Valid() && bytes == []
    {
      hide InitialValue;
      var v := InitialValue();
      h[0], h[1], h[2], h[3] := v.a, v.b, v.c, v.d;
      h[4], h[5], h[6], h[7] := v.e, v.f, v.g, v.h;
      len := 0;
      totLen := 0;
      bytes := [];
    }

    method Transform(message: seq<Byte>, blockNb: nat)
      requires h.Length == 8 && 64 * blockNb <= |message|
      modifies h
      ensures RegsIn(h) == Fold(old(RegsIn(h)), message, blockNb)
    {
      hide Compress;
      for i := 0 to blockNb
        invariant RegsIn(h) == Fold(old(RegsIn(h)), message, i)
      {
        CompressInPlace(h, message[64 * i..64 * i + 64]);
      }
    }

    method Update(message: seq<Byte>)
      requires Valid()
      // the byte offset of a block, `i << 6`, is an int
      requires |message| < 0x8000_0000
      modifies this, h, block
      ensures Valid() && bytes == old(bytes) + message
    {
      hide Fold;
      hide InitialValue;
      hide U32;
      ghost var w := Whole(|bytes|);
      ghost var h0 := InitialValue();
      var tmpLen := 64 - len;
      var remLen := if |message| < tmpLen then |message| else tmpLen;
      CopyInto(block, len, message[..remLen]);
      assert block[..len + remLen] == bytes[w..] + message[..remLen];
      if len + |message| < 64 {
        WholeSame(|bytes|, |message|);
        FoldPrefix(h0, bytes, bytes + message, |bytes| / 64);
        len := len + |message|;
        bytes := bytes + message;
        return;
      }
      Absorb(message, remLen);
    }

    /** The part of `update` that runs once the pending block is full. */
    method Absorb(message: seq<Byte>, filled: nat)
      requires Counted() && filled == 64 - len <= |message|
      requires block[..64] == bytes[Whole(|bytes|)..] + message[..filled]
      modifies this, h, block
      ensures Valid() && bytes == old(bytes) + message
    {
      hide Fold;
      hide InitialValue;
      hide Whole;
      hide U32;
      hide RegsIn;
      ghost var w := Whole(|bytes|);
      var newLen := |message| - filled;
      var blockNb := newLen / 64;
      var shifted := message[filled..];
      ghost var all := bytes + message;
      AbsorbFold(InitialValue(), bytes, message, w, filled, blockNb);
      U32Add(w, 64 * (blockNb + 1));
      TransformBoth(block[..64], shifted, blockNb);
      var rest := shifted[64 * blockNb..];
      CopyInto(block, 0, rest);
      len := newLen % 64;
      totLen := U32(totLen + 64 * (blockNb + 1));
      bytes := all;
      assert Counted();
    }

    method TransformBoth(pending: seq<Byte>, message: seq<Byte>, blockNb: nat)
      requires h.Length == 8 && |pending| == 64 && 64 * blockNb <= |message|
      modifies h
      ensures RegsIn(h) == Fold(Fold(old(RegsIn(h)), pending, 1), message, blockNb)
    {
      hide Fold;
      Transform(pending, 1);
      Transform(message, blockNb);
    }

    /** Pads what is pending, in place, and writes the digest out. */
    method Final(digest: array<Byte>)
      requires Valid() && digest.Length == 32 && digest != block
      modifies h, block, digest
      ensures digest[..] == DigestOfPadded(StreamPad(bytes))
    {
      hide Fold;
      hide InitialValue;
      hide RegBytes;
      hide U32;
      hide BigEndian;
      var blockNb := FinalBlockCount(len);
      U32Add(Whole(|bytes|), len);
      U32Times8(|bytes|);
      var lenB := U32(8 * U32(totLen + len));
      FillFinalBlocks(64 * blockNb, lenB);
      FinalFold(InitialValue(), bytes);
      Transform(block[..64 * blockNb], blockNb);
      WriteWords(h, digest);
    }

    /** The memset, the stop bit and the length field. */
    method FillFinalBlocks(pmLen: nat, lenB: UInt32)
      requires block.Length == 128 && len < 64
      requires pmLen == 64 * FinalBlockCount(len)
      modifies block
      ensures block[..pmLen] == old(block[..len]) + [0x80] + Zeros(pmLen - len - 5) + BigEndian(lenB, 4)
    {
      hide BigEndian;
      hide Unpack32;
      WordOfNumber(lenB);
      Unpack32IsBigEndian(lenB as bv32);
      CopyInto(block, len, Zeros(pmLen - len));
      block[len] := 0x80;
      CopyInto(block, pmLen - 4, Unpack32(lenB as bv32));
    }
  }

  lemma Assemble(d: seq<Byte>, r: Regs)
    requires |d| == 32
    requires d[0..4] == Unpack32(r.a) && d[4..8] == Unpack32(r.b) && d[8..12] == Unpack32(r.c)
    requires d[12..16] == Unpack32(r.d) && d[16..20] == Unpack32(r.e) && d[20..24] == Unpack32(r.f)
    requires d[24..28] == Unpack32(r.g) && d[28..32] == Unpack32(r.h)
    ensures d == RegBytes(r)
  {
    hide Unpack32;
  }

  /** Each word of the hash value, most significant octet first. */
  method WriteWords(h: array<Word>, digest: array<Byte>)
    requires h.Length == 8 && digest.Length == 32
    modifies digest
    ensures digest[..] == RegBytes(RegsIn(h))
  {
    hide Unpack32;
    hide RegBytes;
    for i := 0 to 8
      invariant forall j | 0 <= j < i :: digest[4 * j..4 * j + 4] == Unpack32(h[j])
    {
      ghost var before := digest[..];
      CopyInto(digest, 4 * i, Unpack32(h[i]));
      forall j | 0 <= j <= i
        ensures digest[4 * j..4 * j + 4] == Unpack32(h[j])
      {
        if j < i {
          assert digest[4 * j..4 * j + 4] == before[4 * j..4 * j + 4];
        }
      }
    }
    forall j | 0 <= j < 8
      ensures digest[..][4 * j..4 * j + 4] == Unpack32(h[j])
    {
      assert digest[..][4 * j..4 * j + 4] == digest[4 * j..4 * j + 4];
    }
    Assemble(digest[..], RegsIn(h));
  }

  function Flatten(chunks: seq<seq<Byte>>): seq<Byte> {
    if chunks == [] then [] else Flatten(chunks[..|chunks| - 1]) + chunks[|chunks| - 1]
  }

  /**
   * Init, one Update per chunk, Final.  How the message is cut never matters, and below 2^29
   * octets the digest is the one FIPS 180-4 defines.
   */
  method HashChunks(chunks: seq<seq<Byte>>) returns (r: seq<Byte>)
    requires forall c | c in chunks :: |c| < 0x8000_0000
    ensures r == DigestOfPadded(StreamPad(Flatten(chunks)))
    ensures |Flatten(chunks)| < 0x2000_0000 ==> r == Sha256(Flatten(chunks))
  {
    hide DigestOfPadded;
    hide StreamPad;
    var ctx := new Context();
    for i := 0 to |chunks|
      invariant fresh(ctx) && fresh(ctx.h) && fresh(ctx.block)
      invariant ctx.Valid() && ctx.bytes == Flatten(chunks[..i])
    {
      assert chunks[..i + 1][..i] == chunks[..i];
      ctx.Update(chunks[i]);
    }
    assert chunks[..|chunks|] == chunks;
    var digest := new Byte[32](i => 0);
    ctx.Final(digest);
    r := digest[..];
    if |Flatten(chunks)| < 0x2000_0000 {
      PaddingIsStandardIff(Flatten(chunks));
    }
  }
}
