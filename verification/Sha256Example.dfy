/**
 * The one-block example of FIPS 180-4, the message "abc", worked through word by word and round by
 * round.  It fixes how the functions of Sha256Spec are wired together.
 */
module Sha256Example {
  import opened Bytes
  import opened Words
  import opened Sha256Constants
  import opened Sha256Spec
  import opened Sha256Stream
  import opened PasswordHash

  /** The one block of the padded message. */
  predicate IsAbcBlock(b: seq<Byte>) {
    |b| == 64
    && forall i | 0 <= i < 64 ::
         b[i] == if i == 0 then 0x61 else if i == 1 then 0x62 else if i == 2 then 0x63 else if i == 3 then 0x80
                 else if i == 63 then 24 else 0
  }

  lemma LengthField()
    ensures BigEndian(24, 8) == Zeros(7) + [24]
  {
    assert Pow256(1) == 256;
    assert BigEndian(24, 1) == [24];
    hide BigEndian;
    BigEndianWiden(24, 1, 7);
  }

  lemma PadAbc()
    ensures IsAbcBlock(Pad([0x61, 0x62, 0x63]))
  {
    LengthField();
    hide BigEndian;
    assert ZeroCount(3) == 52;
    assert Pad([0x61, 0x62, 0x63]) == [0x61, 0x62, 0x63] + [0x80] + Zeros(52) + (Zeros(7) + [24]);
  }

  // ---------------------------------------------------------------- the message schedule

  lemma PackAs(s: seq<Byte>, x: Word)
    requires |s| == 4 && s == Unpack32(x)
    ensures Pack32(s) == x
  {
    hide Pack32;
    hide Unpack32;
    PackUnpack(x);
  }

  lemma WordOctets()
    ensures Unpack32(0x61626380) == [0x61, 0x62, 0x63, 0x80] && Unpack32(24) == [0, 0, 0, 24] && Unpack32(0) == [0, 0, 0, 0]
  {
  }

  lemma FirstWord(b: seq<Byte>, t: nat)
    requires IsAbcBlock(b) && t < 16
    ensures Schedule(b, t) == if t == 0 then 0x61626380 else if t == 15 then 24 else 0
  {
    WordOctets();
    hide Pack32;
    hide Unpack32;
    var s := b[4 * t..4 * t + 4];
    assert s == if t == 0 then [0x61, 0x62, 0x63, 0x80] else if t == 15 then [0, 0, 0, 24] else [0, 0, 0, 0];
    hide IsAbcBlock;
    PackAs(s, if t == 0 then 0x61626380 else if t == 15 then 24 else 0);
  }

  lemma ZeroWord(b: seq<Byte>, t: nat)
    requires IsAbcBlock(b) && 0 < t < 15
    ensures |b| == 64 && Schedule(b, t) == 0
  {
    FirstWord(b, t);
  }

  lemma Word0(b: seq<Byte>)
    requires IsAbcBlock(b)
    ensures |b| == 64 && Schedule(b, 0) == 0x61626380
  {
    FirstWord(b, 0);
  }

  lemma Word15(b: seq<Byte>)
    requires IsAbcBlock(b)
    ensures |b| == 64 && Schedule(b, 15) == 24
  {
    FirstWord(b, 15);
  }

  lemma NextWord(b: seq<Byte>, t: nat, w2: Word, w7: Word, w15: Word, w16: Word)
    requires |b| == 64 && 16 <= t < 64
    requires Schedule(b, t - 2) == w2 && Schedule(b, t - 7) == w7 && Schedule(b, t - 15) == w15 && Schedule(b, t - 16) == w16
    ensures Schedule(b, t) == Add(Add(Add(SmallSigma1(w2), w7), SmallSigma0(w15)), w16)
  {
    hide Add;
    hide SmallSigma0;
    hide SmallSigma1;
    hide Pack32;
  }

  lemma BlockLength(b: seq<Byte>)
    requires IsAbcBlock(b)
    ensures |b| == 64
  {
  }

  // Each word from the four it is made of.

  lemma Word16(b: seq<Byte>) requires IsAbcBlock(b) ensures |b| == 64 && Schedule(b, 16) == 0x61626380 {
    BlockLength(b);
    hide IsAbcBlock;
    hide Schedule;
    ZeroWord(b, 14); ZeroWord(b, 9); ZeroWord(b, 1); Word0(b);
    NextWord(b, 16, 0x00000000, 0x00000000, 0x00000000, 0x61626380);
  }

  lemma Word17(b: seq<Byte>) requires IsAbcBlock(b) ensures |b| == 64 && Schedule(b, 17) == 0x000f0000 {
    BlockLength(b);
    hide IsAbcBlock;
    hide Schedule;
    Word15(b); ZeroWord(b, 10); ZeroWord(b, 2); ZeroWord(b, 1);
    NextWord(b, 17, 0x00000018, 0x00000000, 0x00000000, 0x00000000);
  }

  lemma Word18(b: seq<Byte>) requires IsAbcBlock(b) ensures |b| == 64 && Schedule(b, 18) == 0x7da86405 {
    BlockLength(b);
    hide IsAbcBlock;
    hide Schedule;
    Word16(b); ZeroWord(b, 11); ZeroWord(b, 3); ZeroWord(b, 2);
    NextWord(b, 18, 0x61626380, 0x00000000, 0x00000000, 0x00000000);
  }

  lemma Word19(b: seq<Byte>) requires IsAbcBlock(b) ensures |b| == 64 && Schedule(b, 19) == 0x600003c6 {
    BlockLength(b);
    hide IsAbcBlock;
    hide Schedule;
    Word17(b); ZeroWord(b, 12); ZeroWord(b, 4); ZeroWord(b, 3);
    NextWord(b, 19, 0x000f0000, 0x00000000, 0x00000000, 0x00000000);
  }

  lemma Word20(b: seq<Byte>) requires IsAbcBlock(b) ensures |b| == 64 && Schedule(b, 20) == 0x3e9d7b78 {
    BlockLength(b);
    hide IsAbcBlock;
    hide Schedule;
    Word18(b); ZeroWord(b, 13); ZeroWord(b, 5); ZeroWord(b, 4);
    NextWord(b, 20, 0x7da86405, 0x00000000, 0x00000000, 0x00000000);
  }

  lemma Word21(b: seq<Byte>) requires IsAbcBlock(b) ensures |b| == 64 && Schedule(b, 21) == 0x0183fc00 {
    BlockLength(b);
    hide IsAbcBlock;
    hide Schedule;
    Word19(b); ZeroWord(b, 14); ZeroWord(b, 6); ZeroWord(b, 5);
    NextWord(b, 21, 0x600003c6, 0x00000000, 0x00000000, 0x00000000);
  }

  lemma Word22(b: seq<Byte>) requires IsAbcBlock(b) ensures |b| == 64 && Schedule(b, 22) == 0x12dcbfdb {
    BlockLength(b);
    hide IsAbcBlock;
    hide Schedule;
    Word20(b); Word15(b); ZeroWord(b, 7); ZeroWord(b, 6);
    NextWord(b, 22, 0x3e9d7b78, 0x00000018, 0x00000000, 0x00000000);
  }

  lemma Word23(b: seq<Byte>) requires IsAbcBlock(b) ensures |b| == 64 && Schedule(b, 23) == 0xe2e2c38e {
    BlockLength(b);
    hide IsAbcBlock;
    hide Schedule;
    Word21(b); Word16(b); ZeroWord(b, 8); ZeroWord(b, 7);
    NextWord(b, 23, 0x0183fc00, 0x61626380, 0x00000000, 0x00000000);
  }

  lemma Word24(b: seq<Byte>) requires IsAbcBlock(b) ensures |b| == 64 && Schedule(b, 24) == 0xc8215c1a {
    BlockLength(b);
    hide IsAbcBlock;
    hide Schedule;
    Word22(b); Word17(b); ZeroWord(b, 9); ZeroWord(b, 8);
    NextWord(b, 24, 0x12dcbfdb, 0x000f0000, 0x00000000, 0x00000000);
  }

  lemma Word25(b: seq<Byte>) requires IsAbcBlock(b) ensures |b| == 64 && Schedule(b, 25) == 0xb73679a2 {
    BlockLength(b);
    hide IsAbcBlock;
    hide Schedule;
    Word23(b); Word18(b); ZeroWord(b, 10); ZeroWord(b, 9);
    NextWord(b, 25, 0xe2e2c38e, 0x7da86405, 0x00000000, 0x00000000);
  }

  lemma Word26(b: seq<Byte>) requires IsAbcBlock(b) ensures |b| == 64 && Schedule(b, 26) == 0xe5bc3909 {
    BlockLength(b);
    hide IsAbcBlock;
    hide Schedule;
    Word24(b); Word19(b); ZeroWord(b, 11); ZeroWord(b, 10);
    NextWord(b, 26, 0xc8215c1a, 0x600003c6, 0x00000000, 0x00000000);
  }

  lemma Word27(b: seq<Byte>) requires IsAbcBlock(b) ensures |b| == 64 && Schedule(b, 27) == 0x32663c5b {
    BlockLength(b);
    hide IsAbcBlock;
    hide Schedule;
    Word25(b); Word20(b); ZeroWord(b, 12); ZeroWord(b, 11);
    NextWord(b, 27, 0xb73679a2, 0x3e9d7b78, 0x00000000, 0x00000000);
  }

  lemma Word28(b: seq<Byte>) requires IsAbcBlock(b) ensures |b| == 64 && Schedule(b, 28) == 0x9d209d67 {
    BlockLength(b);
    hide IsAbcBlock;
    hide Schedule;
    Word26(b); Word21(b); ZeroWord(b, 13); ZeroWord(b, 12);
    NextWord(b, 28, 0xe5bc3909, 0x0183fc00, 0x00000000, 0x00000000);
  }

  lemma Word29(b: seq<Byte>) requires IsAbcBlock(b) ensures |b| == 64 && Schedule(b, 29) == 0xec8726cb {
    BlockLength(b);
    hide IsAbcBlock;
    hide Schedule;
    Word27(b); Word22(b); ZeroWord(b, 14); ZeroWord(b, 13);
    NextWord(b, 29, 0x32663c5b, 0x12dcbfdb, 0x00000000, 0x00000000);
  }

  lemma Word30(b: seq<Byte>) requires IsAbcBlock(b) ensures |b| == 64 && Schedule(b, 30) == 0x702138a4 {
    BlockLength(b);
    hide IsAbcBlock;
    hide Schedule;
    Word28(b); Word23(b); Word15(b); ZeroWord(b, 14);
    NextWord(b, 30, 0x9d209d67, 0xe2e2c38e, 0x00000018, 0x00000000);
  }

  lemma Word31(b: seq<Byte>) requires IsAbcBlock(b) ensures |b| == 64 && Schedule(b, 31) == 0xd3b7973b {
    BlockLength(b);
    hide IsAbcBlock;
    hide Schedule;
    Word29(b); Word24(b); Word16(b); Word15(b);
    NextWord(b, 31, 0xec8726cb, 0xc8215c1a, 0x61626380, 0x00000018);
  }

  lemma Word32(b: seq<Byte>) requires IsAbcBlock(b) ensures |b| == 64 && Schedule(b, 32) == 0x93f5997f {
    BlockLength(b);
    hide IsAbcBlock;
    hide Schedule;
    Word30(b); Word25(b); Word17(b); Word16(b);
    NextWord(b, 32, 0x702138a4, 0xb73679a2, 0x000f0000, 0x61626380);
  }

  lemma Word33(b: seq<Byte>) requires IsAbcBlock(b) ensures |b| == 64 && Schedule(b, 33) == 0x3b68ba73 {
    BlockLength(b);
    hide IsAbcBlock;
    hide Schedule;
    Word31(b); Word26(b); Word18(b); Word17(b);
    NextWord(b, 33, 0xd3b7973b, 0xe5bc3909, 0x7da86405, 0x000f0000);
  }

  lemma Word34(b: seq<Byte>) requires IsAbcBlock(b) ensures |b| == 64 && Schedule(b, 34) == 0xaff4ffc1 {
    BlockLength(b);
    hide IsAbcBlock;
    hide Schedule;
    Word32(b); Word27(b); Word19(b); Word18(b);
    NextWord(b, 34, 0x93f5997f, 0x32663c5b, 0x600003c6, 0x7da86405);
  }

  lemma Word35(b: seq<Byte>) requires IsAbcBlock(b) ensures |b| == 64 && Schedule(b, 35) == 0xf10a5c62 {
    BlockLength(b);
    hide IsAbcBlock;
    hide Schedule;
    Word33(b); Word28(b); Word20(b); Word19(b);
    NextWord(b, 35, 0x3b68ba73, 0x9d209d67, 0x3e9d7b78, 0x600003c6);
  }

  lemma Word36(b: seq<Byte>) requires IsAbcBlock(b) ensures |b| == 64 && Schedule(b, 36) == 0x0a8b3996 {
    BlockLength(b);
    hide IsAbcBlock;
    hide Schedule;
    Word34(b); Word29(b); Word21(b); Word20(b);
    NextWord(b, 36, 0xaff4ffc1, 0xec8726cb, 0x0183fc00, 0x3e9d7b78);
  }

  lemma Word37(b: seq<Byte>) requires IsAbcBlock(b) ensures |b| == 64 && Schedule(b, 37) == 0x72af830a {
    BlockLength(b);
    hide IsAbcBlock;
    hide Schedule;
    Word35(b); Word30(b); Word22(b); Word21(b);
    NextWord(b, 37, 0xf10a5c62, 0x702138a4, 0x12dcbfdb, 0x0183fc00);
  }

  lemma Word38(b: seq<Byte>) requires IsAbcBlock(b) ensures |b| == 64 && Schedule(b, 38) == 0x9409e33e {
    BlockLength(b);
    hide IsAbcBlock;
    hide Schedule;
    Word36(b); Word31(b); Word23(b); Word22(b);
    NextWord(b, 38, 0x0a8b3996, 0xd3b7973b, 0xe2e2c38e, 0x12dcbfdb);
  }

  lemma Word39(b: seq<Byte>) requires IsAbcBlock(b) ensures |b| == 64 && Schedule(b, 39) == 0x24641522 {
    BlockLength(b);
    hide IsAbcBlock;
    hide Schedule;
    Word37(b); Word32(b); Word24(b); Word23(b);
    NextWord(b, 39, 0x72af830a, 0x93f5997f, 0xc8215c1a, 0xe2e2c38e);
  }

  lemma Word40(b: seq<Byte>) requires IsAbcBlock(b) ensures |b| == 64 && Schedule(b, 40) == 0x9f47bf94 {
    BlockLength(b);
    hide IsAbcBlock;
    hide Schedule;
    Word38(b); Word33(b); Word25(b); Word24(b);
    NextWord(b, 40, 0x9409e33e, 0x3b68ba73, 0xb73679a2, 0xc8215c1a);
  }

  lemma Word41(b: seq<Byte>) requires IsAbcBlock(b) ensures |b| == 64 && Schedule(b, 41) == 0xf0a64f5a {
    BlockLength(b);
    hide IsAbcBlock;
    hide Schedule;
    Word39(b); Word34(b); Word26(b); Word25(b);
    NextWord(b, 41, 0x24641522, 0xaff4ffc1, 0xe5bc3909, 0xb73679a2);
  }

  lemma Word42(b: seq<Byte>) requires IsAbcBlock(b) ensures |b| == 64 && Schedule(b, 42) == 0x3e246a79 {
    BlockLength(b);
    hide IsAbcBlock;
    hide Schedule;
    Word40(b); Word35(b); Word27(b); Word26(b);
    NextWord(b, 42, 0x9f47bf94, 0xf10a5c62, 0x32663c5b, 0xe5bc3909);
  }

  lemma Word43(b: seq<Byte>) requires IsAbcBlock(b) ensures |b| == 64 && Schedule(b, 43) == 0x27333ba3 {
    BlockLength(b);
    hide IsAbcBlock;
    hide Schedule;
    Word41(b); Word36(b); Word28(b); Word27(b);
    NextWord(b, 43, 0xf0a64f5a, 0x0a8b3996, 0x9d209d67, 0x32663c5b);
  }

  lemma Word44(b: seq<Byte>) requires IsAbcBlock(b) ensures |b| == 64 && Schedule(b, 44) == 0x0c4763f2 {
    BlockLength(b);
    hide IsAbcBlock;
    hide Schedule;
    Word42(b); Word37(b); Word29(b); Word28(b);
    NextWord(b, 44, 0x3e246a79, 0x72af830a, 0xec8726cb, 0x9d209d67);
  }

  lemma Word45(b: seq<Byte>) requires IsAbcBlock(b) ensures |b| == 64 && Schedule(b, 45) == 0x840abf27 {
    BlockLength(b);
    hide IsAbcBlock;
    hide Schedule;
    Word43(b); Word38(b); Word30(b); Word29(b);
    NextWord(b, 45, 0x27333ba3, 0x9409e33e, 0x702138a4, 0xec8726cb);
  }

  lemma Word46(b: seq<Byte>) requires IsAbcBlock(b) ensures |b| == 64 && Schedule(b, 46) == 0x7a290d5d {
    BlockLength(b);
    hide IsAbcBlock;
    hide Schedule;
    Word44(b); Word39(b); Word31(b); Word30(b);
    NextWord(b, 46, 0x0c4763f2, 0x24641522, 0xd3b7973b, 0x702138a4);
  }

  lemma Word47(b: seq<Byte>) requires IsAbcBlock(b) ensures |b| == 64 && Schedule(b, 47) == 0x065c43da {
    BlockLength(b);
    hide IsAbcBlock;
    hide Schedule;
    Word45(b); Word40(b); Word32(b); Word31(b);
    NextWord(b, 47, 0x840abf27, 0x9f47bf94, 0x93f5997f, 0xd3b7973b);
  }

  lemma Word48(b: seq<Byte>) requires IsAbcBlock(b) ensures |b| == 64 && Schedule(b, 48) == 0xfb3e89cb {
    BlockLength(b);
    hide IsAbcBlock;
    hide Schedule;
    Word46(b); Word41(b); Word33(b); Word32(b);
    NextWord(b, 48, 0x7a290d5d, 0xf0a64f5a, 0x3b68ba73, 0x93f5997f);
  }

  lemma Word49(b: seq<Byte>) requires IsAbcBlock(b) ensures |b| == 64 && Schedule(b, 49) == 0xcc7617db {
    BlockLength(b);
    hide IsAbcBlock;
    hide Schedule;
    Word47(b); Word42(b); Word34(b); Word33(b);
    NextWord(b, 49, 0x065c43da, 0x3e246a79, 0xaff4ffc1, 0x3b68ba73);
  }

  lemma Word50(b: seq<Byte>) requires IsAbcBlock(b) ensures |b| == 64 && Schedule(b, 50) == 0xb9e66c34 {
    BlockLength(b);
    hide IsAbcBlock;
    hide Schedule;
    Word48(b); Word43(b); Word35(b); Word34(b);
    NextWord(b, 50, 0xfb3e89cb, 0x27333ba3, 0xf10a5c62, 0xaff4ffc1);
  }

  lemma Word51(b: seq<Byte>) requires IsAbcBlock(b) ensures |b| == 64 && Schedule(b, 51) == 0xa9993667 {
    BlockLength(b);
    hide IsAbcBlock;
    hide Schedule;
    Word49(b); Word44(b); Word36(b); Word35(b);
    NextWord(b, 51, 0xcc7617db, 0x0c4763f2, 0x0a8b3996, 0xf10a5c62);
  }

  lemma Word52(b: seq<Byte>) requires IsAbcBlock(b) ensures |b| == 64 && Schedule(b, 52) == 0x84badedd {
    BlockLength(b);
    hide IsAbcBlock;
    hide Schedule;
    Word50(b); Word45(b); Word37(b); Word36(b);
    NextWord(b, 52, 0xb9e66c34, 0x840abf27, 0x72af830a, 0x0a8b3996);
  }

  lemma Word53(b: seq<Byte>) requires IsAbcBlock(b) ensures |b| == 64 && Schedule(b, 53) == 0xc21462bc {
    BlockLength(b);
    hide IsAbcBlock;
    hide Schedule;
    Word51(b); Word46(b); Word38(b); Word37(b);
    NextWord(b, 53, 0xa9993667, 0x7a290d5d, 0x9409e33e, 0x72af830a);
  }

  lemma Word54(b: seq<Byte>) requires IsAbcBlock(b) ensures |b| == 64 && Schedule(b, 54) == 0x1487472c {
    BlockLength(b);
    hide IsAbcBlock;
    hide Schedule;
    Word52(b); Word47(b); Word39(b); Word38(b);
    NextWord(b, 54, 0x84badedd, 0x065c43da, 0x24641522, 0x9409e33e);
  }

  lemma Word55(b: seq<Byte>) requires IsAbcBlock(b) ensures |b| == 64 && Schedule(b, 55) == 0xb20f7a99 {
    BlockLength(b);
    hide IsAbcBlock;
    hide Schedule;
    Word53(b); Word48(b); Word40(b); Word39(b);
    NextWord(b, 55, 0xc21462bc, 0xfb3e89cb, 0x9f47bf94, 0x24641522);
  }

  lemma Word56(b: seq<Byte>) requires IsAbcBlock(b) ensures |b| == 64 && Schedule(b, 56) == 0xef57b9cd {
    BlockLength(b);
    hide IsAbcBlock;
    hide Schedule;
    Word54(b); Word49(b); Word41(b); Word40(b);
    NextWord(b, 56, 0x1487472c, 0xcc7617db, 0xf0a64f5a, 0x9f47bf94);
  }

  lemma Word57(b: seq<Byte>) requires IsAbcBlock(b) ensures |b| == 64 && Schedule(b, 57) == 0xebe6b238 {
    BlockLength(b);
    hide IsAbcBlock;
    hide Schedule;
    Word55(b); Word50(b); Word42(b); Word41(b);
    NextWord(b, 57, 0xb20f7a99, 0xb9e66c34, 0x3e246a79, 0xf0a64f5a);
  }

  lemma Word58(b: seq<Byte>) requires IsAbcBlock(b) ensures |b| == 64 && Schedule(b, 58) == 0x9fe3095e {
    BlockLength(b);
    hide IsAbcBlock;
    hide Schedule;
    Word56(b); Word51(b); Word43(b); Word42(b);
    NextWord(b, 58, 0xef57b9cd, 0xa9993667, 0x27333ba3, 0x3e246a79);
  }

  lemma Word59(b: seq<Byte>) requires IsAbcBlock(b) ensures |b| == 64 && Schedule(b, 59) == 0x78bc8d4b {
    BlockLength(b);
    hide IsAbcBlock;
    hide Schedule;
    Word57(b); Word52(b); Word44(b); Word43(b);
    NextWord(b, 59, 0xebe6b238, 0x84badedd, 0x0c4763f2, 0x27333ba3);
  }

  lemma Word60(b: seq<Byte>) requires IsAbcBlock(b) ensures |b| == 64 && Schedule(b, 60) == 0xa43fcf15 {
    BlockLength(b);
    hide IsAbcBlock;
    hide Schedule;
    Word58(b); Word53(b); Word45(b); Word44(b);
    NextWord(b, 60, 0x9fe3095e, 0xc21462bc, 0x840abf27, 0x0c4763f2);
  }

  lemma Word61(b: seq<Byte>) requires IsAbcBlock(b) ensures |b| == 64 && Schedule(b, 61) == 0x668b2ff8 {
    BlockLength(b);
    hide IsAbcBlock;
    hide Schedule;
    Word59(b); Word54(b); Word46(b); Word45(b);
    NextWord(b, 61, 0x78bc8d4b, 0x1487472c, 0x7a290d5d, 0x840abf27);
  }

  lemma Word62(b: seq<Byte>) requires IsAbcBlock(b) ensures |b| == 64 && Schedule(b, 62) == 0xeeaba2cc {
    BlockLength(b);
    hide IsAbcBlock;
    hide Schedule;
    Word60(b); Word55(b); Word47(b); Word46(b);
    NextWord(b, 62, 0xa43fcf15, 0xb20f7a99, 0x065c43da, 0x7a290d5d);
  }

  lemma Word63(b: seq<Byte>) requires IsAbcBlock(b) ensures |b| == 64 && Schedule(b, 63) == 0x12b1edeb {
    BlockLength(b);
    hide IsAbcBlock;
    hide Schedule;
    Word61(b); Word56(b); Word48(b); Word47(b);
    NextWord(b, 63, 0x668b2ff8, 0xef57b9cd, 0xfb3e89cb, 0x065c43da);
  }

  // ---------------------------------------------------------------- the rounds

  lemma ConstantAt(t: nat, k: Word)
    requires t < 64 && k as int == ConstantRow(t / 4)[t % 4]
    ensures RoundConstant(t) == k
  {
    hide ConstantRow;
    BitsOfNumber(k);
  }

  lemma NextRound(h: Regs, b: seq<Byte>, t: nat, r: Regs, k: Word, w: Word)
    requires t < 64 && |b| == 64 && Rounds(h, b, t) == r && Schedule(b, t) == w && k as int == ConstantRow(t / 4)[t % 4]
    ensures Rounds(h, b, t + 1) == Round(r, k, w)
  {
    hide Round;
    hide Schedule;
    hide RoundConstant;
    hide ConstantRow;
    ConstantAt(t, k);
  }

  lemma RegsAre(lo: seq<UInt32>, hi: seq<UInt32>, r: Regs)
    requires |lo| == |hi| == 4
    requires r.a as int == lo[0] && r.b as int == lo[1] && r.c as int == lo[2] && r.d as int == lo[3]
    requires r.e as int == hi[0] && r.f as int == hi[1] && r.g as int == hi[2] && r.h as int == hi[3]
    ensures RegsOf(lo, hi) == r
  {
    BitsOfNumber(r.a);
    BitsOfNumber(r.b);
    BitsOfNumber(r.c);
    BitsOfNumber(r.d);
    BitsOfNumber(r.e);
    BitsOfNumber(r.f);
    BitsOfNumber(r.g);
    BitsOfNumber(r.h);
  }

  lemma Initial()
    ensures InitialValue() == Regs(0x6a09e667, 0xbb67ae85, 0x3c6ef372, 0xa54ff53a, 0x510e527f, 0x9b05688c, 0x1f83d9ab, 0x5be0cd19)
  {
    hide RegsOf;
    RegsAre([0x6a09e667, 0xbb67ae85, 0x3c6ef372, 0xa54ff53a],
            [0x510e527f, 0x9b05688c, 0x1f83d9ab, 0x5be0cd19],
            Regs(0x6a09e667, 0xbb67ae85, 0x3c6ef372, 0xa54ff53a, 0x510e527f, 0x9b05688c, 0x1f83d9ab, 0x5be0cd19));
  }

  predicate IsStart(h: Regs, b: seq<Byte>) {
    IsAbcBlock(b) && h == Regs(0x6a09e667, 0xbb67ae85, 0x3c6ef372, 0xa54ff53a, 0x510e527f, 0x9b05688c, 0x1f83d9ab, 0x5be0cd19)
  }

  lemma StartLength(h: Regs, b: seq<Byte>)
    requires IsStart(h, b)
    ensures |b| == 64 && IsAbcBlock(b)
  {
  }

  lemma NoRound(h: Regs, b: seq<Byte>)
    requires IsStart(h, b)
    ensures |b| == 64 && Rounds(h, b, 0) == Regs(0x6a09e667, 0xbb67ae85, 0x3c6ef372, 0xa54ff53a, 0x510e527f, 0x9b05688c, 0x1f83d9ab, 0x5be0cd19)
  {
  }

  lemma Round1(h: Regs, b: seq<Byte>)
    requires IsStart(h, b)
    ensures |b| == 64 && Rounds(h, b, 1)
         == Regs(0x5d6aebcd, 0x6a09e667, 0xbb67ae85, 0x3c6ef372, 0xfa2a4622, 0x510e527f, 0x9b05688c, 0x1f83d9ab)
  {
    StartLength(h, b);
    hide IsStart;
    hide Schedule;
    hide Rounds;
    NoRound(h, b); Word0(b);
    NextRound(h, b, 0, Regs(0x6a09e667, 0xbb67ae85, 0x3c6ef372, 0xa54ff53a, 0x510e527f, 0x9b05688c, 0x1f83d9ab, 0x5be0cd19), 0x428a2f98, 0x61626380);
  }

  lemma Round2(h: Regs, b: seq<Byte>)
    requires IsStart(h, b)
    ensures |b| == 64 && Rounds(h, b, 2)
         == Regs(0x5a6ad9ad, 0x5d6aebcd, 0x6a09e667, 0xbb67ae85, 0x78ce7989, 0xfa2a4622, 0x510e527f, 0x9b05688c)
  {
    StartLength(h, b);
    hide IsStart;
    hide Schedule;
    hide Rounds;
    Round1(h, b); ZeroWord(b, 1);
    NextRound(h, b, 1, Regs(0x5d6aebcd, 0x6a09e667, 0xbb67ae85, 0x3c6ef372, 0xfa2a4622, 0x510e527f, 0x9b05688c, 0x1f83d9ab), 0x71374491, 0x00000000);
  }

  lemma Round3(h: Regs, b: seq<Byte>)
    requires IsStart(h, b)
    ensures |b| == 64 && Rounds(h, b, 3)
         == Regs(0xc8c347a7, 0x5a6ad9ad, 0x5d6aebcd, 0x6a09e667, 0xf92939eb, 0x78ce7989, 0xfa2a4622, 0x510e527f)
  {
    StartLength(h, b);
    hide IsStart;
    hide Schedule;
    hide Rounds;
    Round2(h, b); ZeroWord(b, 2);
    NextRound(h, b, 2, Regs(0x5a6ad9ad, 0x5d6aebcd, 0x6a09e667, 0xbb67ae85, 0x78ce7989, 0xfa2a4622, 0x510e527f, 0x9b05688c), 0xb5c0fbcf, 0x00000000);
  }

  lemma Round4(h: Regs, b: seq<Byte>)
    requires IsStart(h, b)
    ensures |b| == 64 && Rounds(h, b, 4)
         == Regs(0xd550f666, 0xc8c347a7, 0x5a6ad9ad, 0x5d6aebcd, 0x24e00850, 0xf92939eb, 0x78ce7989, 0xfa2a4622)
  {
    StartLength(h, b);
    hide IsStart;
    hide Schedule;
    hide Rounds;
    Round3(h, b); ZeroWord(b, 3);
    NextRound(h, b, 3, Regs(0xc8c347a7, 0x5a6ad9ad, 0x5d6aebcd, 0x6a09e667, 0xf92939eb, 0x78ce7989, 0xfa2a4622, 0x510e527f), 0xe9b5dba5, 0x00000000);
  }

  lemma Round5(h: Regs, b: seq<Byte>)
    requires IsStart(h, b)
    ensures |b| == 64 && Rounds(h, b, 5)
         == Regs(0x04409a6a, 0xd550f666, 0xc8c347a7, 0x5a6ad9ad, 0x43ada245, 0x24e00850, 0xf92939eb, 0x78ce7989)
  {
    StartLength(h, b);
    hide IsStart;
    hide Schedule;
    hide Rounds;
    Round4(h, b); ZeroWord(b, 4);
    NextRound(h, b, 4, Regs(0xd550f666, 0xc8c347a7, 0x5a6ad9ad, 0x5d6aebcd, 0x24e00850, 0xf92939eb, 0x78ce7989, 0xfa2a4622), 0x3956c25b, 0x00000000);
  }

  lemma Round6(h: Regs, b: seq<Byte>)
    requires IsStart(h, b)
    ensures |b| == 64 && Rounds(h, b, 6)
         == Regs(0x2b4209f5, 0x04409a6a, 0xd550f666, 0xc8c347a7, 0x714260ad, 0x43ada245, 0x24e00850, 0xf92939eb)
  {
    StartLength(h, b);
    hide IsStart;
    hide Schedule;
    hide Rounds;
    Round5(h, b); ZeroWord(b, 5);
    NextRound(h, b, 5, Regs(0x04409a6a, 0xd550f666, 0xc8c347a7, 0x5a6ad9ad, 0x43ada245, 0x24e00850, 0xf92939eb, 0x78ce7989), 0x59f111f1, 0x00000000);
  }

  lemma Round7(h: Regs, b: seq<Byte>)
    requires IsStart(h, b)
    ensures |b| == 64 && Rounds(h, b, 7)
         == Regs(0xe5030380, 0x2b4209f5, 0x04409a6a, 0xd550f666, 0x9b27a401, 0x714260ad, 0x43ada245, 0x24e00850)
  {
    StartLength(h, b);
    hide IsStart;
    hide Schedule;
    hide Rounds;
    Round6(h, b); ZeroWord(b, 6);
    NextRound(h, b, 6, Regs(0x2b4209f5, 0x04409a6a, 0xd550f666, 0xc8c347a7, 0x714260ad, 0x43ada245, 0x24e00850, 0xf92939eb), 0x923f82a4, 0x00000000);
  }

  lemma Round8(h: Regs, b: seq<Byte>)
    requires IsStart(h, b)
    ensures |b| == 64 && Rounds(h, b, 8)
         == Regs(0x85a07b5f, 0xe5030380, 0x2b4209f5, 0x04409a6a, 0x0c657a79, 0x9b27a401, 0x714260ad, 0x43ada245)
  {
    StartLength(h, b);
    hide IsStart;
    hide Schedule;
    hide Rounds;
    Round7(h, b); ZeroWord(b, 7);
    NextRound(h, b, 7, Regs(0xe5030380, 0x2b4209f5, 0x04409a6a, 0xd550f666, 0x9b27a401, 0x714260ad, 0x43ada245, 0x24e00850), 0xab1c5ed5, 0x00000000);
  }

  lemma Round9(h: Regs, b: seq<Byte>)
    requires IsStart(h, b)
    ensures |b| == 64 && Rounds(h, b, 9)
         == Regs(0x8e04ecb9, 0x85a07b5f, 0xe5030380, 0x2b4209f5, 0x32ca2d8c, 0x0c657a79, 0x9b27a401, 0x714260ad)
  {
    StartLength(h, b);
    hide IsStart;
    hide Schedule;
    hide Rounds;
    Round8(h, b); ZeroWord(b, 8);
    NextRound(h, b, 8, Regs(0x85a07b5f, 0xe5030380, 0x2b4209f5, 0x04409a6a, 0x0c657a79, 0x9b27a401, 0x714260ad, 0x43ada245), 0xd807aa98, 0x00000000);
  }

  lemma Round10(h: Regs, b: seq<Byte>)
    requires IsStart(h, b)
    ensures |b| == 64 && Rounds(h, b, 10)
         == Regs(0x8c87346b, 0x8e04ecb9, 0x85a07b5f, 0xe5030380, 0x1cc92596, 0x32ca2d8c, 0x0c657a79, 0x9b27a401)
  {
    StartLength(h, b);
    hide IsStart;
    hide Schedule;
    hide Rounds;
    Round9(h, b); ZeroWord(b, 9);
    NextRound(h, b, 9, Regs(0x8e04ecb9, 0x85a07b5f, 0xe5030380, 0x2b4209f5, 0x32ca2d8c, 0x0c657a79, 0x9b27a401, 0x714260ad), 0x12835b01, 0x00000000);
  }

  lemma Round11(h: Regs, b: seq<Byte>)
    requires IsStart(h, b)
    ensures |b| == 64 && Rounds(h, b, 11)
         == Regs(0x4798a3f4, 0x8c87346b, 0x8e04ecb9, 0x85a07b5f, 0x436b23e8, 0x1cc92596, 0x32ca2d8c, 0x0c657a79)
  {
    StartLength(h, b);
    hide IsStart;
    hide Schedule;
    hide Rounds;
    Round10(h, b); ZeroWord(b, 10);
    NextRound(h, b, 10, Regs(0x8c87346b, 0x8e04ecb9, 0x85a07b5f, 0xe5030380, 0x1cc92596, 0x32ca2d8c, 0x0c657a79, 0x9b27a401), 0x243185be, 0x00000000);
  }

  lemma Round12(h: Regs, b: seq<Byte>)
    requires IsStart(h, b)
    ensures |b| == 64 && Rounds(h, b, 12)
         == Regs(0xf71fc5a9, 0x4798a3f4, 0x8c87346b, 0x8e04ecb9, 0x816fd6e9, 0x436b23e8, 0x1cc92596, 0x32ca2d8c)
  {
    StartLength(h, b);
    hide IsStart;
    hide Schedule;
    hide Rounds;
    Round11(h, b); ZeroWord(b, 11);
    NextRound(h, b, 11, Regs(0x4798a3f4, 0x8c87346b, 0x8e04ecb9, 0x85a07b5f, 0x436b23e8, 0x1cc92596, 0x32ca2d8c, 0x0c657a79), 0x550c7dc3, 0x00000000);
  }

  lemma Round13(h: Regs, b: seq<Byte>)
    requires IsStart(h, b)
    ensures |b| == 64 && Rounds(h, b, 13)
         == Regs(0x87912990, 0xf71fc5a9, 0x4798a3f4, 0x8c87346b, 0x1e578218, 0x816fd6e9, 0x436b23e8, 0x1cc92596)
  {
    StartLength(h, b);
    hide IsStart;
    hide Schedule;
    hide Rounds;
    Round12(h, b); ZeroWord(b, 12);
    NextRound(h, b, 12, Regs(0xf71fc5a9, 0x4798a3f4, 0x8c87346b, 0x8e04ecb9, 0x816fd6e9, 0x436b23e8, 0x1cc92596, 0x32ca2d8c), 0x72be5d74, 0x00000000);
  }

  lemma Round14(h: Regs, b: seq<Byte>)
    requires IsStart(h, b)
    ensures |b| == 64 && Rounds(h, b, 14)
         == Regs(0xd932eb16, 0x87912990, 0xf71fc5a9, 0x4798a3f4, 0x745a48de, 0x1e578218, 0x816fd6e9, 0x436b23e8)
  {
    StartLength(h, b);
    hide IsStart;
    hide Schedule;
    hide Rounds;
    Round13(h, b); ZeroWord(b, 13);
    NextRound(h, b, 13, Regs(0x87912990, 0xf71fc5a9, 0x4798a3f4, 0x8c87346b, 0x1e578218, 0x816fd6e9, 0x436b23e8, 0x1cc92596), 0x80deb1fe, 0x00000000);
  }

  lemma Round15(h: Regs, b: seq<Byte>)
    requires IsStart(h, b)
    ensures |b| == 64 && Rounds(h, b, 15)
         == Regs(0xc0645fde, 0xd932eb16, 0x87912990, 0xf71fc5a9, 0x0b92f20c, 0x745a48de, 0x1e578218, 0x816fd6e9)
  {
    StartLength(h, b);
    hide IsStart;
    hide Schedule;
    hide Rounds;
    Round14(h, b); ZeroWord(b, 14);
    NextRound(h, b, 14, Regs(0xd932eb16, 0x87912990, 0xf71fc5a9, 0x4798a3f4, 0x745a48de, 0x1e578218, 0x816fd6e9, 0x436b23e8), 0x9bdc06a7, 0x00000000);
  }

  lemma Round16(h: Regs, b: seq<Byte>)
    requires IsStart(h, b)
    ensures |b| == 64 && Rounds(h, b, 16)
         == Regs(0xb0fa238e, 0xc0645fde, 0xd932eb16, 0x87912990, 0x07590dcd, 0x0b92f20c, 0x745a48de, 0x1e578218)
  {
    StartLength(h, b);
    hide IsStart;
    hide Schedule;
    hide Rounds;
    Round15(h, b); Word15(b);
    NextRound(h, b, 15, Regs(0xc0645fde, 0xd932eb16, 0x87912990, 0xf71fc5a9, 0x0b92f20c, 0x745a48de, 0x1e578218, 0x816fd6e9), 0xc19bf174, 0x00000018);
  }

  lemma Round17(h: Regs, b: seq<Byte>)
    requires IsStart(h, b)
    ensures |b| == 64 && Rounds(h, b, 17)
         == Regs(0x21da9a9b, 0xb0fa238e, 0xc0645fde, 0xd932eb16, 0x8034229c, 0x07590dcd, 0x0b92f20c, 0x745a48de)
  {
    StartLength(h, b);
    hide IsStart;
    hide Schedule;
    hide Rounds;
    Round16(h, b); Word16(b);
    NextRound(h, b, 16, Regs(0xb0fa238e, 0xc0645fde, 0xd932eb16, 0x87912990, 0x07590dcd, 0x0b92f20c, 0x745a48de, 0x1e578218), 0xe49b69c1, 0x61626380);
  }

  lemma Round18(h: Regs, b: seq<Byte>)
    requires IsStart(h, b)
    ensures |b| == 64 && Rounds(h, b, 18)
         == Regs(0xc2fbd9d1, 0x21da9a9b, 0xb0fa238e, 0xc0645fde, 0x846ee454, 0x8034229c, 0x07590dcd, 0x0b92f20c)
  {
    StartLength(h, b);
    hide IsStart;
    hide Schedule;
    hide Rounds;
    Round17(h, b); Word17(b);
    NextRound(h, b, 17, Regs(0x21da9a9b, 0xb0fa238e, 0xc0645fde, 0xd932eb16, 0x8034229c, 0x07590dcd, 0x0b92f20c, 0x745a48de), 0xefbe4786, 0x000f0000);
  }

  lemma Round19(h: Regs, b: seq<Byte>)
    requires IsStart(h, b)
    ensures |b| == 64 && Rounds(h, b, 19)
         == Regs(0xfe777bbf, 0xc2fbd9d1, 0x21da9a9b, 0xb0fa238e, 0xcc899961, 0x846ee454, 0x8034229c, 0x07590dcd)
  {
    StartLength(h, b);
    hide IsStart;
    hide Schedule;
    hide Rounds;
    Round18(h, b); Word18(b);
    NextRound(h, b, 18, Regs(0xc2fbd9d1, 0x21da9a9b, 0xb0fa238e, 0xc0645fde, 0x846ee454, 0x8034229c, 0x07590dcd, 0x0b92f20c), 0x0fc19dc6, 0x7da86405);
  }

  lemma Round20(h: Regs, b: seq<Byte>)
    requires IsStart(h, b)
    ensures |b| == 64 && Rounds(h, b, 20)
         == Regs(0xe1f20c33, 0xfe777bbf, 0xc2fbd9d1, 0x21da9a9b, 0xb0638179, 0xcc899961, 0x846ee454, 0x8034229c)
  {
    StartLength(h, b);
    hide IsStart;
    hide Schedule;
    hide Rounds;
    Round19(h, b); Word19(b);
    NextRound(h, b, 19, Regs(0xfe777bbf, 0xc2fbd9d1, 0x21da9a9b, 0xb0fa238e, 0xcc899961, 0x846ee454, 0x8034229c, 0x07590dcd), 0x240ca1cc, 0x600003c6);
  }

  lemma Round21(h: Regs, b: seq<Byte>)
    requires IsStart(h, b)
    ensures |b| == 64 && Rounds(h, b, 21)
         == Regs(0x9dc68b63, 0xe1f20c33, 0xfe777bbf, 0xc2fbd9d1, 0x8ada8930, 0xb0638179, 0xcc899961, 0x846ee454)
  {
    StartLength(h, b);
    hide IsStart;
    hide Schedule;
    hide Rounds;
    Round20(h, b); Word20(b);
    NextRound(h, b, 20, Regs(0xe1f20c33, 0xfe777bbf, 0xc2fbd9d1, 0x21da9a9b, 0xb0638179, 0xcc899961, 0x846ee454, 0x8034229c), 0x2de92c6f, 0x3e9d7b78);
  }

  lemma Round22(h: Regs, b: seq<Byte>)
    requires IsStart(h, b)
    ensures |b| == 64 && Rounds(h, b, 22)
         == Regs(0xc2606d6d, 0x9dc68b63, 0xe1f20c33, 0xfe777bbf, 0xe1257970, 0x8ada8930, 0xb0638179, 0xcc899961)
  {
    StartLength(h, b);
    hide IsStart;
    hide Schedule;
    hide Rounds;
    Round21(h, b); Word21(b);
    NextRound(h, b, 21, Regs(0x9dc68b63, 0xe1f20c33, 0xfe777bbf, 0xc2fbd9d1, 0x8ada8930, 0xb0638179, 0xcc899961, 0x846ee454), 0x4a7484aa, 0x0183fc00);
  }

  lemma Round23(h: Regs, b: seq<Byte>)
    requires IsStart(h, b)
    ensures |b| == 64 && Rounds(h, b, 23)
         == Regs(0xa7a3623f, 0xc2606d6d, 0x9dc68b63, 0xe1f20c33, 0x49f5114a, 0xe1257970, 0x8ada8930, 0xb0638179)
  {
    StartLength(h, b);
    hide IsStart;
    hide Schedule;
    hide Rounds;
    Round22(h, b); Word22(b);
    NextRound(h, b, 22, Regs(0xc2606d6d, 0x9dc68b63, 0xe1f20c33, 0xfe777bbf, 0xe1257970, 0x8ada8930, 0xb0638179, 0xcc899961), 0x5cb0a9dc, 0x12dcbfdb);
  }

  lemma Round24(h: Regs, b: seq<Byte>)
    requires IsStart(h, b)
    ensures |b| == 64 && Rounds(h, b, 24)
         == Regs(0xc5d53d8d, 0xa7a3623f, 0xc2606d6d, 0x9dc68b63, 0xaa47c347, 0x49f5114a, 0xe1257970, 0x8ada8930)
  {
    StartLength(h, b);
    hide IsStart;
    hide Schedule;
    hide Rounds;
    Round23(h, b); Word23(b);
    NextRound(h, b, 23, Regs(0xa7a3623f, 0xc2606d6d, 0x9dc68b63, 0xe1f20c33, 0x49f5114a, 0xe1257970, 0x8ada8930, 0xb0638179), 0x76f988da, 0xe2e2c38e);
  }

  lemma Round25(h: Regs, b: seq<Byte>)
    requires IsStart(h, b)
    ensures |b| == 64 && Rounds(h, b, 25)
         == Regs(0x1c2c2838, 0xc5d53d8d, 0xa7a3623f, 0xc2606d6d, 0x2823ef91, 0xaa47c347, 0x49f5114a, 0xe1257970)
  {
    StartLength(h, b);
    hide IsStart;
    hide Schedule;
    hide Rounds;
    Round24(h, b); Word24(b);
    NextRound(h, b, 24, Regs(0xc5d53d8d, 0xa7a3623f, 0xc2606d6d, 0x9dc68b63, 0xaa47c347, 0x49f5114a, 0xe1257970, 0x8ada8930), 0x983e5152, 0xc8215c1a);
  }

  lemma Round26(h: Regs, b: seq<Byte>)
    requires IsStart(h, b)
    ensures |b| == 64 && Rounds(h, b, 26)
         == Regs(0xcde8037d, 0x1c2c2838, 0xc5d53d8d, 0xa7a3623f, 0x14383d8e, 0x2823ef91, 0xaa47c347, 0x49f5114a)
  {
    StartLength(h, b);
    hide IsStart;
    hide Schedule;
    hide Rounds;
    Round25(h, b); Word25(b);
    NextRound(h, b, 25, Regs(0x1c2c2838, 0xc5d53d8d, 0xa7a3623f, 0xc2606d6d, 0x2823ef91, 0xaa47c347, 0x49f5114a, 0xe1257970), 0xa831c66d, 0xb73679a2);
  }

  lemma Round27(h: Regs, b: seq<Byte>)
    requires IsStart(h, b)
    ensures |b| == 64 && Rounds(h, b, 27)
         == Regs(0xb62ec4bc, 0xcde8037d, 0x1c2c2838, 0xc5d53d8d, 0xc74c6516, 0x14383d8e, 0x2823ef91, 0xaa47c347)
  {
    StartLength(h, b);
    hide IsStart;
    hide Schedule;
    hide Rounds;
    Round26(h, b); Word26(b);
    NextRound(h, b, 26, Regs(0xcde8037d, 0x1c2c2838, 0xc5d53d8d, 0xa7a3623f, 0x14383d8e, 0x2823ef91, 0xaa47c347, 0x49f5114a), 0xb00327c8, 0xe5bc3909);
  }

  lemma Round28(h: Regs, b: seq<Byte>)
    requires IsStart(h, b)
    ensures |b| == 64 && Rounds(h, b, 28)
         == Regs(0x77d37528, 0xb62ec4bc, 0xcde8037d, 0x1c2c2838, 0xedffbff8, 0xc74c6516, 0x14383d8e, 0x2823ef91)
  {
    StartLength(h, b);
    hide IsStart;
    hide Schedule;
    hide Rounds;
    Round27(h, b); Word27(b);
    NextRound(h, b, 27, Regs(0xb62ec4bc, 0xcde8037d, 0x1c2c2838, 0xc5d53d8d, 0xc74c6516, 0x14383d8e, 0x2823ef91, 0xaa47c347), 0xbf597fc7, 0x32663c5b);
  }

  lemma Round29(h: Regs, b: seq<Byte>)
    requires IsStart(h, b)
    ensures |b| == 64 && Rounds(h, b, 29)
         == Regs(0x363482c9, 0x77d37528, 0xb62ec4bc, 0xcde8037d, 0x6112a3b7, 0xedffbff8, 0xc74c6516, 0x14383d8e)
  {
    StartLength(h, b);
    hide IsStart;
    hide Schedule;
    hide Rounds;
    Round28(h, b); Word28(b);
    NextRound(h, b, 28, Regs(0x77d37528, 0xb62ec4bc, 0xcde8037d, 0x1c2c2838, 0xedffbff8, 0xc74c6516, 0x14383d8e, 0x2823ef91), 0xc6e00bf3, 0x9d209d67);
  }

  lemma Round30(h: Regs, b: seq<Byte>)
    requires IsStart(h, b)
    ensures |b| == 64 && Rounds(h, b, 30)
         == Regs(0xa0060b30, 0x363482c9, 0x77d37528, 0xb62ec4bc, 0xade79437, 0x6112a3b7, 0xedffbff8, 0xc74c6516)
  {
    StartLength(h, b);
    hide IsStart;
    hide Schedule;
    hide Rounds;
    Round29(h, b); Word29(b);
    NextRound(h, b, 29, Regs(0x363482c9, 0x77d37528, 0xb62ec4bc, 0xcde8037d, 0x6112a3b7, 0xedffbff8, 0xc74c6516, 0x14383d8e), 0xd5a79147, 0xec8726cb);
  }

  lemma Round31(h: Regs, b: seq<Byte>)
    requires IsStart(h, b)
    ensures |b| == 64 && Rounds(h, b, 31)
         == Regs(0xea992a22, 0xa0060b30, 0x363482c9, 0x77d37528, 0x0109ab3a, 0xade79437, 0x6112a3b7, 0xedffbff8)
  {
    StartLength(h, b);
    hide IsStart;
    hide Schedule;
    hide Rounds;
    Round30(h, b); Word30(b);
    NextRound(h, b, 30, Regs(0xa0060b30, 0x363482c9, 0x77d37528, 0xb62ec4bc, 0xade79437, 0x6112a3b7, 0xedffbff8, 0xc74c6516), 0x06ca6351, 0x702138a4);
  }

  lemma Round32(h: Regs, b: seq<Byte>)
    requires IsStart(h, b)
    ensures |b| == 64 && Rounds(h, b, 32)
         == Regs(0x73b33bf5, 0xea992a22, 0xa0060b30, 0x363482c9, 0xba591112, 0x0109ab3a, 0xade79437, 0x6112a3b7)
  {
    StartLength(h, b);
    hide IsStart;
    hide Schedule;
    hide Rounds;
    Round31(h, b); Word31(b);
    NextRound(h, b, 31, Regs(0xea992a22, 0xa0060b30, 0x363482c9, 0x77d37528, 0x0109ab3a, 0xade79437, 0x6112a3b7, 0xedffbff8), 0x14292967, 0xd3b7973b);
  }

  lemma Round33(h: Regs, b: seq<Byte>)
    requires IsStart(h, b)
    ensures |b| == 64 && Rounds(h, b, 33)
         == Regs(0x98e12507, 0x73b33bf5, 0xea992a22, 0xa0060b30, 0x9cd9f5f6, 0xba591112, 0x0109ab3a, 0xade79437)
  {
    StartLength(h, b);
    hide IsStart;
    hide Schedule;
    hide Rounds;
    Round32(h, b); Word32(b);
    NextRound(h, b, 32, Regs(0x73b33bf5, 0xea992a22, 0xa0060b30, 0x363482c9, 0xba591112, 0x0109ab3a, 0xade79437, 0x6112a3b7), 0x27b70a85, 0x93f5997f);
  }

  lemma Round34(h: Regs, b: seq<Byte>)
    requires IsStart(h, b)
    ensures |b| == 64 && Rounds(h, b, 34)
         == Regs(0xfe604df5, 0x98e12507, 0x73b33bf5, 0xea992a22, 0x59249dd3, 0x9cd9f5f6, 0xba591112, 0x0109ab3a)
  {
    StartLength(h, b);
    hide IsStart;
    hide Schedule;
    hide Rounds;
    Round33(h, b); Word33(b);
    NextRound(h, b, 33, Regs(0x98e12507, 0x73b33bf5, 0xea992a22, 0xa0060b30, 0x9cd9f5f6, 0xba591112, 0x0109ab3a, 0xade79437), 0x2e1b2138, 0x3b68ba73);
  }

  lemma Round35(h: Regs, b: seq<Byte>)
    requires IsStart(h, b)
    ensures |b| == 64 && Rounds(h, b, 35)
         == Regs(0xa9a7738c, 0xfe604df5, 0x98e12507, 0x73b33bf5, 0x085f3833, 0x59249dd3, 0x9cd9f5f6, 0xba591112)
  {
    StartLength(h, b);
    hide IsStart;
    hide Schedule;
    hide Rounds;
    Round34(h, b); Word34(b);
    NextRound(h, b, 34, Regs(0xfe604df5, 0x98e12507, 0x73b33bf5, 0xea992a22, 0x59249dd3, 0x9cd9f5f6, 0xba591112, 0x0109ab3a), 0x4d2c6dfc, 0xaff4ffc1);
  }

  lemma Round36(h: Regs, b: seq<Byte>)
    requires IsStart(h, b)
    ensures |b| == 64 && Rounds(h, b, 36)
         == Regs(0x65a0cfe4, 0xa9a7738c, 0xfe604df5, 0x98e12507, 0xf4b002d6, 0x085f3833, 0x59249dd3, 0x9cd9f5f6)
  {
    StartLength(h, b);
    hide IsStart;
    hide Schedule;
    hide Rounds;
    Round35(h, b); Word35(b);
    NextRound(h, b, 35, Regs(0xa9a7738c, 0xfe604df5, 0x98e12507, 0x73b33bf5, 0x085f3833, 0x59249dd3, 0x9cd9f5f6, 0xba591112), 0x53380d13, 0xf10a5c62);
  }

  lemma Round37(h: Regs, b: seq<Byte>)
    requires IsStart(h, b)
    ensures |b| == 64 && Rounds(h, b, 37)
         == Regs(0x41a65cb1, 0x65a0cfe4, 0xa9a7738c, 0xfe604df5, 0x0772a26b, 0xf4b002d6, 0x085f3833, 0x59249dd3)
  {
    StartLength(h, b);
    hide IsStart;
    hide Schedule;
    hide Rounds;
    Round36(h, b); Word36(b);
    NextRound(h, b, 36, Regs(0x65a0cfe4, 0xa9a7738c, 0xfe604df5, 0x98e12507, 0xf4b002d6, 0x085f3833, 0x59249dd3, 0x9cd9f5f6), 0x650a7354, 0x0a8b3996);
  }

  lemma Round38(h: Regs, b: seq<Byte>)
    requires IsStart(h, b)
    ensures |b| == 64 && Rounds(h, b, 38)
         == Regs(0x34df1604, 0x41a65cb1, 0x65a0cfe4, 0xa9a7738c, 0xa507a53d, 0x0772a26b, 0xf4b002d6, 0x085f3833)
  {
    StartLength(h, b);
    hide IsStart;
    hide Schedule;
    hide Rounds;
    Round37(h, b); Word37(b);
    NextRound(h, b, 37, Regs(0x41a65cb1, 0x65a0cfe4, 0xa9a7738c, 0xfe604df5, 0x0772a26b, 0xf4b002d6, 0x085f3833, 0x59249dd3), 0x766a0abb, 0x72af830a);
  }

  lemma Round39(h: Regs, b: seq<Byte>)
    requires IsStart(h, b)
    ensures |b| == 64 && Rounds(h, b, 39)
         == Regs(0x6dc57a8a, 0x34df1604, 0x41a65cb1, 0x65a0cfe4, 0xf0781bc8, 0xa507a53d, 0x0772a26b, 0xf4b002d6)
  {
    StartLength(h, b);
    hide IsStart;
    hide Schedule;
    hide Rounds;
    Round38(h, b); Word38(b);
    NextRound(h, b, 38, Regs(0x34df1604, 0x41a65cb1, 0x65a0cfe4, 0xa9a7738c, 0xa507a53d, 0x0772a26b, 0xf4b002d6, 0x085f3833), 0x81c2c92e, 0x9409e33e);
  }

  lemma Round40(h: Regs, b: seq<Byte>)
    requires IsStart(h, b)
    ensures |b| == 64 && Rounds(h, b, 40)
         == Regs(0x79ea687a, 0x6dc57a8a, 0x34df1604, 0x41a65cb1, 0x1efbc0a0, 0xf0781bc8, 0xa507a53d, 0x0772a26b)
  {
    StartLength(h, b);
    hide IsStart;
    hide Schedule;
    hide Rounds;
    Round39(h, b); Word39(b);
    NextRound(h, b, 39, Regs(0x6dc57a8a, 0x34df1604, 0x41a65cb1, 0x65a0cfe4, 0xf0781bc8, 0xa507a53d, 0x0772a26b, 0xf4b002d6), 0x92722c85, 0x24641522);
  }

  lemma Round41(h: Regs, b: seq<Byte>)
    requires IsStart(h, b)
    ensures |b| == 64 && Rounds(h, b, 41)
         == Regs(0xd6670766, 0x79ea687a, 0x6dc57a8a, 0x34df1604, 0x26352d63, 0x1efbc0a0, 0xf0781bc8, 0xa507a53d)
  {
    StartLength(h, b);
    hide IsStart;
    hide Schedule;
    hide Rounds;
    Round40(h, b); Word40(b);
    NextRound(h, b, 40, Regs(0x79ea687a, 0x6dc57a8a, 0x34df1604, 0x41a65cb1, 0x1efbc0a0, 0xf0781bc8, 0xa507a53d, 0x0772a26b), 0xa2bfe8a1, 0x9f47bf94);
  }

  lemma Round42(h: Regs, b: seq<Byte>)
    requires IsStart(h, b)
    ensures |b| == 64 && Rounds(h, b, 42)
         == Regs(0xdf46652f, 0xd6670766, 0x79ea687a, 0x6dc57a8a, 0x838b2711, 0x26352d63, 0x1efbc0a0, 0xf0781bc8)
  {
    StartLength(h, b);
    hide IsStart;
    hide Schedule;
    hide Rounds;
    Round41(h, b); Word41(b);
    NextRound(h, b, 41, Regs(0xd6670766, 0x79ea687a, 0x6dc57a8a, 0x34df1604, 0x26352d63, 0x1efbc0a0, 0xf0781bc8, 0xa507a53d), 0xa81a664b, 0xf0a64f5a);
  }

  lemma Round43(h: Regs, b: seq<Byte>)
    requires IsStart(h, b)
    ensures |b| == 64 && Rounds(h, b, 43)
         == Regs(0x17aa0dfe, 0xdf46652f, 0xd6670766, 0x79ea687a, 0xdecd4715, 0x838b2711, 0x26352d63, 0x1efbc0a0)
  {
    StartLength(h, b);
    hide IsStart;
    hide Schedule;
    hide Rounds;
    Round42(h, b); Word42(b);
    NextRound(h, b, 42, Regs(0xdf46652f, 0xd6670766, 0x79ea687a, 0x6dc57a8a, 0x838b2711, 0x26352d63, 0x1efbc0a0, 0xf0781bc8), 0xc24b8b70, 0x3e246a79);
  }

  lemma Round44(h: Regs, b: seq<Byte>)
    requires IsStart(h, b)
    ensures |b| == 64 && Rounds(h, b, 44)
         == Regs(0x9d4baf93, 0x17aa0dfe, 0xdf46652f, 0xd6670766, 0xfda24c2e, 0xdecd4715, 0x838b2711, 0x26352d63)
  {
    StartLength(h, b);
    hide IsStart;
    hide Schedule;
    hide Rounds;
    Round43(h, b); Word43(b);
    NextRound(h, b, 43, Regs(0x17aa0dfe, 0xdf46652f, 0xd6670766, 0x79ea687a, 0xdecd4715, 0x838b2711, 0x26352d63, 0x1efbc0a0), 0xc76c51a3, 0x27333ba3);
  }

  lemma Round45(h: Regs, b: seq<Byte>)
    requires IsStart(h, b)
    ensures |b| == 64 && Rounds(h, b, 45)
         == Regs(0x26628815, 0x9d4baf93, 0x17aa0dfe, 0xdf46652f, 0xa80f11f0, 0xfda24c2e, 0xdecd4715, 0x838b2711)
  {
    StartLength(h, b);
    hide IsStart;
    hide Schedule;
    hide Rounds;
    Round44(h, b); Word44(b);
    NextRound(h, b, 44, Regs(0x9d4baf93, 0x17aa0dfe, 0xdf46652f, 0xd6670766, 0xfda24c2e, 0xdecd4715, 0x838b2711, 0x26352d63), 0xd192e819, 0x0c4763f2);
  }

  lemma Round46(h: Regs, b: seq<Byte>)
    requires IsStart(h, b)
    ensures |b| == 64 && Rounds(h, b, 46)
         == Regs(0x72ab4b91, 0x26628815, 0x9d4baf93, 0x17aa0dfe, 0xb7755da1, 0xa80f11f0, 0xfda24c2e, 0xdecd4715)
  {
    StartLength(h, b);
    hide IsStart;
    hide Schedule;
    hide Rounds;
    Round45(h, b); Word45(b);
    NextRound(h, b, 45, Regs(0x26628815, 0x9d4baf93, 0x17aa0dfe, 0xdf46652f, 0xa80f11f0, 0xfda24c2e, 0xdecd4715, 0x838b2711), 0xd6990624, 0x840abf27);
  }

  lemma Round47(h: Regs, b: seq<Byte>)
    requires IsStart(h, b)
    ensures |b| == 64 && Rounds(h, b, 47)
         == Regs(0xa14c14b0, 0x72ab4b91, 0x26628815, 0x9d4baf93, 0xd57b94a9, 0xb7755da1, 0xa80f11f0, 0xfda24c2e)
  {
    StartLength(h, b);
    hide IsStart;
    hide Schedule;
    hide Rounds;
    Round46(h, b); Word46(b);
    NextRound(h, b, 46, Regs(0x72ab4b91, 0x26628815, 0x9d4baf93, 0x17aa0dfe, 0xb7755da1, 0xa80f11f0, 0xfda24c2e, 0xdecd4715), 0xf40e3585, 0x7a290d5d);
  }

  lemma Round48(h: Regs, b: seq<Byte>)
    requires IsStart(h, b)
    ensures |b| == 64 && Rounds(h, b, 48)
         == Regs(0x4172328d, 0xa14c14b0, 0x72ab4b91, 0x26628815, 0xfecf0bc6, 0xd57b94a9, 0xb7755da1, 0xa80f11f0)
  {
    StartLength(h, b);
    hide IsStart;
    hide Schedule;
    hide Rounds;
    Round47(h, b); Word47(b);
    NextRound(h, b, 47, Regs(0xa14c14b0, 0x72ab4b91, 0x26628815, 0x9d4baf93, 0xd57b94a9, 0xb7755da1, 0xa80f11f0, 0xfda24c2e), 0x106aa070, 0x065c43da);
  }

  lemma Round49(h: Regs, b: seq<Byte>)
    requires IsStart(h, b)
    ensures |b| == 64 && Rounds(h, b, 49)
         == Regs(0x05757ceb, 0x4172328d, 0xa14c14b0, 0x72ab4b91, 0xbd714038, 0xfecf0bc6, 0xd57b94a9, 0xb7755da1)
  {
    StartLength(h, b);
    hide IsStart;
    hide Schedule;
    hide Rounds;
    Round48(h, b); Word48(b);
    NextRound(h, b, 48, Regs(0x4172328d, 0xa14c14b0, 0x72ab4b91, 0x26628815, 0xfecf0bc6, 0xd57b94a9, 0xb7755da1, 0xa80f11f0), 0x19a4c116, 0xfb3e89cb);
  }

  lemma Round50(h: Regs, b: seq<Byte>)
    requires IsStart(h, b)
    ensures |b| == 64 && Rounds(h, b, 50)
         == Regs(0xf11bfaa8, 0x05757ceb, 0x4172328d, 0xa14c14b0, 0x6e5c390c, 0xbd714038, 0xfecf0bc6, 0xd57b94a9)
  {
    StartLength(h, b);
    hide IsStart;
    hide Schedule;
    hide Rounds;
    Round49(h, b); Word49(b);
    NextRound(h, b, 49, Regs(0x05757ceb, 0x4172328d, 0xa14c14b0, 0x72ab4b91, 0xbd714038, 0xfecf0bc6, 0xd57b94a9, 0xb7755da1), 0x1e376c08, 0xcc7617db);
  }

  lemma Round51(h: Regs, b: seq<Byte>)
    requires IsStart(h, b)
    ensures |b| == 64 && Rounds(h, b, 51)
         == Regs(0x7a0508a1, 0xf11bfaa8, 0x05757ceb, 0x4172328d, 0x52f1ccf7, 0x6e5c390c, 0xbd714038, 0xfecf0bc6)
  {
    StartLength(h, b);
    hide IsStart;
    hide Schedule;
    hide Rounds;
    Round50(h, b); Word50(b);
    NextRound(h, b, 50, Regs(0xf11bfaa8, 0x05757ceb, 0x4172328d, 0xa14c14b0, 0x6e5c390c, 0xbd714038, 0xfecf0bc6, 0xd57b94a9), 0x2748774c, 0xb9e66c34);
  }

  lemma Round52(h: Regs, b: seq<Byte>)
    requires IsStart(h, b)
    ensures |b| == 64 && Rounds(h, b, 52)
         == Regs(0x886e7a22, 0x7a0508a1, 0xf11bfaa8, 0x05757ceb, 0x49231c1e, 0x52f1ccf7, 0x6e5c390c, 0xbd714038)
  {
    StartLength(h, b);
    hide IsStart;
    hide Schedule;
    hide Rounds;
    Round51(h, b); Word51(b);
    NextRound(h, b, 51, Regs(0x7a0508a1, 0xf11bfaa8, 0x05757ceb, 0x4172328d, 0x52f1ccf7, 0x6e5c390c, 0xbd714038, 0xfecf0bc6), 0x34b0bcb5, 0xa9993667);
  }

  lemma Round53(h: Regs, b: seq<Byte>)
    requires IsStart(h, b)
    ensures |b| == 64 && Rounds(h, b, 53)
         == Regs(0x101fd28f, 0x886e7a22, 0x7a0508a1, 0xf11bfaa8, 0x529e7d00, 0x49231c1e, 0x52f1ccf7, 0x6e5c390c)
  {
    StartLength(h, b);
    hide IsStart;
    hide Schedule;
    hide Rounds;
    Round52(h, b); Word52(b);
    NextRound(h, b, 52, Regs(0x886e7a22, 0x7a0508a1, 0xf11bfaa8, 0x05757ceb, 0x49231c1e, 0x52f1ccf7, 0x6e5c390c, 0xbd714038), 0x391c0cb3, 0x84badedd);
  }

  lemma Round54(h: Regs, b: seq<Byte>)
    requires IsStart(h, b)
    ensures |b| == 64 && Rounds(h, b, 54)
         == Regs(0xf5702fdb, 0x101fd28f, 0x886e7a22, 0x7a0508a1, 0x9f4787c3, 0x529e7d00, 0x49231c1e, 0x52f1ccf7)
  {
    StartLength(h, b);
    hide IsStart;
    hide Schedule;
    hide Rounds;
    Round53(h, b); Word53(b);
    NextRound(h, b, 53, Regs(0x101fd28f, 0x886e7a22, 0x7a0508a1, 0xf11bfaa8, 0x529e7d00, 0x49231c1e, 0x52f1ccf7, 0x6e5c390c), 0x4ed8aa4a, 0xc21462bc);
  }

  lemma Round55(h: Regs, b: seq<Byte>)
    requires IsStart(h, b)
    ensures |b| == 64 && Rounds(h, b, 55)
         == Regs(0x3ec45cdb, 0xf5702fdb, 0x101fd28f, 0x886e7a22, 0xe50e1b4f, 0x9f4787c3, 0x529e7d00, 0x49231c1e)
  {
    StartLength(h, b);
    hide IsStart;
    hide Schedule;
    hide Rounds;
    Round54(h, b); Word54(b);
    NextRound(h, b, 54, Regs(0xf5702fdb, 0x101fd28f, 0x886e7a22, 0x7a0508a1, 0x9f4787c3, 0x529e7d00, 0x49231c1e, 0x52f1ccf7), 0x5b9cca4f, 0x1487472c);
  }

  lemma Round56(h: Regs, b: seq<Byte>)
    requires IsStart(h, b)
    ensures |b| == 64 && Rounds(h, b, 56)
         == Regs(0x38cc9913, 0x3ec45cdb, 0xf5702fdb, 0x101fd28f, 0x54cb266b, 0xe50e1b4f, 0x9f4787c3, 0x529e7d00)
  {
    StartLength(h, b);
    hide IsStart;
    hide Schedule;
    hide Rounds;
    Round55(h, b); Word55(b);
    NextRound(h, b, 55, Regs(0x3ec45cdb, 0xf5702fdb, 0x101fd28f, 0x886e7a22, 0xe50e1b4f, 0x9f4787c3, 0x529e7d00, 0x49231c1e), 0x682e6ff3, 0xb20f7a99);
  }

  lemma Round57(h: Regs, b: seq<Byte>)
    requires IsStart(h, b)
    ensures |b| == 64 && Rounds(h, b, 57)
         == Regs(0xfcd1887b, 0x38cc9913, 0x3ec45cdb, 0xf5702fdb, 0x9b5e906c, 0x54cb266b, 0xe50e1b4f, 0x9f4787c3)
  {
    StartLength(h, b);
    hide IsStart;
    hide Schedule;
    hide Rounds;
    Round56(h, b); Word56(b);
    NextRound(h, b, 56, Regs(0x38cc9913, 0x3ec45cdb, 0xf5702fdb, 0x101fd28f, 0x54cb266b, 0xe50e1b4f, 0x9f4787c3, 0x529e7d00), 0x748f82ee, 0xef57b9cd);
  }

  lemma Round58(h: Regs, b: seq<Byte>)
    requires IsStart(h, b)
    ensures |b| == 64 && Rounds(h, b, 58)
         == Regs(0xc062d46f, 0xfcd1887b, 0x38cc9913, 0x3ec45cdb, 0x7e44008e, 0x9b5e906c, 0x54cb266b, 0xe50e1b4f)
  {
    StartLength(h, b);
    hide IsStart;
    hide Schedule;
    hide Rounds;
    Round57(h, b); Word57(b);
    NextRound(h, b, 57, Regs(0xfcd1887b, 0x38cc9913, 0x3ec45cdb, 0xf5702fdb, 0x9b5e906c, 0x54cb266b, 0xe50e1b4f, 0x9f4787c3), 0x78a5636f, 0xebe6b238);
  }

  lemma Round59(h: Regs, b: seq<Byte>)
    requires IsStart(h, b)
    ensures |b| == 64 && Rounds(h, b, 59)
         == Regs(0xffb70472, 0xc062d46f, 0xfcd1887b, 0x38cc9913, 0x6d83bfc6, 0x7e44008e, 0x9b5e906c, 0x54cb266b)
  {
    StartLength(h, b);
    hide IsStart;
    hide Schedule;
    hide Rounds;
    Round58(h, b); Word58(b);
    NextRound(h, b, 58, Regs(0xc062d46f, 0xfcd1887b, 0x38cc9913, 0x3ec45cdb, 0x7e44008e, 0x9b5e906c, 0x54cb266b, 0xe50e1b4f), 0x84c87814, 0x9fe3095e);
  }

  lemma Round60(h: Regs, b: seq<Byte>)
    requires IsStart(h, b)
    ensures |b| == 64 && Rounds(h, b, 60)
         == Regs(0xb6ae8fff, 0xffb70472, 0xc062d46f, 0xfcd1887b, 0xb21bad3d, 0x6d83bfc6, 0x7e44008e, 0x9b5e906c)
  {
    StartLength(h, b);
    hide IsStart;
    hide Schedule;
    hide Rounds;
    Round59(h, b); Word59(b);
    NextRound(h, b, 59, Regs(0xffb70472, 0xc062d46f, 0xfcd1887b, 0x38cc9913, 0x6d83bfc6, 0x7e44008e, 0x9b5e906c, 0x54cb266b), 0x8cc70208, 0x78bc8d4b);
  }

  lemma Round61(h: Regs, b: seq<Byte>)
    requires IsStart(h, b)
    ensures |b| == 64 && Rounds(h, b, 61)
         == Regs(0xb85e2ce9, 0xb6ae8fff, 0xffb70472, 0xc062d46f, 0x961f4894, 0xb21bad3d, 0x6d83bfc6, 0x7e44008e)
  {
    StartLength(h, b);
    hide IsStart;
    hide Schedule;
    hide Rounds;
    Round60(h, b); Word60(b);
    NextRound(h, b, 60, Regs(0xb6ae8fff, 0xffb70472, 0xc062d46f, 0xfcd1887b, 0xb21bad3d, 0x6d83bfc6, 0x7e44008e, 0x9b5e906c), 0x90befffa, 0xa43fcf15);
  }

  lemma Round62(h: Regs, b: seq<Byte>)
    requires IsStart(h, b)
    ensures |b| == 64 && Rounds(h, b, 62)
         == Regs(0x04d24d6c, 0xb85e2ce9, 0xb6ae8fff, 0xffb70472, 0x948d25b6, 0x961f4894, 0xb21bad3d, 0x6d83bfc6)
  {
    StartLength(h, b);
    hide IsStart;
    hide Schedule;
    hide Rounds;
    Round61(h, b); Word61(b);
    NextRound(h, b, 61, Regs(0xb85e2ce9, 0xb6ae8fff, 0xffb70472, 0xc062d46f, 0x961f4894, 0xb21bad3d, 0x6d83bfc6, 0x7e44008e), 0xa4506ceb, 0x668b2ff8);
  }

  lemma Round63(h: Regs, b: seq<Byte>)
    requires IsStart(h, b)
    ensures |b| == 64 && Rounds(h, b, 63)
         == Regs(0xd39a2165, 0x04d24d6c, 0xb85e2ce9, 0xb6ae8fff, 0xfb121210, 0x948d25b6, 0x961f4894, 0xb21bad3d)
  {
    StartLength(h, b);
    hide IsStart;
    hide Schedule;
    hide Rounds;
    Round62(h, b); Word62(b);
    NextRound(h, b, 62, Regs(0x04d24d6c, 0xb85e2ce9, 0xb6ae8fff, 0xffb70472, 0x948d25b6, 0x961f4894, 0xb21bad3d, 0x6d83bfc6), 0xbef9a3f7, 0xeeaba2cc);
  }

  lemma Round64(h: Regs, b: seq<Byte>)
    requires IsStart(h, b)
    ensures |b| == 64 && Rounds(h, b, 64)
         == Regs(0x506e3058, 0xd39a2165, 0x04d24d6c, 0xb85e2ce9, 0x5ef50f24, 0xfb121210, 0x948d25b6, 0x961f4894)
  {
    StartLength(h, b);
    hide IsStart;
    hide Schedule;
    hide Rounds;
    Round63(h, b); Word63(b);
    NextRound(h, b, 63, Regs(0xd39a2165, 0x04d24d6c, 0xb85e2ce9, 0xb6ae8fff, 0xfb121210, 0x948d25b6, 0x961f4894, 0xb21bad3d), 0xc67178f2, 0x12b1edeb);
  }

  // ---------------------------------------------------------------- the digest

  lemma FoldOne(h: Regs, b: seq<Byte>)
    requires |b| == 64
    ensures Fold(h, b, 1) == Compress(h, b)
  {
    hide Compress;
    assert Block(b, 0) == b;
    assert Fold(h, b, 0) == h;
  }

  lemma CompressIs(h: Regs, b: seq<Byte>, r: Regs)
    requires |b| == 64 && Rounds(h, b, 64) == r
    ensures Compress(h, b) == Sum(h, r)
  {
    hide Rounds;
    hide Sum;
  }

  lemma AbcHashValue(h: Regs, b: seq<Byte>)
    requires IsStart(h, b)
    ensures |b| == 64 && Fold(h, b, 1) == Regs(0xba7816bf, 0x8f01cfea, 0x414140de, 0x5dae2223, 0xb00361a3, 0x96177a9c, 0xb410ff61, 0xf20015ad)
  {
    Round64(h, b);
    hide IsAbcBlock;
    hide Rounds;
    hide Fold;
    hide Compress;
    FoldOne(h, b);
    CompressIs(h, b, Regs(0x506e3058, 0xd39a2165, 0x04d24d6c, 0xb85e2ce9, 0x5ef50f24, 0xfb121210, 0x948d25b6, 0x961f4894));
  }

  lemma AbcOctets()
    ensures Unpack32(0xba7816bf) == [0xba, 0x78, 0x16, 0xbf]
    ensures Unpack32(0x8f01cfea) == [0x8f, 0x01, 0xcf, 0xea]
    ensures Unpack32(0x414140de) == [0x41, 0x41, 0x40, 0xde]
    ensures Unpack32(0x5dae2223) == [0x5d, 0xae, 0x22, 0x23]
    ensures Unpack32(0xb00361a3) == [0xb0, 0x03, 0x61, 0xa3]
    ensures Unpack32(0x96177a9c) == [0x96, 0x17, 0x7a, 0x9c]
    ensures Unpack32(0xb410ff61) == [0xb4, 0x10, 0xff, 0x61]
    ensures Unpack32(0xf20015ad) == [0xf2, 0x00, 0x15, 0xad]
  {
  }

  function AbcDigest(): seq<Byte> {
    [0xba, 0x78, 0x16, 0xbf, 0x8f, 0x01, 0xcf, 0xea,
     0x41, 0x41, 0x40, 0xde, 0x5d, 0xae, 0x22, 0x23,
     0xb0, 0x03, 0x61, 0xa3, 0x96, 0x17, 0x7a, 0x9c,
     0xb4, 0x10, 0xff, 0x61, 0xf2, 0x00, 0x15, 0xad]
  }

  lemma Sha256Is(m: seq<Byte>)
    ensures Sha256(m) == DigestOfPadded(Pad(m))
  {
  }

  /** The digest of "abc" that FIPS 180-4 gives. */
  lemma Sha256OfAbc()
    ensures Sha256([0x61, 0x62, 0x63]) == AbcDigest()
  {
    var m := [0x61, 0x62, 0x63];
    PadAbc();
    Sha256Is(m);
    hide *;
    DigestOfBlock(Pad(m));
  }

  lemma DigestOfOne(b: seq<Byte>, r: Regs)
    requires |b| == 64 && Fold(InitialValue(), b, 1) == r
    ensures DigestOfPadded(b) == RegBytes(r)
  {
    hide Fold;
    hide InitialValue;
    hide RegBytes;
  }

  lemma Started(b: seq<Byte>)
    requires IsAbcBlock(b)
    ensures IsStart(InitialValue(), b)
  {
    hide InitialValue;
    hide IsAbcBlock;
    Initial();
  }

  lemma DigestOfBlock(b: seq<Byte>)
    requires IsAbcBlock(b)
    ensures DigestOfPadded(b) == AbcDigest()
  {
    hide *;
    Started(b);
    AbcHashValue(InitialValue(), b);
    AbcRegBytes();
    DigestOfOne(b, Regs(0xba7816bf, 0x8f01cfea, 0x414140de, 0x5dae2223, 0xb00361a3, 0x96177a9c, 0xb410ff61, 0xf20015ad));
  }

  lemma AbcRegBytes()
    ensures RegBytes(Regs(0xba7816bf, 0x8f01cfea, 0x414140de, 0x5dae2223, 0xb00361a3, 0x96177a9c, 0xb410ff61, 0xf20015ad)) == AbcDigest()
  {
    AbcOctets();
    hide Unpack32;
  }


  /** It is what the code computes for the password "abc", too. */
  lemma DigestOfAbc()
    ensures Digest([0x61, 0x62, 0x63]) == AbcDigest()
  {
    PaddingIsStandardIff([0x61, 0x62, 0x63]);
    Sha256OfAbc();
    hide StreamPad;
    hide Pad;
    hide DigestOfPadded;
    hide AbcDigest;
  }
}
