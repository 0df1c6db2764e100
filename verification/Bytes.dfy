/** Octets as the integers 0..255, and fixed-width integers written as octets. */
module Bytes {

  type Byte = b: int | 0 <= b < 256

  const TWO_32 := 0x1_0000_0000

  type UInt32 = n: int | 0 <= n < TWO_32

  /** The value of a 32-bit unsigned expression whose mathematical value is n. */
  function U32(n: nat): UInt32 {
    n % TWO_32
  }

  function Zeros(n: nat): (s: seq<Byte>)
    ensures |s| == n && forall i | 0 <= i < n :: s[i] == 0
  {
    seq(n, i => 0)
  }

  /** The low k octets of n, most significant first. */
  function BigEndian(n: nat, k: nat): (s: seq<Byte>)
    ensures |s| == k
  {
    if k == 0 then [] else BigEndian(n / 256, k - 1) + [n % 256]
  }

  function Pow256(k: nat): (p: nat)
    ensures p > 0
  {
    if k == 0 then 1 else 256 * Pow256(k - 1)
  }

  lemma Pow256Values()
    ensures Pow256(4) == TWO_32 && Pow256(8) == TWO_32 * TWO_32
  {
  }

  lemma DivPow256(n: nat, k: nat)
    requires k > 0 && n < Pow256(k)
    ensures n / 256 < Pow256(k - 1)
  {
  }

  /** k octets determine every number below 256^k. */
  lemma {:induction false} BigEndianInjective(m: nat, n: nat, k: nat)
    requires m < Pow256(k) && n < Pow256(k)
    requires BigEndian(m, k) == BigEndian(n, k)
    ensures m == n
  {
    if k > 0 {
      var s, t := BigEndian(m / 256, k - 1), BigEndian(n / 256, k - 1);
      assert s == (s + [m % 256])[..k - 1] && t == (t + [n % 256])[..k - 1];
      assert (s + [m % 256])[k - 1] == (t + [n % 256])[k - 1];
      DivPow256(m, k);
      DivPow256(n, k);
      BigEndianInjective(m / 256, n / 256, k - 1);
    }
  }

  /** Widening a number to more octets than it needs puts zeros in front. */
  lemma {:induction false} BigEndianWiden(n: nat, k: nat, extra: nat)
    requires n < Pow256(k)
    ensures BigEndian(n, extra + k) == Zeros(extra) + BigEndian(n, k)
  {
    if k > 0 {
      DivPow256(n, k);
      BigEndianWiden(n / 256, k - 1, extra);
      assert BigEndian(n, extra + k) == BigEndian(n / 256, extra + k - 1) + [n % 256];
    } else if extra > 0 {
      BigEndianWiden(0, 0, extra - 1);
      assert BigEndian(n, extra) == BigEndian(0, extra - 1) + [0];
    }
  }

  /** A number whose leading octets are zero fits in the remaining ones. */
  lemma {:induction false} BigEndianZeros(n: nat, extra: nat, k: nat)
    requires n < Pow256(extra + k)
    requires BigEndian(n, extra + k)[..extra] == Zeros(extra)
    ensures n < Pow256(k)
  {
    if k == 0 {
      BigEndianWiden(0, 0, extra);
      assert BigEndian(n, extra)[..extra] == BigEndian(n, extra);
      assert 0 < Pow256(extra);
      BigEndianInjective(n, 0, extra);
    } else {
      DivPow256(n, extra + k);
      var s := BigEndian(n / 256, extra + k - 1);
      assert (s + [n % 256])[..extra] == s[..extra];
      BigEndianZeros(n / 256, extra, k - 1);
    }
  }
}
