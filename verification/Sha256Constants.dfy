/**
 * The numeric tables of SHA-256, each tied to the definition FIPS 180-4 gives for it:
 * the first 32 bits of the fractional parts of cube or square roots of primes.
 */
module Sha256Constants {
  import opened Bytes

  /** Round constants 4r .. 4r+3 (section 4.2.2). */
  function ConstantRow(r: nat): (s: seq<UInt32>)
    requires r < 16
    ensures |s| == 4
  {
    match r
    case 0 => [0x428a2f98, 0x71374491, 0xb5c0fbcf, 0xe9b5dba5]
    case 1 => [0x3956c25b, 0x59f111f1, 0x923f82a4, 0xab1c5ed5]
    case 2 => [0xd807aa98, 0x12835b01, 0x243185be, 0x550c7dc3]
    case 3 => [0x72be5d74, 0x80deb1fe, 0x9bdc06a7, 0xc19bf174]
    case 4 => [0xe49b69c1, 0xefbe4786, 0x0fc19dc6, 0x240ca1cc]
    case 5 => [0x2de92c6f, 0x4a7484aa, 0x5cb0a9dc, 0x76f988da]
    case 6 => [0x983e5152, 0xa831c66d, 0xb00327c8, 0xbf597fc7]
    case 7 => [0xc6e00bf3, 0xd5a79147, 0x06ca6351, 0x14292967]
    case 8 => [0x27b70a85, 0x2e1b2138, 0x4d2c6dfc, 0x53380d13]
    case 9 => [0x650a7354, 0x766a0abb, 0x81c2c92e, 0x92722c85]
    case 10 => [0xa2bfe8a1, 0xa81a664b, 0xc24b8b70, 0xc76c51a3]
    case 11 => [0xd192e819, 0xd6990624, 0xf40e3585, 0x106aa070]
    case 12 => [0x19a4c116, 0x1e376c08, 0x2748774c, 0x34b0bcb5]
    case 13 => [0x391c0cb3, 0x4ed8aa4a, 0x5b9cca4f, 0x682e6ff3]
    case 14 => [0x748f82ee, 0x78a5636f, 0x84c87814, 0x8cc70208]
    case 15 => [0x90befffa, 0xa4506ceb, 0xbef9a3f7, 0xc67178f2]
  }

  /** Primes number 4r .. 4r+3, counting from zero. */
  function PrimeRow(r: nat): (s: seq<nat>)
    requires r < 16
    ensures |s| == 4
  {
    match r
    case 0 => [2, 3, 5, 7]
    case 1 => [11, 13, 17, 19]
    case 2 => [23, 29, 31, 37]
    case 3 => [41, 43, 47, 53]
    case 4 => [59, 61, 67, 71]
    case 5 => [73, 79, 83, 89]
    case 6 => [97, 101, 103, 107]
    case 7 => [109, 113, 127, 131]
    case 8 => [137, 139, 149, 151]
    case 9 => [157, 163, 167, 173]
    case 10 => [179, 181, 191, 193]
    case 11 => [197, 199, 211, 223]
    case 12 => [227, 229, 233, 239]
    case 13 => [241, 251, 257, 263]
    case 14 => [269, 271, 277, 281]
    case 15 => [283, 293, 307, 311]
  }

  /** Words 4r .. 4r+3 of the initial hash value (section 5.3.3). */
  function InitialRow(r: nat): (s: seq<UInt32>)
    requires r < 2
    ensures |s| == 4
  {
    match r
    case 0 => [0x6a09e667, 0xbb67ae85, 0x3c6ef372, 0xa54ff53a]
    case 1 => [0x510e527f, 0x9b05688c, 0x1f83d9ab, 0x5be0cd19]
  }

  // ---------------------------------------------------------------- the primes

  ghost predicate IsPrime(n: nat) {
    n >= 2 && forall a: nat, b: nat | a >= 2 && b >= 2 :: a * b != n
  }

  /** p does not strike out n. */
  predicate Sieved(n: nat, p: nat)
    requires p > 0
  {
    n % p != 0 || n == p
  }

  /** No prime divisor up to 17 other than n itself. */
  predicate PassesTrial(n: nat) {
    && n >= 2
    && Sieved(n, 2) && Sieved(n, 3) && Sieved(n, 5) && Sieved(n, 7)
    && Sieved(n, 11) && Sieved(n, 13) && Sieved(n, 17)
  }

  /** The first prime of row r; row 16 would start after 311. */
  function RowStart(r: nat): nat
    requires r <= 16
  {
    match r
    case 0 => 2 case 1 => 11 case 2 => 23 case 3 => 41 case 4 => 59 case 5 => 73
    case 6 => 97 case 7 => 109 case 8 => 137 case 9 => 157 case 10 => 179 case 11 => 197
    case 12 => 227 case 13 => 241 case 14 => 269 case 15 => 283
    case 16 => 312
  }

  predicate NonePass(lo: nat, hi: nat)
    decreases hi - lo
  {
    lo >= hi || (!PassesTrial(lo) && NonePass(lo + 1, hi))
  }

  /** Of the numbers from a to below end, exactly a, b, c and d pass. */
  predicate Pass(a: nat, b: nat, c: nat, d: nat, end: nat) {
    && PassesTrial(a) && NonePass(a + 1, b) && PassesTrial(b) && NonePass(b + 1, c)
    && PassesTrial(c) && NonePass(c + 1, d) && PassesTrial(d) && NonePass(d + 1, end)
  }

  lemma {:induction false} NonePassAt(lo: nat, hi: nat, n: nat)
    requires NonePass(lo, hi) && lo <= n < hi
    ensures !PassesTrial(n)
    decreases hi - lo
  {
    hide PassesTrial;
    if lo < n {
      NonePassAt(lo + 1, hi, n);
    }
  }

  lemma PassAt(a: nat, b: nat, c: nat, d: nat, end: nat, n: nat)
    requires Pass(a, b, c, d, end) && a < b < c < d < end && a <= n < end
    ensures PassesTrial(n) <==> n in [a, b, c, d]
  {
    hide PassesTrial;
    hide NonePass;
    if a < n < b {
      NonePassAt(a + 1, b, n);
    } else if b < n < c {
      NonePassAt(b + 1, c, n);
    } else if c < n < d {
      NonePassAt(c + 1, d, n);
    } else if d < n {
      NonePassAt(d + 1, end, n);
    }
  }

  lemma Primes0() ensures Pass(2, 3, 5, 7, 11) {}
  lemma Primes1() ensures Pass(11, 13, 17, 19, 23) {}
  lemma Primes2() ensures Pass(23, 29, 31, 37, 41) {}
  lemma Primes3() ensures Pass(41, 43, 47, 53, 59) {}
  lemma Primes4() ensures Pass(59, 61, 67, 71, 73) {}
  lemma Primes5() ensures Pass(73, 79, 83, 89, 97) {}
  lemma Primes6() ensures Pass(97, 101, 103, 107, 109) {}
  lemma Primes7() ensures Pass(109, 113, 127, 131, 137) {}
  lemma Primes8() ensures Pass(137, 139, 149, 151, 157) {}
  lemma Primes9() ensures Pass(157, 163, 167, 173, 179) {}
  lemma Primes10() ensures Pass(179, 181, 191, 193, 197) {}
  lemma Primes11() ensures Pass(197, 199, 211, 223, 227) {}
  lemma Primes12() ensures Pass(227, 229, 233, 239, 241) {}
  lemma Primes13() ensures Pass(241, 251, 257, 263, 269) {}
  lemma Primes14() ensures Pass(269, 271, 277, 281, 283) {}
  lemma Primes15() ensures Pass(283, 293, 307, 311, 312) {}

  lemma Struck2(b: nat) requires b >= 2 ensures !Sieved(2 * b, 2) {}
  lemma Struck3(b: nat) requires b >= 2 ensures !Sieved(3 * b, 3) {}
  lemma Struck5(b: nat) requires b >= 2 ensures !Sieved(5 * b, 5) {}
  lemma Struck7(b: nat) requires b >= 2 ensures !Sieved(7 * b, 7) {}
  lemma Struck11(b: nat) requires b >= 2 ensures !Sieved(11 * b, 11) {}
  lemma Struck13(b: nat) requires b >= 2 ensures !Sieved(13 * b, 13) {}
  lemma Struck17(b: nat) requires b >= 2 ensures !Sieved(17 * b, 17) {}

  /** A proper multiple of a number up to 17 fails the trial. */
  lemma MultipleFails(a: nat, b: nat)
    requires 2 <= a <= 17 && b >= 2
    ensures !PassesTrial(a * b)
  {
    hide Sieved;
    match a
    case 2 => Struck2(b);
    case 3 => Struck3(b);
    case 4 => Struck2(2 * b);
    case 5 => Struck5(b);
    case 6 => Struck2(3 * b);
    case 7 => Struck7(b);
    case 8 => Struck2(4 * b);
    case 9 => Struck3(3 * b);
    case 10 => Struck2(5 * b);
    case 11 => Struck11(b);
    case 12 => Struck2(6 * b);
    case 13 => Struck13(b);
    case 14 => Struck2(7 * b);
    case 15 => Struck3(5 * b);
    case 16 => Struck2(8 * b);
    case 17 => Struck17(b);
  }

  lemma LargeProduct(a: nat, b: nat)
    requires a >= 18 && b >= 18
    ensures a * b >= 18 * 18
  {
    assert a * b >= 18 * b;
  }

  lemma FailsIsComposite(n: nat)
    requires n >= 2 && !PassesTrial(n)
    ensures !IsPrime(n)
  {
    var p := if n % 2 == 0 && n != 2 then 2 else if n % 3 == 0 && n != 3 then 3 else if n % 5 == 0 && n != 5 then 5
             else if n % 7 == 0 && n != 7 then 7 else if n % 11 == 0 && n != 11 then 11
             else if n % 13 == 0 && n != 13 then 13 else 17;
    assert n == p * (n / p) && n / p >= 2;
  }

  /** Below 18 * 18 trial division by the primes up to 17 decides primality. */
  lemma TrialIsPrime(n: nat)
    requires n < 324
    ensures PassesTrial(n) <==> IsPrime(n)
  {
    if n >= 2 && !PassesTrial(n) {
      FailsIsComposite(n);
    }
    forall a: nat, b: nat | a >= 2 && b >= 2 && a * b == n
      ensures !PassesTrial(n)
    {
      if a <= 17 {
        MultipleFails(a, b);
      } else if b <= 17 {
        assert a * b == b * a;
        MultipleFails(b, a);
      } else {
        LargeProduct(a, b);
        assert false;
      }
    }
  }

  lemma RowTrial(r: nat)
    requires r < 16
    ensures var p := PrimeRow(r); Pass(p[0], p[1], p[2], p[3], RowStart(r + 1))
  {
    hide Pass;
    match r
    case 0 => Primes0();
    case 1 => Primes1();
    case 2 => Primes2();
    case 3 => Primes3();
    case 4 => Primes4();
    case 5 => Primes5();
    case 6 => Primes6();
    case 7 => Primes7();
    case 8 => Primes8();
    case 9 => Primes9();
    case 10 => Primes10();
    case 11 => Primes11();
    case 12 => Primes12();
    case 13 => Primes13();
    case 14 => Primes14();
    case 15 => Primes15();
  }

  lemma RowOrder(r: nat)
    requires r < 16
    ensures RowStart(r) == PrimeRow(r)[0] < PrimeRow(r)[1] < PrimeRow(r)[2] < PrimeRow(r)[3] < RowStart(r + 1) <= 312
    ensures RowStart(0) == 2
  {
  }

  /** The primes from a to below end are a, b, c and d. */
  lemma PrimesAre(a: nat, b: nat, c: nat, d: nat, end: nat, n: nat)
    requires Pass(a, b, c, d, end) && a < b < c < d < end <= 312
    ensures n in [a, b, c, d] <==> a <= n < end && IsPrime(n)
  {
    hide Pass;
    hide PassesTrial;
    hide IsPrime;
    if a <= n < end {
      PassAt(a, b, c, d, end, n);
      TrialIsPrime(n);
    }
  }

  /** Row r holds, in order, exactly the primes from its first one to the first one of the next row. */
  lemma PrimeRowIsPrimes(r: nat, n: nat)
    requires r < 16
    ensures n in PrimeRow(r) <==> RowStart(r) <= n < RowStart(r + 1) && IsPrime(n)
    ensures RowStart(r) == PrimeRow(r)[0] < PrimeRow(r)[1] < PrimeRow(r)[2] < PrimeRow(r)[3] < RowStart(r + 1)
    ensures RowStart(0) == 2
  {
    hide *;
    RowOrder(r);
    RowTrial(r);
    var p := PrimeRow(r);
    assert p == [p[0], p[1], p[2], p[3]];
    PrimesAre(p[0], p[1], p[2], p[3], RowStart(r + 1), n);
  }

  function CubeRootFloor(p: nat): nat {
    if p < 8 then 1 else if p < 27 then 2 else if p < 64 then 3 else if p < 125 then 4 else if p < 216 then 5 else 6
  }

  function SquareRootFloor(p: nat): nat {
    if p < 4 then 1 else if p < 9 then 2 else if p < 16 then 3 else 4
  }

  /** k is the first 32 bits of the fractional part of the cube root of p (p below 343). */
  predicate IsCubeRootFraction(p: nat, k: nat) {
    var r := CubeRootFloor(p) * TWO_32 + k;
    k < TWO_32 && r * r * r <= p * TWO_32 * TWO_32 * TWO_32 < (r + 1) * (r + 1) * (r + 1)
  }

  /** k is the first 32 bits of the fractional part of the square root of p (p below 25). */
  predicate IsSquareRootFraction(p: nat, k: nat) {
    var r := SquareRootFloor(p) * TWO_32 + k;
    k < TWO_32 && r * r <= p * TWO_32 * TWO_32 < (r + 1) * (r + 1)
  }

  predicate CubeRoots(ps: seq<nat>, ks: seq<nat>) {
    |ps| == |ks| && (ps == [] || (IsCubeRootFraction(ps[0], ks[0]) && CubeRoots(ps[1..], ks[1..])))
  }

  predicate SquareRoots(ps: seq<nat>, ks: seq<nat>) {
    |ps| == |ks| && (ps == [] || (IsSquareRootFraction(ps[0], ks[0]) && SquareRoots(ps[1..], ks[1..])))
  }

  lemma Row0() ensures CubeRoots(PrimeRow(0), ConstantRow(0)) {}
  lemma Row1() ensures CubeRoots(PrimeRow(1), ConstantRow(1)) {}
  lemma Row2() ensures CubeRoots(PrimeRow(2), ConstantRow(2)) {}
  lemma Row3() ensures CubeRoots(PrimeRow(3), ConstantRow(3)) {}
  lemma Row4() ensures CubeRoots(PrimeRow(4), ConstantRow(4)) {}
  lemma Row5() ensures CubeRoots(PrimeRow(5), ConstantRow(5)) {}
  lemma Row6() ensures CubeRoots(PrimeRow(6), ConstantRow(6)) {}
  lemma Row7() ensures CubeRoots(PrimeRow(7), ConstantRow(7)) {}
  lemma Row8() ensures CubeRoots(PrimeRow(8), ConstantRow(8)) {}
  lemma Row9() ensures CubeRoots(PrimeRow(9), ConstantRow(9)) {}
  lemma Row10() ensures CubeRoots(PrimeRow(10), ConstantRow(10)) {}
  lemma Row11() ensures CubeRoots(PrimeRow(11), ConstantRow(11)) {}
  lemma Row12() ensures CubeRoots(PrimeRow(12), ConstantRow(12)) {}
  lemma Row13() ensures CubeRoots(PrimeRow(13), ConstantRow(13)) {}
  lemma Row14() ensures CubeRoots(PrimeRow(14), ConstantRow(14)) {}
  lemma Row15() ensures CubeRoots(PrimeRow(15), ConstantRow(15)) {}

  /** Every round constant is the cube-root fraction of its prime. */
  lemma RoundConstantsAreCubeRoots(r: nat)
    requires r < 16
    ensures CubeRoots(PrimeRow(r), ConstantRow(r))
  {
    match r
    case 0 => Row0();
    case 1 => Row1();
    case 2 => Row2();
    case 3 => Row3();
    case 4 => Row4();
    case 5 => Row5();
    case 6 => Row6();
    case 7 => Row7();
    case 8 => Row8();
    case 9 => Row9();
    case 10 => Row10();
    case 11 => Row11();
    case 12 => Row12();
    case 13 => Row13();
    case 14 => Row14();
    case 15 => Row15();
  }

  /** The initial hash value is the square-root fractions of the first eight primes. */
  lemma InitialValueIsSquareRoots()
    ensures SquareRoots(PrimeRow(0), InitialRow(0)) && SquareRoots(PrimeRow(1), InitialRow(1))
  {
  }
}
