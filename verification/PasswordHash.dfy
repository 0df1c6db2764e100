/** The printable digest stored for a password (src/sha256.cpp, `sha256`). */
module PasswordHash {
  import opened Bytes
  import opened Sha256Spec
  import opened Sha256Stream

  function HexDigit(n: nat): (c: char)
    requires n < 16
    ensures c != '\0'
  {
    "0123456789abcdef"[n]
  }

  /** The conversion "%02x". */
  function HexByte(b: Byte): (s: string)
    ensures |s| == 2
  {
    [HexDigit(b / 16), HexDigit(b % 16)]
  }

  function Hex(d: seq<Byte>): (s: string)
    ensures |s| == 2 * |d|
  {
    if d == [] then [] else Hex(d[..|d| - 1]) + HexByte(d[|d| - 1])
  }

  /** The digest of the bytes of a password, as the code computes it. */
  function Digest(password: seq<Byte>): (d: seq<Byte>)
    ensures |d| == 32
  {
    DigestOfPadded(StreamPad(password))
  }

  function Printed(password: seq<Byte>): string {
    Hex(Digest(password))
  }

  lemma HexDigitInjective(m: nat, n: nat)
    requires m < 16 && n < 16 && HexDigit(m) == HexDigit(n)
    ensures m == n
  {
  }

  lemma HexByteInjective(a: Byte, b: Byte)
    requires HexByte(a) == HexByte(b)
    ensures a == b
  {
    assert HexByte(a)[0] == HexByte(b)[0] && HexByte(a)[1] == HexByte(b)[1];
    HexDigitInjective(a / 16, b / 16);
    HexDigitInjective(a % 16, b % 16);
  }

  /** Printing loses nothing, so comparing printed digests compares digests. */
  lemma {:induction false} HexInjective(a: seq<Byte>, b: seq<Byte>)
    requires Hex(a) == Hex(b)
    ensures a == b
  {
    hide HexByte;
    if a == [] || b == [] {
      assert |Hex(a)| == 2 * |a| && |Hex(b)| == 2 * |b|;
    } else {
      var m, n := |a| - 1, |b| - 1;
      assert |Hex(a)| == 2 * m + 2 && |Hex(b)| == 2 * n + 2;
      var s, t := Hex(a[..m]), Hex(b[..n]);
      assert s == Hex(a)[..2 * m] && t == Hex(b)[..2 * m];
      assert HexByte(a[m]) == Hex(a)[2 * m..] && HexByte(b[n]) == Hex(b)[2 * m..];
      HexByteInjective(a[m], b[n]);
      HexInjective(a[..m], b[..n]);
      assert a == a[..m] + [a[m]] && b == b[..n] + [b[n]];
    }
  }

  /** The value of a lower-case hexadecimal digit, and -1 for every other character. */
  function HexValue(c: char): int {
    if '0' <= c <= '9' then c as int - '0' as int
    else if 'a' <= c <= 'f' then c as int - 'a' as int + 10
    else -1
  }

  lemma HexDigitReads(n: nat)
    requires n < 16
    ensures HexValue(HexDigit(n)) == n
  {
  }

  /** The text reads back: two lower-case digits an octet, the more significant first. */
  lemma {:induction false} HexReads(d: seq<Byte>, i: nat)
    requires i < |d|
    ensures var hi, lo := HexValue(Hex(d)[2 * i]), HexValue(Hex(d)[2 * i + 1]);
            hi >= 0 && lo >= 0 && 16 * hi + lo == d[i]
  {
    hide HexDigit;
    hide HexValue;
    if i == |d| - 1 {
      HexDigitReads(d[i] / 16);
      HexDigitReads(d[i] % 16);
    } else {
      HexReads(d[..|d| - 1], i);
    }
  }

  lemma PrintedEqualIff(p: seq<Byte>, q: seq<Byte>)
    ensures Printed(p) == Printed(q) <==> Digest(p) == Digest(q)
  {
    hide Digest;
    if Printed(p) == Printed(q) {
      HexInjective(Digest(p), Digest(q));
    }
  }

  /** `sprintf` into consecutive places of one buffer; each call also writes a terminator. */
  method PrintDigest(digest: seq<Byte>) returns (buf: array<char>)
    ensures fresh(buf) && buf.Length == 2 * |digest| + 1
    ensures buf[..2 * |digest|] == Hex(digest) && buf[2 * |digest|] == '\0'
  {
    buf := new char[2 * |digest| + 1](i => '\0');
    for i := 0 to |digest|
      invariant buf[..2 * i] == Hex(digest[..i]) && buf[2 * i] == '\0'
    {
      ghost var before := buf[..2 * i];
      buf[2 * i], buf[2 * i + 1] := HexDigit(digest[i] / 16), HexDigit(digest[i] % 16);
      buf[2 * i + 2] := '\0';
      assert digest[..i + 1][..i] == digest[..i];
      assert buf[..2 * i + 2] == before + HexByte(digest[i]);
    }
    assert digest[..|digest|] == digest;
  }

  method PasswordHashOf(password: seq<Byte>) returns (r: string)
    requires |password| < 0x8000_0000
    ensures r == Printed(password)
    ensures |password| < 0x2000_0000 ==> r == Hex(Sha256(password))
  {
    hide DigestOfPadded;
    hide StreamPad;
    hide Hex;
    var ctx := new Context();
    ctx.Update(password);
    var digest := new Byte[32](i => 0);
    ctx.Final(digest);
    assert [] + password == password;
    var buf := PrintDigest(digest[..]);
    r := buf[..64];
    if |password| < 0x2000_0000 {
      PaddingIsStandardIff(password);
    }
  }
}
