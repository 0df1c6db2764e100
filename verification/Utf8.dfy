/** `utf8_length` of src/util.cpp against the encoding of section 3 of RFC 3629. */
module Utf8 {
  import opened Bytes
  import opened Options
  import opened Words

  /** An octet as eight bits. */
  function Bits(b: Byte): bv8 { b as bv8 }

  /** Eight bits as an octet. */
  function Octet(x: bv8): Byte { x as int }

  lemma BitsOfOctet(x: bv8)
    ensures Bits(Octet(x)) == x
  {
  }

  /** The length the first octet of a character announces; None where the code throws. */
  function Announced(c: bv8): Option<nat> {
    if c & 0x80 == 0 then Some(1)
    else if c & 0xE0 == 0xC0 then Some(2)
    else if c & 0xF0 == 0xE0 then Some(3)
    else if c & 0xF8 == 0xF0 then Some(4)
    else None
  }

  function CharLength(b: Byte): (n: Option<nat>)
    ensures n.Some? ==> 1 <= n.value <= 4
  {
    Announced(Bits(b))
  }

  function Add(n: nat, rest: Option<nat>): Option<nat> {
    match rest case None => None case Some(m) => Some(n + m)
  }

  /** What is left after one character; a character cut off by the end counts as whole. */
  function Skip(s: seq<Byte>, n: nat): seq<Byte> {
    if n <= |s| then s[n..] else []
  }

  /** The number of characters counted in s, or None where the code throws. */
  function Length(s: seq<Byte>): Option<nat>
    decreases |s|
  {
    if s == [] then Some(0)
    else match CharLength(s[0])
      case None => None
      case Some(n) => Add(1, Length(Skip(s, n)))
  }

  lemma LengthStep(s: seq<Byte>)
    requires s != []
    ensures CharLength(s[0]).None? ==> Length(s) == None
    ensures CharLength(s[0]).Some? ==> Length(s) == Add(1, Length(Skip(s, CharLength(s[0]).value)))
  {
    hide CharLength;
    hide Skip;
  }

  lemma LengthOfNothing()
    ensures Length([]) == Some(0)
  {
  }

  lemma SkipSkip(s: seq<Byte>, i: nat, n: nat)
    requires i < |s|
    ensures Skip(s, i) != [] && Skip(s, i)[0] == s[i]
    ensures Skip(Skip(s, i), n) == Skip(s, i + n)
  {
  }

  method Utf8Length(s: seq<Byte>) returns (r: Option<nat>)
    ensures r == Length(s)
  {
    hide CharLength;
    hide Length;
    var len, i := 0, 0;
    assert Skip(s, 0) == s;
    while i < |s|
      invariant Length(s) == Add(len, Length(Skip(s, i)))
    {
      SkipSkip(s, i, 0);
      LengthStep(Skip(s, i));
      var n := CharLength(s[i]);
      if n.None? {
        return None;
      }
      SkipSkip(s, i, n.value);
      i := i + n.value;
      len := len + 1;
    }
    assert Skip(s, i) == [] && Length([]) == Some(0) by {
      LengthOfNothing();
    }
    return Some(len);
  }

  // ---------------------------------------------------------------- the encoding

  /** Unicode scalar values: code points other than the surrogates. */
  predicate IsScalar(c: bv32) {
    c <= 0x10FFFF && !(0xD800 <= c <= 0xDFFF)
  }

  /** The octets of one scalar value, as bits. */
  function Pattern(c: bv32): (s: seq<bv8>)
    requires IsScalar(c)
    ensures 1 <= |s| <= 4
  {
    if c < 0x80 then [c as bv8]
    else if c < 0x800 then [(0xC0 | (c >> 6)) as bv8, Tail(c)]
    else if c < 0x1_0000 then [(0xE0 | (c >> 12)) as bv8, Tail(c >> 6), Tail(c)]
    else [(0xF0 | (c >> 18)) as bv8, Tail(c >> 12), Tail(c >> 6), Tail(c)]
  }

  function Tail(c: bv32): bv8 { (0x80 | (c & 0x3F)) as bv8 }

  function Encode(c: bv32): (s: seq<Byte>)
    requires IsScalar(c)
    ensures |s| == |Pattern(c)|
  {
    seq(|Pattern(c)|, i requires 0 <= i < |Pattern(c)| => Octet(Pattern(c)[i]))
  }

  function EncodeAll(cs: seq<bv32>): seq<Byte>
    requires forall c | c in cs :: IsScalar(c)
  {
    if cs == [] then [] else Encode(cs[0]) + EncodeAll(cs[1..])
  }

  /** The first octet of an encoded character announces exactly its length. */
  lemma LeadAnnouncesLength(c: bv32)
    requires IsScalar(c)
    ensures CharLength(Encode(c)[0]) == Some(|Encode(c)|)
  {
    BitsOfOctet(Pattern(c)[0]);
    hide Bits;
    hide Octet;
  }

  /** Counting encoded text and then anything else adds up, errors included. */
  lemma {:induction false} LengthOfEncoding(cs: seq<bv32>, rest: seq<Byte>)
    requires forall c | c in cs :: IsScalar(c)
    ensures Length(EncodeAll(cs) + rest) == Add(|cs|, Length(rest))
  {
    hide Encode;
    hide CharLength;
    hide IsScalar;
    hide Length;
    if cs == [] {
      assert EncodeAll(cs) + rest == rest;
    } else {
      var e, tail := Encode(cs[0]), EncodeAll(cs[1..]) + rest;
      var s := EncodeAll(cs) + rest;
      assert s == e + tail && s[0] == e[0];
      LeadAnnouncesLength(cs[0]);
      LengthStep(s);
      LengthOfEncoding(cs[1..], rest);
      assert Skip(s, |e|) == tail;
    }
  }

  /** In particular the text of n scalar values has length n. */
  lemma LengthCountsScalars(cs: seq<bv32>)
    requires forall c | c in cs :: IsScalar(c)
    ensures Length(EncodeAll(cs)) == Some(|cs|)
  {
    LengthOfEncoding(cs, []);
    assert EncodeAll(cs) + [] == EncodeAll(cs);
  }

  // ---------------------------------------------------------------- every input

  lemma AnnouncedByRange(x: bv8)
    ensures Announced(x)
         == if x < 0x80 then Some(1)
            else if x < 0xC0 then None
            else if x < 0xE0 then Some(2)
            else if x < 0xF0 then Some(3)
            else if x < 0xF8 then Some(4)
            else None
  {
  }

  /** What each octet announces; where the code throws, None. */
  function LeadLength(b: Byte): Option<nat> {
    if b < 0x80 then Some(1)
    else if b < 0xC0 then None
    else if b < 0xE0 then Some(2)
    else if b < 0xF0 then Some(3)
    else if b < 0xF8 then Some(4)
    else None
  }

  lemma CharLengthByRange(b: Byte)
    ensures CharLength(b) == LeadLength(b)
  {
    var x := OctetBits(b);
    BitsOfOctet(x);
    AnnouncedByRange(x);
    hide Announced;
  }

  /** ps visits first octets of characters: each one's length after the one before. */
  ghost predicate Walks(s: seq<Byte>, ps: seq<nat>) {
    && ps != []
    && forall k | 0 <= k < |ps| - 1 ::
         ps[k] < |s| && LeadLength(s[ps[k]]).Some? && ps[k + 1] == ps[k] + LeadLength(s[ps[k]]).value
  }

  lemma LengthFrom(s: seq<Byte>, i: nat)
    requires i < |s|
    ensures LeadLength(s[i]).None? ==> Length(Skip(s, i)) == None
    ensures LeadLength(s[i]).Some? ==> Length(Skip(s, i)) == Add(1, Length(Skip(s, i + LeadLength(s[i]).value)))
  {
    CharLengthByRange(s[i]);
    SkipSkip(s, i, 0);
    LengthStep(Skip(s, i));
    hide CharLength;
    hide LeadLength;
    hide Length;
    if CharLength(s[i]).Some? {
      SkipSkip(s, i, CharLength(s[i]).value);
    }
  }

  lemma LengthAtEnd(s: seq<Byte>, i: nat)
    requires i >= |s|
    ensures Length(Skip(s, i)) == Some(0)
  {
  }

  /** The walk the count makes: it ends at or behind the end, or at an octet that is no first octet. */
  lemma {:induction false} WalkOf(s: seq<Byte>, i: nat) returns (ps: seq<nat>)
    ensures Walks(s, ps) && ps[0] == i
    ensures var last := ps[|ps| - 1]; last >= |s| || LeadLength(s[last]).None?
    decreases |s| - i
  {
    if i >= |s| || LeadLength(s[i]).None? {
      ps := [i];
    } else {
      var rest := WalkOf(s, i + LeadLength(s[i]).value);
      ps := [i] + rest;
    }
  }

  lemma {:induction false} WalkCounts(s: seq<Byte>, ps: seq<nat>)
    requires Walks(s, ps)
    requires var last := ps[|ps| - 1]; last >= |s| || LeadLength(s[last]).None?
    ensures Length(Skip(s, ps[0])) == if ps[|ps| - 1] >= |s| then Some(|ps| - 1) else None
  {
    hide LeadLength;
    hide Length;
    hide Skip;
    if ps[0] >= |s| {
      LengthAtEnd(s, ps[0]);
    } else {
      LengthFrom(s, ps[0]);
      if |ps| > 1 {
        assert LeadLength(s[ps[0]]).Some? && ps[1] == ps[0] + LeadLength(s[ps[0]]).value;
        forall k | 0 <= k < |ps[1..]| - 1
          ensures ps[1..][k] < |s| && LeadLength(s[ps[1..][k]]).Some? && ps[1..][k + 1] == ps[1..][k] + LeadLength(s[ps[1..][k]]).value
        {
          assert ps[1..][k] == ps[k + 1] && ps[1..][k + 1] == ps[k + 2];
        }
        WalkCounts(s, ps[1..]);
      }
    }
  }

  /**
   * On every input: n is returned if and only if n steps from one first octet to the next lead from
   * the start to the end or behind it, a character cut off included; and the code throws if and only
   * if such steps lead to an octet 0x80 .. 0xBF or 0xF8 .. 0xFF.
   */
  lemma LengthIff(s: seq<Byte>, n: nat)
    ensures Length(s) == Some(n) <==> exists ps :: Walks(s, ps) && ps[0] == 0 && ps[|ps| - 1] >= |s| && |ps| == n + 1
    ensures Length(s) == None
       <==> exists ps ::
              Walks(s, ps) && ps[0] == 0 && ps[|ps| - 1] < |s|
              && (0x80 <= s[ps[|ps| - 1]] < 0xC0 || 0xF8 <= s[ps[|ps| - 1]])
  {
    assert Skip(s, 0) == s;
    var ps := WalkOf(s, 0);
    assert forall b: Byte :: LeadLength(b).None? <==> 0x80 <= b < 0xC0 || 0xF8 <= b;
    hide LeadLength;
    hide Length;
    hide Skip;
    hide Walks;
    WalkCounts(s, ps);
    forall qs | Walks(s, qs) && qs[0] == 0 && (qs[|qs| - 1] >= |s| || LeadLength(s[qs[|qs| - 1]]).None?)
      ensures Length(s) == if qs[|qs| - 1] >= |s| then Some(|qs| - 1) else None
    {
      WalkCounts(s, qs);
    }
  }
}
