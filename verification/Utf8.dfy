/** UTF-8 as Go's unicode/utf8 decodes it: sections 3 and 4 of RFC 3629, with an error rune per bad byte. */
module Utf8 {
  import opened Bytes

  const RUNE_ERROR := 0xFFFD
  const UTF_MAX := 4

  /** The length of the sequence a byte starts, or 0 when none starts with it. */
  function SizeOf(b: byte): nat
  {
    if b < 0x80 then 1
    else if 0xC2 <= b < 0xE0 then 2
    else if 0xE0 <= b < 0xF0 then 3
    else if 0xF0 <= b < 0xF5 then 4
    else 0
  }

  /** The second bytes that may follow a first one exclude overlong forms, surrogates and large values. */
  predicate SecondOk(first: byte, b: byte)
  {
    if first == 0xE0 then 0xA0 <= b < 0xC0
    else if first == 0xED then 0x80 <= b < 0xA0
    else if first == 0xF0 then 0x90 <= b < 0xC0
    else if first == 0xF4 then 0x80 <= b < 0x90
    else 0x80 <= b < 0xC0
  }

  predicate Continues(b: byte) { 0x80 <= b < 0xC0 }

  /** The payload of a continuation byte. */
  function Low(b: byte): int { b as int - 0x80 }

  /** A whole valid sequence starts the bytes. */
  predicate Complete(s: seq<byte>)
    requires s != []
  {
    var n := SizeOf(s[0]);
    && 0 < n <= |s|
    && (n > 1 ==> SecondOk(s[0], s[1]))
    && (n > 2 ==> Continues(s[2]))
    && (n > 3 ==> Continues(s[3]))
  }

  /** utf8.DecodeRune: the first rune and its width; an error rune has width 1. */
  function Decode(s: seq<byte>): (r: (int, nat))
    requires s != []
    ensures 1 <= r.1 <= |s| && 0 <= r.0 <= 0x10FFFF
  {
    if !Complete(s) then (RUNE_ERROR, 1)
    else
      var n := SizeOf(s[0]);
      if n == 1 then (s[0], 1)
      else if n == 2 then ((s[0] as int - 0xC0) * 64 + Low(s[1]), 2)
      else if n == 3 then ((s[0] as int - 0xE0) * 4096 + Low(s[1]) * 64 + Low(s[2]), 3)
      else ((s[0] as int - 0xF0) * 262144 + Low(s[1]) * 4096 + Low(s[2]) * 64 + Low(s[3]), 4)
  }

  function Runes(s: seq<byte>): (r: seq<int>)
    ensures |r| <= |s|
  {
    if s == [] then [] else [Decode(s).0] + Runes(s[Decode(s).1..])
  }

  predicate Scalar(r: int) { 0 <= r < 0xD800 || 0xE000 <= r <= 0x10FFFF }

  function Encode(r: int): (s: seq<byte>)
    requires Scalar(r)
    ensures 1 <= |s| <= UTF_MAX
  {
    if r < 0x80 then [r]
    else if r < 0x800 then [0xC0 + r / 64, 0x80 + r % 64]
    else if r < 0x1_0000 then [0xE0 + r / 4096, 0x80 + r / 64 % 64, 0x80 + r % 64]
    else [0xF0 + r / 262144, 0x80 + r / 4096 % 64, 0x80 + r / 64 % 64, 0x80 + r % 64]
  }

  predicate Scalars(rs: seq<int>) { forall i :: 0 <= i < |rs| ==> Scalar(rs[i]) }

  function EncodeAll(rs: seq<int>): seq<byte>
    requires Scalars(rs)
  {
    if rs == [] then [] else Encode(rs[0]) + EncodeAll(rs[1..])
  }

  /** A sequence decodes the same whatever follows it. */
  lemma DecodeFirst(s: seq<byte>, rest: seq<byte>)
    requires s != [] && Complete(s) && SizeOf(s[0]) == |s|
    ensures Decode(s + rest) == Decode(s) && Decode(s).1 == |s|
  {
    assert forall i :: 0 <= i < |s| ==> (s + rest)[i] == s[i];
  }

  lemma DecodeEncodeTwo(r: int)
    requires 0x80 <= r < 0x800
    ensures Complete(Encode(r)) && SizeOf(Encode(r)[0]) == 2 && Decode(Encode(r)).0 == r
  {
  }

  lemma DecodeEncodeThree(r: int)
    requires 0x800 <= r < 0x1_0000 && Scalar(r)
    ensures Complete(Encode(r)) && SizeOf(Encode(r)[0]) == 3 && Decode(Encode(r)).0 == r
  {
    SixBits(r);
    var a, b := r / 4096, r / 64 % 64;
    assert a <= 15 && r / 262144 == 0 && r / 4096 % 64 == a;
    assert a == 0 ==> b >= 32;
    assert a == 13 ==> b < 32;
  }

  lemma DecodeEncodeFour(r: int)
    requires 0x1_0000 <= r && Scalar(r)
    ensures Complete(Encode(r)) && SizeOf(Encode(r)[0]) == 4 && Decode(Encode(r)).0 == r
  {
    SixBits(r);
    var a, b := r / 262144, r / 4096 % 64;
    assert a == 0 ==> b >= 16;
    assert a == 4 ==> b < 16;
    assert a <= 4;
  }

  /** A rune is put together from its groups of six bits. */
  lemma SixBits(r: int)
    requires 0 <= r
    ensures r == r / 262144 * 262144 + r / 4096 % 64 * 4096 + r / 64 % 64 * 64 + r % 64
  {
    var a := r / 64;
    var b := a / 64;
    TwiceBySixtyFour(r);
    assert r == a * 64 + r % 64 && a == b * 64 + a % 64 && b == b / 64 * 64 + b % 64;
  }

  lemma TwiceBySixtyFour(r: int)
    requires 0 <= r
    ensures r / 4096 == r / 64 / 64 && r / 262144 == r / 64 / 64 / 64
  {
  }

  lemma EncodeComplete(r: int)
    requires Scalar(r)
    ensures Complete(Encode(r)) && SizeOf(Encode(r)[0]) == |Encode(r)| && Decode(Encode(r)).0 == r
  {
    if 0x80 <= r < 0x800 {
      DecodeEncodeTwo(r);
    } else if 0x800 <= r < 0x1_0000 {
      DecodeEncodeThree(r);
    } else if 0x1_0000 <= r {
      DecodeEncodeFour(r);
    }
  }

  /** Decoding reads back a rune, whatever follows it. */
  lemma DecodeEncode(r: int, rest: seq<byte>)
    requires Scalar(r)
    ensures Decode(Encode(r) + rest) == (r, |Encode(r)|)
  {
    EncodeComplete(r);
    DecodeFirst(Encode(r), rest);
  }

  lemma {:induction false} RunesEncodeAll(rs: seq<int>, rest: seq<byte>)
    requires Scalars(rs)
    ensures Runes(EncodeAll(rs) + rest) == rs + Runes(rest)
  {
    if rs == [] {
      assert EncodeAll(rs) + rest == rest;
    } else {
      RunesEncodeAll(rs[1..], rest);
      RunesFirst(rs[0], EncodeAll(rs[1..]) + rest);
      EncodeAllFirst(rs, rest);
      HeadFirst(rs, Runes(rest));
    }
  }

  lemma HeadFirst(rs: seq<int>, t: seq<int>)
    requires rs != []
    ensures [rs[0]] + (rs[1..] + t) == rs + t
  {
  }

  lemma EncodeAllFirst(rs: seq<int>, rest: seq<byte>)
    requires Scalars(rs) && rs != []
    ensures EncodeAll(rs) + rest == Encode(rs[0]) + (EncodeAll(rs[1..]) + rest)
  {
  }

  lemma RunesFirst(r: int, after: seq<byte>)
    requires Scalar(r)
    ensures Runes(Encode(r) + after) == [r] + Runes(after)
  {
    DecodeEncode(r, after);
    assert (Encode(r) + after)[|Encode(r)|..] == after;
  }

  /** A rune cut short decodes to one error rune per byte that is left of it. */
  lemma CutRune(r: int, k: nat)
    requires Scalar(r) && k < |Encode(r)|
    ensures |Runes(Encode(r)[..k])| == k <= 3
    ensures forall i :: 0 <= i < k ==> Runes(Encode(r)[..k])[i] == RUNE_ERROR
  {
    var s := Encode(r)[..k];
    if k > 0 {
      assert !Complete(s);
      Stragglers(s[1..]);
    }
  }

  lemma {:induction false} Stragglers(s: seq<byte>)
    requires forall i :: 0 <= i < |s| ==> Continues(s[i])
    ensures |Runes(s)| == |s|
    ensures forall i :: 0 <= i < |s| ==> Runes(s)[i] == RUNE_ERROR
  {
    if s != [] {
      assert Continues(s[0]) && !Complete(s);
      Stragglers(s[1..]);
    }
  }
}
