/** Unpadded base64 as Go's encoding/base64 does it, over any alphabet. */
module Base64 {
  import opened Bytes
  import opened Wrappers

  type sextet = v: int | 0 <= v < 64

  /** The sextets of three bytes. */
  function Sextet0(b0: byte): sextet { b0 / 4 }

  function Sextet1(b0: byte, b1: byte): sextet { b0 % 4 * 16 + b1 / 16 }

  function Sextet2(b1: byte, b2: byte): sextet { b1 % 16 * 4 + b2 / 64 }

  function Sextet3(b2: byte): sextet { b2 % 64 }

  /** The bytes of four sextets. */
  function Byte0(v0: sextet, v1: sextet): byte { v0 as int * 4 + v1 / 16 }

  function Byte1(v1: sextet, v2: sextet): byte { v1 as int % 16 * 16 + v2 / 4 }

  function Byte2(v2: sextet, v3: sextet): byte { v2 as int % 4 * 64 + v3 }

  lemma FirstRegroups(b0: byte, b1: byte)
    ensures Byte0(Sextet0(b0), Sextet1(b0, b1)) == b0
  {
  }

  lemma SecondRegroups(b0: byte, b1: byte, b2: byte)
    ensures Byte1(Sextet1(b0, b1), Sextet2(b1, b2)) == b1
  {
    assert Sextet1(b0, b1) % 16 == b1 / 16;
    assert Sextet2(b1, b2) / 4 == b1 % 16;
  }

  /** Three bytes are put together from four sextets. */
  lemma Regroups(b0: byte, b1: byte, b2: byte)
    ensures Byte0(Sextet0(b0), Sextet1(b0, b1)) == b0
    ensures Byte1(Sextet1(b0, b1), Sextet2(b1, b2)) == b1
    ensures Byte2(Sextet2(b1, b2), Sextet3(b2)) == b2
  {
    FirstRegroups(b0, b1);
    SecondRegroups(b0, b1, b2);
  }

  /** Four sextets are put together from three bytes. */
  lemma Sextets(v0: sextet, v1: sextet, v2: sextet, v3: sextet)
    ensures Sextet0(Byte0(v0, v1)) == v0
    ensures Sextet1(Byte0(v0, v1), Byte1(v1, v2)) == v1
    ensures Sextet2(Byte1(v1, v2), Byte2(v2, v3)) == v2
    ensures Sextet3(Byte2(v2, v3)) == v3
  {
  }

  lemma NoSpare(b0: byte, b1: byte)
    ensures Sextet1(b0, 0) % 16 == 0 && Sextet2(b1, 0) % 4 == 0
  {
  }

  lemma TwoSextets(v0: sextet, v1: sextet)
    requires v1 % 16 == 0
    ensures Sextet0(Byte0(v0, v1)) == v0 && Sextet1(Byte0(v0, v1), 0) == v1
  {
  }

  lemma ThreeSextets(v0: sextet, v1: sextet, v2: sextet)
    requires v2 % 4 == 0
    ensures Sextet0(Byte0(v0, v1)) == v0 && Sextet1(Byte0(v0, v1), Byte1(v1, v2)) == v1
            && Sextet2(Byte1(v1, v2), 0) == v2
  {
  }

  predicate LineBreak(c: byte) { c == 10 || c == 13 }

  /** Line breaks are skipped wherever they stand. */
  function Significant(s: seq<byte>): (r: seq<byte>)
    ensures |r| <= |s|
  {
    if s == [] then []
    else if LineBreak(s[0]) then Significant(s[1..])
    else [s[0]] + Significant(s[1..])
  }

  /** An alphabet and the values of its letters. */
  datatype Encoding = Encoding(letter: sextet -> byte, value: byte -> Option<sextet>)
  {
    ghost predicate Valid()
    {
      && (forall v: sextet :: value(letter(v)) == Some(v))
      && (forall c: byte :: value(c).Some? ==> letter(value(c).value) == c && !LineBreak(c))
    }

    predicate Letters(s: seq<byte>) { forall i :: 0 <= i < |s| ==> value(s[i]).Some? }

    function Group(b0: byte, b1: byte, b2: byte): (g: seq<byte>)
      ensures |g| == 4
    {
      [letter(Sextet0(b0)), letter(Sextet1(b0, b1)), letter(Sextet2(b1, b2)), letter(Sextet3(b2))]
    }

    /** Encoding.EncodeToString. */
    function Encode(b: seq<byte>): (s: seq<byte>)
      ensures |s| == (|b| * 4 + 2) / 3
    {
      if b == [] then []
      else if |b| == 1 then [letter(Sextet0(b[0])), letter(Sextet1(b[0], 0))]
      else if |b| == 2 then [letter(Sextet0(b[0])), letter(Sextet1(b[0], b[1])), letter(Sextet2(b[1], 0))]
      else Group(b[0], b[1], b[2]) + Encode(b[3..])
    }

    /** The bytes of groups of four letters and a shorter last one, whose spare bits are not looked at. */
    function Groups(s: seq<byte>): Option<seq<byte>>
    {
      if s == [] then Some([])
      else if |s| == 1 then None
      else
        match (value(s[0]), value(s[1]))
        case (Some(v0), Some(v1)) =>
          if |s| == 2 then Some([Byte0(v0, v1)])
          else
            (match value(s[2])
             case None => None
             case Some(v2) =>
               if |s| == 3 then Some([Byte0(v0, v1), Byte1(v1, v2)])
               else
                 match (value(s[3]), Groups(s[4..]))
                 case (Some(v3), Some(more)) => Some([Byte0(v0, v1), Byte1(v1, v2), Byte2(v2, v3)] + more)
                 case _ => None)
        case _ => None
    }

    /** Encoding.DecodeString. */
    function Decode(s: seq<byte>): Option<seq<byte>> { Groups(Significant(s)) }

    /** No line breaks, no lone letter, and zeros in the spare bits. */
    predicate Canonical(s: seq<byte>)
    {
      && Letters(s)
      && match |s| % 4
         case 0 => true
         case 1 => false
         case 2 => value(s[|s| - 1]).value % 16 == 0
         case _ => value(s[|s| - 1]).value % 4 == 0
    }

    lemma {:induction false} AllSignificant(s: seq<byte>)
      requires Valid() && Letters(s)
      ensures Significant(s) == s
    {
      if s != [] {
        AllSignificant(s[1..]);
      }
    }

    lemma {:induction false} GroupsUndoEncode(b: seq<byte>)
      requires Valid()
      ensures Groups(Encode(b)) == Some(b)
      decreases |b|
    {
      if b == [] {
      } else if |b| == 1 {
        OneUndone(b);
      } else if |b| == 2 {
        TwoUndone(b);
      } else {
        GroupsUndoEncode(b[3..]);
        GroupUndone(b[0], b[1], b[2], Encode(b[3..]));
        assert b == [b[0], b[1], b[2]] + b[3..];
      }
    }

    lemma OneUndone(b: seq<byte>)
      requires Valid() && |b| == 1
      ensures Groups(Encode(b)) == Some(b)
    {
      var b0 := b[0];
      assert b == [b0] && Encode(b) == [letter(Sextet0(b0)), letter(Sextet1(b0, 0))];
      FirstRegroups(b0, 0);
      TwoLetters(Sextet0(b0), Sextet1(b0, 0));
    }

    lemma TwoUndone(b: seq<byte>)
      requires Valid() && |b| == 2
      ensures Groups(Encode(b)) == Some(b)
    {
      var b0, b1 := b[0], b[1];
      assert b == [b0, b1] && Encode(b) == [letter(Sextet0(b0)), letter(Sextet1(b0, b1)), letter(Sextet2(b1, 0))];
      FirstRegroups(b0, b1);
      SecondRegroups(b0, b1, 0);
      ThreeLetters(Sextet0(b0), Sextet1(b0, b1), Sextet2(b1, 0));
    }

    lemma GroupUndone(b0: byte, b1: byte, b2: byte, rest: seq<byte>)
      requires Valid() && Groups(rest).Some?
      ensures Groups(Group(b0, b1, b2) + rest) == Some([b0, b1, b2] + Groups(rest).value)
    {
      var l := Group(b0, b1, b2);
      assert value(l[0]) == Some(Sextet0(b0)) && value(l[1]) == Some(Sextet1(b0, b1));
      assert value(l[2]) == Some(Sextet2(b1, b2)) && value(l[3]) == Some(Sextet3(b2));
      FirstGroup(l, rest);
      Regroups(b0, b1, b2);
    }

    lemma TwoLetters(v0: sextet, v1: sextet)
      requires Valid()
      ensures Groups([letter(v0), letter(v1)]) == Some([Byte0(v0, v1)])
    {
    }

    lemma ThreeLetters(v0: sextet, v1: sextet, v2: sextet)
      requires Valid()
      ensures Groups([letter(v0), letter(v1), letter(v2)]) == Some([Byte0(v0, v1), Byte1(v1, v2)])
    {
    }

    lemma FirstGroup(l: seq<byte>, rest: seq<byte>)
      requires |l| == 4 && Letters(l) && Groups(rest).Some?
      ensures var v0, v1, v2, v3 := value(l[0]).value, value(l[1]).value, value(l[2]).value, value(l[3]).value;
              Groups(l + rest) == Some([Byte0(v0, v1), Byte1(v1, v2), Byte2(v2, v3)] + Groups(rest).value)
    {
      assert (l + rest)[4..] == rest;
    }

    lemma {:induction false} EncodesLetters(b: seq<byte>)
      requires Valid()
      ensures Letters(Encode(b))
      decreases |b|
    {
      if |b| >= 3 {
        EncodesLetters(b[3..]);
      }
    }

    /** Decoding undoes encoding, for every length modulo 3. */
    lemma DecodeUndoesEncode(b: seq<byte>)
      requires Valid()
      ensures Decode(Encode(b)) == Some(b)
    {
      EncodesLetters(b);
      AllSignificant(Encode(b));
      GroupsUndoEncode(b);
    }

    lemma {:induction false} EncodesCanonical(b: seq<byte>)
      requires Valid()
      ensures Canonical(Encode(b))
      decreases |b|
    {
      if |b| >= 3 {
        EncodesCanonical(b[3..]);
        CanonicalGroup(Group(b[0], b[1], b[2]), Encode(b[3..]));
        assert Letters(Group(b[0], b[1], b[2]));
      } else if |b| == 2 {
        TwoCanonical(b);
      } else if |b| == 1 {
        OneCanonical(b);
      }
    }

    lemma CanonicalGroup(l: seq<byte>, rest: seq<byte>)
      ensures |l| == 4 && Letters(l) && Canonical(rest) ==> Canonical(l + rest)
    {
      if |l| == 4 && rest != [] {
        assert (l + rest)[|rest| + 3] == rest[|rest| - 1];
      }
    }

    lemma OneCanonical(b: seq<byte>)
      requires Valid() && |b| == 1
      ensures Canonical(Encode(b))
    {
      EncodesLetters(b);
      assert value(Encode(b)[1]) == Some(Sextet1(b[0], 0));
      NoSpare(b[0], 0);
    }

    lemma TwoCanonical(b: seq<byte>)
      requires Valid() && |b| == 2
      ensures Canonical(Encode(b))
    {
      EncodesLetters(b);
      assert value(Encode(b)[2]) == Some(Sextet2(b[1], 0));
      NoSpare(0, b[1]);
    }

    lemma {:induction false} EncodeUndoesGroups(s: seq<byte>)
      requires Valid() && Canonical(s)
      ensures Groups(s).Some? && Encode(Groups(s).value) == s
      decreases |s|
    {
      if |s| >= 4 {
        assert |s| > 4 ==> s[4..][|s| - 5] == s[|s| - 1];
        EncodeUndoesGroups(s[4..]);
        GroupRemade(s[..4], s[4..]);
        assert s == s[..4] + s[4..];
      } else if |s| == 3 {
        ThreeRemade(value(s[0]).value, value(s[1]).value, value(s[2]).value);
        assert s == [s[0], s[1], s[2]];
      } else if |s| == 2 {
        TwoRemade(value(s[0]).value, value(s[1]).value);
        assert s == [s[0], s[1]];
      }
    }

    lemma GroupRemade(l: seq<byte>, rest: seq<byte>)
      requires Valid() && |l| == 4 && Letters(l) && Groups(rest).Some?
      ensures Groups(l + rest).Some? && Encode(Groups(l + rest).value) == l + Encode(Groups(rest).value)
    {
      var v0, v1, v2, v3 := value(l[0]).value, value(l[1]).value, value(l[2]).value, value(l[3]).value;
      FirstGroup(l, rest);
      EncodesGroup(Byte0(v0, v1), Byte1(v1, v2), Byte2(v2, v3), Groups(rest).value);
      Sextets(v0, v1, v2, v3);
      assert l == [letter(v0), letter(v1), letter(v2), letter(v3)];
    }

    lemma EncodesGroup(b0: byte, b1: byte, b2: byte, rest: seq<byte>)
      ensures Encode([b0, b1, b2] + rest) == Group(b0, b1, b2) + Encode(rest)
    {
      assert ([b0, b1, b2] + rest)[3..] == rest;
    }

    lemma TwoRemade(v0: sextet, v1: sextet)
      requires Valid() && v1 % 16 == 0
      ensures var s := [letter(v0), letter(v1)]; Groups(s).Some? && Encode(Groups(s).value) == s
    {
      TwoLetters(v0, v1);
      TwoSextets(v0, v1);
    }

    lemma ThreeRemade(v0: sextet, v1: sextet, v2: sextet)
      requires Valid() && v2 % 4 == 0
      ensures var s := [letter(v0), letter(v1), letter(v2)]; Groups(s).Some? && Encode(Groups(s).value) == s
    {
      ThreeLetters(v0, v1, v2);
      ThreeSextets(v0, v1, v2);
    }

    /** Encoding undoes decoding exactly on the canonical texts: what decoding forgets is line breaks and spare bits. */
    lemma EncodeUndoesDecodeExactly(s: seq<byte>)
      requires Valid()
      ensures Canonical(s) <==> Decode(s).Some? && Encode(Decode(s).value) == s
    {
      if Canonical(s) {
        AllSignificant(s);
        EncodeUndoesGroups(s);
      }
      if Decode(s).Some? && Encode(Decode(s).value) == s {
        EncodesCanonical(Decode(s).value);
      }
    }
  }
}
