/** The rune reader and the scanning loops that the JSON and the HCL lexer share. */
module Lexer {
  import opened Bytes
  import opened LexRules
  import opened Utf8

  /** The classes of package unicode, which are only known on ASCII. */
  datatype Classes = Classes(space: int -> bool, letter: int -> bool, digit: int -> bool)
  {
    ghost predicate Ascii()
    {
      forall c :: 0 <= c < 128 ==>
        && (space(c) <==> 9 <= c <= 13 || c == 32)
        && (letter(c) <==> 65 <= c <= 90 || 97 <= c <= 122)
        && (digit(c) <==> IsDigit(c))
    }

    predicate JsonWord(c: int) { digit(c) || letter(c) || c == UNDERSCORE || c == DASH }

    predicate HclWord(c: int) { JsonWord(c) || c == DOT }
  }

  class Reader {
    const Input: seq<byte>
    const classes: Classes
    var pos: int
    var width: int
    var failed: bool

    constructor (input: seq<byte>, cls: Classes)
      ensures Input == input && classes == cls && pos == 0 && !failed && Valid()
    {
      Input, classes := input, cls;
      pos, width, failed := 0, 0, false;
    }

    ghost predicate Valid()
      reads this
    {
      0 <= pos <= |Input|
    }

    /** The runes still to be read. */
    ghost function Rest(): RuneSeq
      requires Valid()
      reads this
    {
      Runes(Input[pos..])
    }

    /** The last width bytes before the position are one rune, if there are any. */
    ghost predicate AfterRune()
      reads this
    {
      0 <= width <= pos <= |Input| && (width > 0 ==> Decode(Input[pos - width..]).1 == width)
    }

    ghost function LastRune(): RuneSeq
      requires AfterRune()
      reads this
    {
      if width == 0 then [] else [Decode(Input[pos - width..]).0]
    }

    /** Reads the next rune, or 0 at the end. */
    method Next() returns (c: int)
      requires Valid()
      modifies this`pos, this`width
      ensures Valid() && pos == old(pos) + width && width >= 0
      ensures AfterRune() && LastRune() == if old(Rest()) == [] then [] else [c]
      ensures if old(Rest()) == [] then c == 0 && width == 0 && Rest() == []
              else c == old(Rest())[0] && width > 0 && Rest() == old(Rest())[1..]
    {
      if pos >= |Input| {
        width := 0;
        return 0;
      }
      var d := Decode(Input[pos..]);
      assert Input[pos..][d.1..] == Input[pos + d.1..];
      c, width := d.0, d.1;
      pos := pos + width;
    }

    /** Steps back over the rune read last, which is again the next one. */
    method Backup()
      requires Valid() && 0 <= width <= pos
      modifies this`pos
      ensures Valid() && pos == old(pos) - width
      ensures old(AfterRune()) ==> Rest() == old(LastRune()) + old(Rest())
    {
      pos := pos - width;
      assert Input[pos..][width..] == Input[pos + width..];
    }

    method Peek() returns (c: int)
      requires Valid()
      modifies this`pos, this`width
      ensures pos == old(pos) && c == if Rest() == [] then 0 else Rest()[0]
    {
      c := Next();
      Backup();
    }

    /** The body of a JSON string. */
    method JsonStringBody() returns (text: RuneSeq)
      requires Valid()
      modifies this`pos, this`width
      ensures Valid() && pos >= old(pos)
      ensures JsonString(old(Rest()), []) == Span(text, Rest())
    {
      text := [];
      while true
        invariant Valid() && pos >= old(pos)
        invariant JsonString(old(Rest()), []) == JsonString(Rest(), text)
        decreases |Rest()|
      {
        var c := Next();
        if c == NUL || c == QUOTE {
          return;
        }
        if c == BACKSLASH {
          c := Escape();
        }
        text := text + [c];
      }
    }

    /** After a backslash: resolves a known escape, or leaves the rune after it alone. */
    method Escape() returns (c: int)
      requires Valid()
      modifies this`pos, this`width
      ensures Valid() && pos >= old(pos)
      ensures if old(Rest()) != [] && Escaped(old(Rest())[0]) >= 0
              then c == Escaped(old(Rest())[0]) && Rest() == old(Rest())[1..]
              else c == BACKSLASH && pos == old(pos)
    {
      c := BACKSLASH;
      var n := Next();
      if n == QUOTE {
        c := n;
      } else if n == LOWER_N {
        c := NEWLINE;
      } else if n == BACKSLASH {
        c := n;
      } else {
        Backup();
      }
    }

    /** The body of an HCL string; ok is false when a newline breaks it. */
    method HclStringBody() returns (text: RuneSeq, ok: bool)
      requires Valid()
      modifies this`pos, this`width, this`failed
      ensures Valid() && pos >= old(pos)
      ensures HclString(old(Rest()), 0, []) == if ok then Closed(text, Rest()) else Broken(Rest())
      ensures failed == (old(failed) || !ok)
    {
      text, ok := [], true;
      var braces: nat := 0;
      while true
        invariant Valid() && pos >= old(pos) && failed == old(failed)
        invariant HclString(old(Rest()), 0, []) == HclString(Rest(), braces, text)
        decreases |Rest()|
      {
        var c := Next();
        if c == NUL || (c == QUOTE && braces == 0) {
          return;
        }
        if c == NEWLINE {
          failed := true;
          return text, false;
        }
        if c == BACKSLASH {
          c := Escape();
        }
        var piece;
        piece, braces := BracePiece(c, braces);
        text := text + piece;
      }
    }

    /** Tracks the braces of interpolations. */
    method BracePiece(c0: int, braces0: nat) returns (piece: RuneSeq, braces: nat)
      requires Valid()
      modifies this`pos, this`width
      ensures Valid() && pos >= old(pos)
      ensures Brace(c0, braces0, old(Rest())) == Braced(piece, braces, Rest())
    {
      var c := c0;
      piece, braces := [], braces0;
      if braces == 0 && c == DOLLAR {
        var p := Peek();
        if p == LEFT_BRACE {
          braces := braces + 1;
          piece := piece + [c];
          c := Next();
          return piece + [c], braces;
        }
      } else if braces > 0 && c == LEFT_BRACE {
        braces := braces + 1;
      }
      if braces > 0 && c == RIGHT_BRACE {
        braces := braces - 1;
      }
      piece := piece + [c];
    }

    /** A number: its text, and whether it has a period. */
    method NumberText() returns (text: RuneSeq, gotPeriod: bool)
      requires Valid()
      modifies this`pos, this`width
      ensures Valid() && pos >= old(pos)
      ensures NumberSpan(old(Rest()), false, []) == Number(text, gotPeriod, Rest())
      ensures old(Rest()) != [] && IsDigit(old(Rest())[0]) ==> pos > old(pos)
    {
      text, gotPeriod := [], false;
      while true
        invariant Valid() && pos >= old(pos)
        invariant NumberSpan(old(Rest()), false, []) == NumberSpan(Rest(), gotPeriod, text)
        invariant old(Rest()) != [] && IsDigit(old(Rest())[0]) ==> pos > old(pos) || (pos == old(pos) && text == [])
        decreases |Rest()|
      {
        var c := Next();
        if c == NUL {
          return;
        }
        if c == DOT {
          if gotPeriod {
            Backup();
            return;
          }
          gotPeriod := true;
        } else if !IsDigit(c) {
          Backup();
          return;
        }
        text := text + [c];
      }
    }

    /** An identifier of runes that satisfy isWord; empty if the next rune does not. */
    method WordText(isWord: int -> bool) returns (text: RuneSeq)
      requires Valid()
      modifies this`pos, this`width
      ensures Valid() && pos >= old(pos) && (text != [] ==> pos > old(pos))
      ensures Word(old(Rest()), isWord, []) == Span(text, Rest())
    {
      text := [];
      while true
        invariant Valid() && pos >= old(pos) && (text != [] ==> pos > old(pos))
        invariant Word(old(Rest()), isWord, []) == Word(Rest(), isWord, text)
        decreases |Rest()|
      {
        var c := Next();
        if c == NUL {
          return;
        }
        if !isWord(c) {
          Backup();
          return;
        }
        text := text + [c];
      }
    }

    /** A comment whose first rune has been read. */
    method ConsumeComment(first: int) returns (ok: bool)
      requires Valid()
      modifies this`pos, this`width, this`failed
      ensures Valid() && pos >= old(pos)
      ensures SkipComment(first, old(Rest())) == if ok then After(Rest()) else Malformed(Rest())
      ensures failed == (old(failed) || !ok)
    {
      var single := first == HASH;
      if !single {
        var c := Next();
        if c != SLASH && c != STAR {
          Backup();
          failed := true;
          return false;
        }
        single := c == SLASH;
      }
      if single {
        ConsumeLine();
        return true;
      }
      ok := ConsumeBlock();
    }

    method ConsumeLine()
      requires Valid()
      modifies this`pos, this`width
      ensures Valid() && pos >= old(pos) && LineComment(old(Rest())) == Rest()
    {
      while true
        invariant Valid() && pos >= old(pos) && LineComment(old(Rest())) == LineComment(Rest())
        decreases |Rest()|
      {
        var c := Next();
        if c == NUL {
          Backup();
          return;
        }
        if c == NEWLINE {
          return;
        }
      }
    }

    method ConsumeBlock() returns (ok: bool)
      requires Valid()
      modifies this`pos, this`width, this`failed
      ensures Valid() && pos >= old(pos)
      ensures BlockComment(old(Rest())) == if ok then After(Rest()) else Malformed(Rest())
      ensures failed == (old(failed) || !ok)
    {
      while true
        invariant Valid() && pos >= old(pos) && failed == old(failed)
        invariant BlockComment(old(Rest())) == BlockComment(Rest())
        decreases |Rest()|
      {
        var c := Next();
        if c == NUL {
          Backup();
          failed := true;
          return false;
        }
        if c == SLASH {
          var nested := SkipIf(STAR);
        } else if c == STAR {
          var closed := SkipIf(SLASH);
          if closed {
            return true;
          }
        }
      }
    }

    /** Reads the next rune if it is c. */
    method SkipIf(c: int) returns (found: bool)
      requires Valid() && c != NUL
      modifies this`pos, this`width
      ensures Valid() && pos >= old(pos)
      ensures found <==> old(Rest()) != [] && old(Rest())[0] == c
      ensures if found then Rest() == old(Rest())[1..] else pos == old(pos)
    {
      var n := Next();
      found := n == c;
      if !found {
        Backup();
      }
    }

    /** A heredoc whose first less-than sign has been read; ok is false when it yields no string. */
    method HeredocText() returns (text: RuneSeq, ok: bool)
      requires Valid()
      modifies this`pos, this`width, this`failed
      ensures Valid() && pos >= old(pos)
      ensures HeredocFrom(old(Rest())).h == if ok then Body(text, Rest()) else Unfinished(Rest())
      ensures failed == (old(failed) || HeredocFrom(old(Rest())).failed)
    {
      text, ok := [], false;
      var c := Next();
      if c != LESS {
        failed := true;
        return;
      }
      var marker;
      marker, ok := MarkerText();
      if !ok {
        return;
      }
      if marker == [] {
        failed := true;
        return [], false;
      }
      text, ok := HeredocLines(marker);
    }

    method MarkerText() returns (marker: RuneSeq, ok: bool)
      requires Valid()
      modifies this`pos, this`width
      ensures Valid() && pos >= old(pos)
      ensures MarkerLine(old(Rest()), []) == if ok then Body(marker, Rest()) else Unfinished(Rest())
      ensures NUL !in marker
    {
      marker, ok := [], true;
      while true
        invariant Valid() && pos >= old(pos) && NUL !in marker
        invariant MarkerLine(old(Rest()), []) == MarkerLine(Rest(), marker)
        decreases |Rest()|
      {
        var c := Next();
        if c == NUL {
          return marker, false;
        }
        if c == NEWLINE {
          return;
        }
        marker := marker + [c];
      }
    }

    method HeredocLines(marker: RuneSeq) returns (text: RuneSeq, ok: bool)
      requires Valid() && NUL !in marker
      modifies this`pos, this`width
      ensures Valid() && pos >= old(pos)
      ensures HeredocBody(old(Rest()), marker, ByteLength(marker), true, [])
              == if ok then Body(text, Rest()) else Unfinished(Rest())
    {
      text, ok := [], true;
      var check := true;
      while true
        invariant Valid() && pos >= old(pos)
        invariant HeredocBody(old(Rest()), marker, ByteLength(marker), true, [])
                  == HeredocBody(Rest(), marker, ByteLength(marker), check, text)
        decreases |Rest()|
      {
        var cs, c := LinePiece(marker, check);
        if check && |cs| == ByteLength(marker) {
          return;
        }
        if c == NUL {
          return text, false;
        }
        text := text + (cs + [c]);
        check := c == NEWLINE;
      }
    }

    /** The runes up to the one that decides how the heredoc goes on, and that one. */
    method LinePiece(marker: RuneSeq, check: bool) returns (cs: RuneSeq, c: int)
      requires Valid() && NUL !in marker
      modifies this`pos, this`width
      ensures Valid() && pos >= old(pos)
      ensures |cs| == (if check then Common(old(Rest()), marker) else 0) <= |old(Rest())|
      ensures if |cs| == |old(Rest())| then c == 0 && Rest() == []
              else c == old(Rest())[|cs|] && Rest() == old(Rest())[|cs| + 1..] && cs + [c] == old(Rest())[..|cs| + 1]
    {
      if check {
        cs, c := MatchMarker(marker);
      } else {
        cs := [];
        c := Next();
      }
    }

    /** Rune k of rs, or 0 past its end, has been read as c, and the rest of rs is left. */
    ghost predicate Located(rs: RuneSeq, k: nat, c: int)
      requires Valid()
      reads this
    {
      k <= |rs| && if k == |rs| then c == 0 && Rest() == [] else c == rs[k] && Rest() == rs[k + 1..]
    }

    /** Next, when what is left of rs has been located. */
    method NextAt(ghost rs: RuneSeq, ghost k: nat, ghost c0: int) returns (c: int)
      requires Valid() && Located(rs, k, c0) && k < |rs|
      modifies this`pos, this`width
      ensures Valid() && pos >= old(pos) && Located(rs, k + 1, c)
    {
      assert k + 1 < |rs| ==> rs[k + 1..][1..] == rs[k + 2..];
      c := Next();
    }

    /** Reads what the input has in common with the marker, and the rune after that. */
    method MatchMarker(marker: RuneSeq) returns (cs: RuneSeq, c: int)
      requires Valid() && NUL !in marker
      modifies this`pos, this`width
      ensures Valid() && pos >= old(pos)
      ensures |cs| == Common(old(Rest()), marker) && cs == old(Rest())[..|cs|]
      ensures Located(old(Rest()), |cs|, c)
    {
      ghost var rs := Rest();
      cs := [];
      c := Next();
      while |cs| < |marker| && marker[|cs|] == c
        invariant Valid() && pos >= old(pos) && |cs| <= |marker|
        invariant Located(rs, |cs|, c)
        invariant forall i :: 0 <= i < |cs| ==> cs[i] == rs[i] == marker[i]
      {
        ghost var k := |cs|;
        cs := cs + [c];
        c := NextAt(rs, k, c);
      }
      MatchIsCommon(rs, marker, cs);
    }
  }

  lemma MatchIsCommon(rs: RuneSeq, marker: RuneSeq, cs: RuneSeq)
    requires |cs| <= |rs| && |cs| <= |marker| && forall i :: 0 <= i < |cs| ==> cs[i] == rs[i] == marker[i]
    requires |cs| == |rs| || |cs| == |marker| || rs[|cs|] != marker[|cs|]
    ensures |cs| == Common(rs, marker) && cs == rs[..|cs|]
  {
    CommonIs(rs, marker, |cs|);
  }

  lemma {:induction false} CommonIs(rs: RuneSeq, marker: RuneSeq, k: nat)
    requires k <= |rs| && k <= |marker| && forall i :: 0 <= i < k ==> rs[i] == marker[i]
    requires k == |rs| || k == |marker| || rs[k] != marker[k]
    ensures Common(rs, marker) == k
  {
    if k > 0 {
      CommonIs(rs[1..], marker[1..], k - 1);
    }
  }
}
