/** The JSON lexer: one token per call, and all tokens of a text. */
module JsonLexer {
  import opened JsonParser
  import opened LexRules
  import opened Lexer
  import opened Utf8
  import Engine
  import Objects

  // External token codes.
  const FIRST := 57342

  /** A rune as a character; runes that are decoded always are. */
  function Char(r: int): char { if Scalar(r) then r as char else '\0' }

  function Text(rs: RuneSeq): string { seq(|rs|, i requires 0 <= i < |rs| => Char(rs[i])) }

  function ToRunes(s: string): (rs: RuneSeq)
    ensures |rs| == |s|
  {
    seq(|s|, i requires 0 <= i < |s| => s[i] as int)
  }

  /** One token: its code, 0 at the end or on an error, the value record, and what is left. */
  datatype Lexed = Lexed(ch: int, val: Sym, rest: RuneSeq, failed: bool)

  function Punctuation(c: int): int
  {
    if c == DOT then 20
    else if c == DASH then MINUS
    else if c == COLON_RUNE then COLON
    else if c == COMMA_RUNE then COMMA
    else if c == LEFT_BRACKET then LEFTBRACKET
    else if c == RIGHT_BRACKET then RIGHTBRACKET
    else if c == LEFT_BRACE then LEFTBRACE
    else if c == RIGHT_BRACE then RIGHTBRACE
    else 0
  }

  const TRUE_WORD: RuneSeq := [116, 114, 117, 101]
  const FALSE_WORD: RuneSeq := [102, 97, 108, 115, 101]
  const NULL_WORD: RuneSeq := [110, 117, 108, 108]

  function Keyword(w: RuneSeq): int
  {
    if w == TRUE_WORD then TRUE else if w == FALSE_WORD then FALSE else if w == NULL_WORD then NULL else 0
  }

  function NumberToken(n: Number, v: Sym): Lexed
  {
    if n.isFloat then Lexed(FIRST + FLOAT, v.(f := Objects.Parsed(Text(n.text))), n.rest, false)
    else if ParseInt(n.text) < 0 then Lexed(0, v, n.rest, true)
    else Lexed(FIRST + NUMBER, v.(num := ParseInt(n.text)), n.rest, false)
  }

  function JsonToken(cls: Classes, rs: RuneSeq, v: Sym): (t: Lexed)
    ensures t.ch == 0 || FIRST + 4 <= t.ch <= FIRST + 22
    ensures |t.rest| <= |rs| && (t.ch != 0 ==> |t.rest| < |rs| && !t.failed)
    decreases |rs|
  {
    if Ended(rs) then Lexed(0, v, AfterEnd(rs), false)
    else if cls.space(rs[0]) then JsonToken(cls, rs[1..], v)
    else TokenAt(cls, rs, v)
  }

  /** The token that starts with the next rune. */
  function TokenAt(cls: Classes, rs: RuneSeq, v: Sym): (t: Lexed)
    requires !Ended(rs)
    ensures t.ch == 0 || FIRST + 4 <= t.ch <= FIRST + 22
    ensures |t.rest| <= |rs| && (t.ch != 0 ==> |t.rest| < |rs| && !t.failed)
  {
    if IsDigit(rs[0]) then NumberToken(NumberSpan(rs, false, []), v)
    else if rs[0] == LOWER_E || rs[0] == UPPER_E then
      if |rs| > 1 && rs[1] == PLUS then Lexed(FIRST + EPLUS, v, rs[2..], false)
      else if |rs| > 1 && rs[1] == DASH then Lexed(FIRST + EMINUS, v, rs[2..], false)
      else Lexed(FIRST + EPLUS, v, rs[1..], false)
    else if Punctuation(rs[0]) != 0 then Lexed(FIRST + Punctuation(rs[0]), v, rs[1..], false)
    else if rs[0] == QUOTE then
      var s := JsonString(rs[1..], []);
      Lexed(FIRST + STRING, v.(str := Text(s.text)), s.rest, false)
    else
      var w := Word(rs, c => cls.JsonWord(c), []);
      if Keyword(w.text) == 0 then Lexed(0, v, w.rest, true)
      else Lexed(FIRST + Keyword(w.text), v, w.rest, false)
  }

  /** jsonLex.Lex: reads one token, and moves on whenever it returns one. */
  method Lex(x: Reader, v: Sym) returns (ch: int, val: Sym)
    requires x.Valid() && !x.failed
    modifies x
    ensures x.Valid() && x.pos >= old(x.pos) && (ch != 0 ==> x.pos > old(x.pos))
    ensures Lexed(ch, val, x.Rest(), x.failed) == JsonToken(x.classes, old(x.Rest()), v)
  {
    var c := SkipSpace(x, v);
    if c == NUL {
      return 0, v;
    }
    ch, val := LexAt(x, v, c);
  }

  /** The first rune that is not white space, or the end. */
  method SkipSpace(x: Reader, ghost v: Sym) returns (c: int)
    requires x.Valid() && !x.failed
    modifies x
    ensures x.Valid() && !x.failed && x.pos >= old(x.pos)
    ensures c == NUL ==> Lexed(0, v, x.Rest(), false) == JsonToken(x.classes, old(x.Rest()), v)
    ensures c != NUL ==>
              && 0 < x.width && old(x.pos) <= x.pos - x.width && Runes(x.Input[x.pos - x.width..]) == [c] + x.Rest()
              && TokenAt(x.classes, [c] + x.Rest(), v) == JsonToken(x.classes, old(x.Rest()), v)
  {
    ghost var goal := JsonToken(x.classes, x.Rest(), v);
    while true
      invariant x.Valid() && !x.failed && x.pos >= old(x.pos) && JsonToken(x.classes, x.Rest(), v) == goal
      decreases |x.Rest()|
    {
      c := StepOver(x, v);
      if c == NUL || !x.classes.space(c) {
        return;
      }
    }
  }

  /** Where the token is found after a rune was read: at the end, after white space, or at the rune. */
  ghost predicate SteppedOver(x: Reader, v: Sym, c: int, goal: Lexed)
    requires x.Valid()
    reads x
  {
    if c == NUL then goal == Lexed(0, v, x.Rest(), false)
    else
      && 0 < x.width <= x.pos && Runes(x.Input[x.pos - x.width..]) == [c] + x.Rest()
      && goal == if x.classes.space(c) then JsonToken(x.classes, x.Rest(), v) else TokenAt(x.classes, [c] + x.Rest(), v)
  }

  method StepOver(x: Reader, ghost v: Sym) returns (c: int)
    requires x.Valid() && !x.failed
    modifies x
    ensures x.Valid() && !x.failed && x.pos >= old(x.pos)
    ensures SteppedOver(x, v, c, JsonToken(x.classes, old(x.Rest()), v))
    ensures c != NUL ==> old(x.pos) == x.pos - x.width && |x.Rest()| < |old(x.Rest())|
  {
    ghost var rs := x.Rest();
    c := x.Next();
    if c != NUL {
      assert rs == [c] + x.Rest();
    }
  }

  method LexAt(x: Reader, v: Sym, c: int) returns (ch: int, val: Sym)
    requires x.Valid() && !x.failed && 0 < x.width <= x.pos
    requires Runes(x.Input[x.pos - x.width..]) == [c] + x.Rest() && c != NUL
    modifies x
    ensures x.Valid() && x.pos >= old(x.pos - x.width) && (ch != 0 ==> x.pos > old(x.pos - x.width))
    ensures Lexed(ch, val, x.Rest(), x.failed) == TokenAt(x.classes, old(Runes(x.Input[x.pos - x.width..])), v)
  {
    ghost var rs := Runes(x.Input[x.pos - x.width..]);
    assert rs[0] == c && rs[1..] == x.Rest();
    val := v;
    if IsDigit(c) {
      x.Backup();
      ch, val := LexNumber(x, v);
      return;
    }
    if c == LOWER_E || c == UPPER_E {
      ch := LexExponent(x);
      return;
    }
    if Punctuation(c) != 0 {
      return FIRST + Punctuation(c), v;
    }
    if c == QUOTE {
      var text := x.JsonStringBody();
      return FIRST + STRING, v.(str := Text(text));
    }
    x.Backup();
    ch := LexId(x);
  }

  method LexExponent(x: Reader) returns (ch: int)
    requires x.Valid()
    modifies x`pos, x`width
    ensures x.Valid() && x.pos >= old(x.pos)
    ensures var rs := old(x.Rest());
            if rs != [] && rs[0] == PLUS then ch == FIRST + EPLUS && x.Rest() == rs[1..]
            else if rs != [] && rs[0] == DASH then ch == FIRST + EMINUS && x.Rest() == rs[1..]
            else ch == FIRST + EPLUS && x.Rest() == rs
  {
    var c := x.Next();
    if c == PLUS {
      return FIRST + EPLUS;
    }
    if c == DASH {
      return FIRST + EMINUS;
    }
    x.Backup();
    return FIRST + EPLUS;
  }

  method LexId(x: Reader) returns (ch: int)
    requires x.Valid() && !x.failed
    modifies x
    ensures x.Valid() && x.pos >= old(x.pos) && (ch != 0 ==> x.pos > old(x.pos))
    ensures var w := Word(old(x.Rest()), c => x.classes.JsonWord(c), []);
            && x.Rest() == w.rest && (x.failed <==> Keyword(w.text) == 0)
            && ch == if Keyword(w.text) == 0 then 0 else FIRST + Keyword(w.text)
  {
    var w := x.WordText(c => x.classes.JsonWord(c));
    ch := Keyword(w);
    if ch == 0 {
      x.failed := true;
    } else {
      ch := FIRST + ch;
    }
  }

  method LexNumber(x: Reader, v: Sym) returns (ch: int, val: Sym)
    requires x.Valid() && !x.failed
    modifies x
    ensures x.Valid() && x.pos >= old(x.pos)
    ensures old(x.Rest()) != [] && IsDigit(old(x.Rest())[0]) ==> x.pos > old(x.pos)
    ensures Lexed(ch, val, x.Rest(), x.failed) == NumberToken(NumberSpan(old(x.Rest()), false, []), v)
  {
    var text, isFloat := x.NumberText();
    if isFloat {
      return FIRST + FLOAT, v.(f := Objects.Parsed(Text(text)));
    }
    var n := ParseInt(text);
    if n < 0 {
      x.failed := true;
      return 0, v;
    }
    return FIRST + NUMBER, v.(num := n);
  }
}
