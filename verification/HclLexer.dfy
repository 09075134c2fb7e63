/** The HCL lexer: one token per call, and what strings and heredocs read back. */
module HclLexer {
  import opened HclParser
  import opened LexRules
  import opened Lexer
  import opened Utf8
  import JsonLexer
  import Objects

  const FIRST := 57342

  /** One token, as for JSON, and whether the last token was a number. */
  datatype Lexed = Lexed(ch: int, val: Sym, rest: RuneSeq, failed: bool, lastNumber: bool)

  function Punctuation(c: int): int
  {
    if c == DOT then PERIOD
    else if c == DASH then MINUS
    else if c == COMMA_RUNE then COMMA
    else if c == EQUAL_RUNE then EQUAL
    else if c == LEFT_BRACKET then LEFTBRACKET
    else if c == RIGHT_BRACKET then RIGHTBRACKET
    else if c == LEFT_BRACE then LEFTBRACE
    else if c == RIGHT_BRACE then RIGHTBRACE
    else 0
  }

  function NumberToken(n: Number, v: Sym): Lexed
  {
    if n.isFloat then Lexed(FIRST + FLOAT, v.(f := Objects.Parsed(JsonLexer.Text(n.text))), n.rest, false, true)
    else if ParseInt(n.text) < 0 then Lexed(0, v, n.rest, true, true)
    else Lexed(FIRST + NUMBER, v.(num := ParseInt(n.text)), n.rest, false, true)
  }

  /** An identifier or a word with a meaning; an empty one is an error. */
  function WordToken(w: Span, v: Sym): Lexed
  {
    var named := v.(str := JsonLexer.Text(w.text));
    if w.text == [] then Lexed(0, v, w.rest, true, false)
    else if w.text == JsonLexer.TRUE_WORD then Lexed(FIRST + BOOL, named.(b := true), w.rest, false, false)
    else if w.text == JsonLexer.FALSE_WORD then Lexed(FIRST + BOOL, named.(b := false), w.rest, false, false)
    else if w.text == JsonLexer.NULL_WORD then Lexed(FIRST + NULL, named, w.rest, false, false)
    else Lexed(FIRST + IDENTIFIER, named, w.rest, false, false)
  }

  function StringToken(s: HclSpan, v: Sym): Lexed
  {
    match s
    case Closed(text, rest) => Lexed(FIRST + STRING, v.(str := JsonLexer.Text(text)), rest, false, false)
    case Broken(left) => Lexed(0, v, left, true, false)
  }

  function HeredocToken(h: Here, v: Sym): Lexed
  {
    match h.h
    case Body(text, rest) => Lexed(FIRST + STRING, v.(str := JsonLexer.Text(text)), rest, h.failed, false)
    case Unfinished(left) => Lexed(0, v, left, h.failed, false)
  }

  function HclToken(cls: Classes, rs: RuneSeq, v: Sym, lastNumber: bool): (t: Lexed)
    ensures t.ch == 0 || FIRST + 4 <= t.ch <= FIRST + 20
    ensures |t.rest| <= |rs| && (t.ch != 0 ==> |t.rest| < |rs| && !t.failed)
    decreases |rs|
  {
    if Ended(rs) then Lexed(0, v, AfterEnd(rs), false, lastNumber)
    else if cls.space(rs[0]) then HclToken(cls, rs[1..], v, false)
    else if rs[0] == HASH || rs[0] == SLASH then
      match SkipComment(rs[0], rs[1..])
      case Malformed(left) => Lexed(0, v, left, true, lastNumber)
      case After(rest) => HclToken(cls, rest, v, lastNumber)
    else TokenAt(cls, rs, v, lastNumber)
  }

  /** The token that starts with the next rune. */
  function TokenAt(cls: Classes, rs: RuneSeq, v: Sym, lastNumber: bool): (t: Lexed)
    requires !Ended(rs)
    ensures t.ch == 0 || FIRST + 4 <= t.ch <= FIRST + 20
    ensures |t.rest| <= |rs| && (t.ch != 0 ==> |t.rest| < |rs| && !t.failed)
  {
    if IsDigit(rs[0]) then NumberToken(NumberSpan(rs, false, []), v)
    else if lastNumber && (rs[0] == LOWER_E || rs[0] == UPPER_E) then
      if |rs| > 1 && rs[1] == PLUS then Lexed(FIRST + EPLUS, v, rs[2..], false, true)
      else if |rs| > 1 && rs[1] == DASH then Lexed(FIRST + EMINUS, v, rs[2..], false, true)
      else Lexed(FIRST + EPLUS, v, rs[1..], false, true)
    else if Punctuation(rs[0]) != 0 then Lexed(FIRST + Punctuation(rs[0]), v, rs[1..], false, false)
    else if rs[0] == QUOTE then StringToken(HclString(rs[1..], 0, []), v)
    else if rs[0] == LESS then HeredocToken(HeredocFrom(rs[1..]), v)
    else WordToken(Word(rs, c => cls.HclWord(c), []), v)
  }

  /** hclLex.Lex: reads one token, and moves on whenever it returns one. */
  method Lex(x: Reader, v: Sym, lastNumber0: bool) returns (ch: int, val: Sym, lastNumber: bool)
    requires x.Valid() && !x.failed
    modifies x
    ensures x.Valid() && x.pos >= old(x.pos) && (ch != 0 ==> x.pos > old(x.pos))
    ensures Lexed(ch, val, x.Rest(), x.failed, lastNumber) == HclToken(x.classes, old(x.Rest()), v, lastNumber0)
  {
    val, lastNumber := v, lastNumber0;
    while true
      invariant x.Valid() && x.pos >= old(x.pos) && !x.failed
      invariant HclToken(x.classes, old(x.Rest()), v, lastNumber0) == HclToken(x.classes, x.Rest(), v, lastNumber)
      decreases |x.Rest()|
    {
      ghost var rs := x.Rest();
      var c := x.Next();
      if c == NUL {
        return 0, v, lastNumber;
      }
      assert rs == [c] + x.Rest();
      if x.classes.space(c) {
        lastNumber := false;
        continue;
      }
      if c == HASH || c == SLASH {
        var ok := x.ConsumeComment(c);
        if !ok {
          return 0, v, lastNumber;
        }
        continue;
      }
      ch, val, lastNumber := LexAt(x, v, lastNumber, c);
      return;
    }
  }

  method LexAt(x: Reader, v: Sym, lastNumber0: bool, c: int) returns (ch: int, val: Sym, lastNumber: bool)
    requires x.Valid() && !x.failed && 0 < x.width <= x.pos
    requires Runes(x.Input[x.pos - x.width..]) == [c] + x.Rest() && c != NUL
    modifies x
    ensures x.Valid() && x.pos >= old(x.pos - x.width) && (ch != 0 ==> x.pos > old(x.pos - x.width))
    ensures Lexed(ch, val, x.Rest(), x.failed, lastNumber)
            == TokenAt(x.classes, old(Runes(x.Input[x.pos - x.width..])), v, lastNumber0)
  {
    ghost var rs := Runes(x.Input[x.pos - x.width..]);
    assert rs[0] == c && rs[1..] == x.Rest();
    val, lastNumber := v, lastNumber0;
    if IsDigit(c) {
      lastNumber := true;
      x.Backup();
      assert x.Rest() == rs;
      ch, val := LexNumber(x, v);
      return;
    }
    if lastNumber && (c == LOWER_E || c == UPPER_E) {
      ch := LexExponent(x);
      return;
    }
    lastNumber := false;
    if Punctuation(c) != 0 {
      return FIRST + Punctuation(c), v, false;
    }
    if c == QUOTE {
      ch, val := LexString(x, v);
      return;
    }
    if c == LESS {
      ch, val := LexHeredoc(x, v);
      return;
    }
    x.Backup();
    assert x.Rest() == rs;
    ch, val := LexId(x, v);
  }

  method LexNumber(x: Reader, v: Sym) returns (ch: int, val: Sym)
    requires x.Valid() && !x.failed
    modifies x
    ensures x.Valid() && x.pos >= old(x.pos)
    ensures old(x.Rest()) != [] && IsDigit(old(x.Rest())[0]) ==> x.pos > old(x.pos)
    ensures Lexed(ch, val, x.Rest(), x.failed, true) == NumberToken(NumberSpan(old(x.Rest()), false, []), v)
  {
    var text, isFloat := x.NumberText();
    if isFloat {
      return FIRST + FLOAT, v.(f := Objects.Parsed(JsonLexer.Text(text)));
    }
    var n := ParseInt(text);
    if n < 0 {
      x.failed := true;
      return 0, v;
    }
    return FIRST + NUMBER, v.(num := n);
  }

  method LexExponent(x: Reader) returns (ch: int)
    requires x.Valid()
    modifies x`pos, x`width
    ensures x.Valid() && x.pos >= old(x.pos)
    ensures var rs := old(x.Rest());
            if rs != [] && rs[0] == PLUS then ch == FIRST + EPLUS && x.Rest() == rs[1..]
            else if rs != [] && rs[0] == DASH then ch == FIRST + EMINUS && x.Rest() == rs[1..]
            else ch == FIRST + EPLUS && x.Rest() == rs
  {
    var c := x.Next();
    if c == PLUS {
      return FIRST + EPLUS;
    }
    if c == DASH {
      return FIRST + EMINUS;
    }
    x.Backup();
    return FIRST + EPLUS;
  }

  method LexString(x: Reader, v: Sym) returns (ch: int, val: Sym)
    requires x.Valid() && !x.failed
    modifies x
    ensures x.Valid() && x.pos >= old(x.pos)
    ensures Lexed(ch, val, x.Rest(), x.failed, false) == StringToken(HclString(old(x.Rest()), 0, []), v)
  {
    var text, ok := x.HclStringBody();
    if !ok {
      return 0, v;
    }
    return FIRST + STRING, v.(str := JsonLexer.Text(text));
  }

  method LexHeredoc(x: Reader, v: Sym) returns (ch: int, val: Sym)
    requires x.Valid() && !x.failed
    modifies x
    ensures x.Valid() && x.pos >= old(x.pos)
    ensures Lexed(ch, val, x.Rest(), x.failed, false) == HeredocToken(HeredocFrom(old(x.Rest())), v)
  {
    var text, ok := x.HeredocText();
    if !ok {
      return 0, v;
    }
    return FIRST + STRING, v.(str := JsonLexer.Text(text));
  }

  method LexId(x: Reader, v: Sym) returns (ch: int, val: Sym)
    requires x.Valid() && !x.failed
    modifies x
    ensures x.Valid() && x.pos >= old(x.pos) && (ch != 0 ==> x.pos > old(x.pos))
    ensures Lexed(ch, val, x.Rest(), x.failed, false)
            == WordToken(Word(old(x.Rest()), c => x.classes.HclWord(c), []), v)
  {
    var w := x.WordText(c => x.classes.HclWord(c));
    if w == [] {
      x.failed := true;
      return 0, v;
    }
    val := v.(str := JsonLexer.Text(w));
    if w == JsonLexer.TRUE_WORD {
      return FIRST + BOOL, val.(b := true);
    }
    if w == JsonLexer.FALSE_WORD {
      return FIRST + BOOL, val.(b := false);
    }
    return FIRST + if w == JsonLexer.NULL_WORD then NULL else IDENTIFIER, val;
  }
}
