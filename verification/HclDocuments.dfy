/** The text of HCL documents, and its round trip through the lexer and the automaton. */
module HclDocuments {
  import opened HclLexer
  import opened HclParser
  import opened HclSyntax
  import opened HclText
  import opened LexRules
  import opened Lexer
  import opened Utf8
  import opened Wrappers
  import Engine
  import Objects
  import Lalr
  import HclTables
  import JsonLexer
  import JsonText

  type Terminal = Lalr.Token<Sym>

  predicate IsNumber(code: int) { code == NUMBER || code == FLOAT }

  predicate IsExponent(code: int) { code == EPLUS || code == EMINUS }

  predicate IsWord(code: int) { code == IDENTIFIER || code == BOOL || code == NULL }

  predicate IsSign(code: int)
  {
    code in {MINUS, COMMA, EQUAL, LEFTBRACKET, RIGHTBRACKET, LEFTBRACE, RIGHTBRACE}
  }

  function Sign(code: int): int
  {
    if code == MINUS then DASH
    else if code == COMMA then COMMA_RUNE
    else if code == EQUAL then EQUAL_RUNE
    else if code == LEFTBRACKET then LEFT_BRACKET
    else if code == RIGHTBRACKET then RIGHT_BRACKET
    else if code == LEFTBRACE then LEFT_BRACE
    else RIGHT_BRACE
  }

  /** A rune that no other token starts with. */
  predicate StartsName(cls: Classes, c: int)
  {
    cls.HclWord(c) && !cls.space(c) && !IsDigit(c) && c != DASH && c != DOT
  }

  predicate WordRunes(cls: Classes, w: RuneSeq) { forall i :: 0 <= i < |w| ==> cls.HclWord(w[i]) }

  /** No keyword, but a letter or an underscore, and letters, digits, underscores, dashes and periods after it. */
  predicate IdentifierText(cls: Classes, w: RuneSeq)
  {
    && w != [] && StartsName(cls, w[0]) && WordRunes(cls, w)
    && w != JsonLexer.TRUE_WORD && w != JsonLexer.FALSE_WORD && w != JsonLexer.NULL_WORD
  }

  /** The text of a token. */
  function TokenText(t: Terminal): RuneSeq
  {
    if t.code == NUMBER then JsonLexer.ToRunes(Objects.Decimal(t.val.num))
    else if t.code == FLOAT then if t.val.f.Parsed? then JsonLexer.ToRunes(t.val.f.text) else []
    else if t.code == STRING then [QUOTE] + Quoted(JsonLexer.ToRunes(t.val.str), [])
    else if IsExponent(t.code) then [LOWER_E, if t.code == EPLUS then PLUS else DASH]
    else if IsWord(t.code) then WordText(t)
    else [Sign(t.code)]
  }

  function WordText(t: Terminal): RuneSeq
  {
    if t.code == IDENTIFIER then JsonLexer.ToRunes(t.val.str)
    else if t.code == NULL then JsonLexer.NULL_WORD
    else if t.val.b then JsonLexer.TRUE_WORD
    else JsonLexer.FALSE_WORD
  }

  /** A string that quoting does not change: no NUL, and no interpolation left open. */
  ghost predicate StringText(s: RuneSeq) { NUL !in s && Depth(s, 0) == 0 }

  /** The token can be written as text. */
  ghost predicate Printable(cls: Classes, t: Terminal)
  {
    if t.code == NUMBER then 0 <= t.val.num <= Objects.MAX_INT64
    else if t.code == FLOAT then t.val.f.Parsed? && JsonText.FloatText(JsonLexer.ToRunes(t.val.f.text))
    else if t.code == STRING then StringText(JsonLexer.ToRunes(t.val.str))
    else if t.code == IDENTIFIER then IdentifierText(cls, JsonLexer.ToRunes(t.val.str))
    else IsWord(t.code) || IsExponent(t.code) || IsSign(t.code)
  }

  /** The next token of rs is one that agrees with t, and it leaves rest. */
  ghost predicate LexesTo(cls: Classes, rs: RuneSeq, v: Sym, lastNumber: bool, t: Terminal, rest: RuneSeq)
  {
    var l := HclToken(cls, rs, v, lastNumber);
    && l.ch == FIRST + t.code && l.rest == rest && Agrees(Lalr.Token(t.code, l.val), t)
    && l.lastNumber == (IsNumber(t.code) || IsExponent(t.code))
  }

  lemma {:induction false} BlanksSkipped(cls: Classes, ws: RuneSeq, rest: RuneSeq, v: Sym, lastNumber: bool)
    requires cls.Ascii() && JsonText.Blanks(ws)
    ensures HclToken(cls, ws + rest, v, lastNumber) == HclToken(cls, rest, v, lastNumber && ws == [])
  {
    if ws == [] {
      assert ws + rest == rest;
    } else {
      assert JsonText.Blank(ws[0]) && (ws + rest)[0] == ws[0];
      assert (ws + rest)[1..] == ws[1..] + rest;
      BlanksSkipped(cls, ws[1..], rest, v, false);
    }
  }

  /** What may follow a number or a word directly: anything that does not continue it. */
  predicate Separates(cls: Classes, code: int, rest: RuneSeq)
  {
    && (IsNumber(code) ==> JsonText.EndsNumber(rest))
    && (IsWord(code) ==> rest == [] || (!cls.HclWord(rest[0]) && rest[0] != NUL))
  }

  lemma NumberLexes(cls: Classes, t: Terminal, rest: RuneSeq, v: Sym, lastNumber: bool)
    requires cls.Ascii() && IsNumber(t.code) && Printable(cls, t) && JsonText.EndsNumber(rest)
    ensures LexesTo(cls, TokenText(t) + rest, v, lastNumber, t, rest)
  {
    NumberScans(cls, t, rest);
    NumberAgrees(cls, t, rest, v);
    StartsNumber(cls, TokenText(t), rest, v, lastNumber);
  }

  /** The text of a number starts with a digit and is read whole. */
  lemma NumberScans(cls: Classes, t: Terminal, rest: RuneSeq)
    requires IsNumber(t.code) && Printable(cls, t) && JsonText.EndsNumber(rest)
    ensures TokenText(t) != [] && IsDigit(TokenText(t)[0])
    ensures NumberSpan(TokenText(t) + rest, false, []) == Number(TokenText(t), t.code == FLOAT, rest)
  {
    var text := TokenText(t);
    if t.code == NUMBER {
      JsonText.DecimalDigits(t.val.num);
      JsonText.NumberUndoesPrint(text, rest, |text|, false, []);
    } else {
      var k :| JsonText.PeriodAt(text, k);
      JsonText.NumberUndoesPrint(text, rest, k, false, []);
    }
    assert [] + text == text;
  }

  lemma NumberAgrees(cls: Classes, t: Terminal, rest: RuneSeq, v: Sym)
    requires IsNumber(t.code) && Printable(cls, t)
    ensures var l := NumberToken(Number(TokenText(t), t.code == FLOAT, rest), v);
            l.ch == FIRST + t.code && l.rest == rest && Agrees(Lalr.Token(t.code, l.val), t) && l.lastNumber
  {
    if t.code == NUMBER {
      JsonText.ParseIntUndoesDecimal(t.val.num);
    } else {
      JsonText.TextUndoesToRunes(t.val.f.text);
    }
  }

  lemma StartsNumber(cls: Classes, text: RuneSeq, rest: RuneSeq, v: Sym, lastNumber: bool)
    requires cls.Ascii() && text != [] && IsDigit(text[0])
    ensures HclToken(cls, text + rest, v, lastNumber) == NumberToken(NumberSpan(text + rest, false, []), v)
  {
    assert (text + rest)[0] == text[0];
  }

  lemma StringLexes(cls: Classes, t: Terminal, rest: RuneSeq, v: Sym, lastNumber: bool)
    requires cls.Ascii() && t.code == STRING && Printable(cls, t)
    ensures LexesTo(cls, TokenText(t) + rest, v, lastNumber, t, rest)
  {
    var s := JsonLexer.ToRunes(t.val.str);
    QuotedThen(s, rest);
    StringUndoesQuote(s, rest);
    JsonText.TextUndoesToRunes(t.val.str);
    StartsString(cls, Quoted(s, rest), v, lastNumber);
  }

  lemma StartsString(cls: Classes, body: RuneSeq, v: Sym, lastNumber: bool)
    requires cls.Ascii()
    ensures HclToken(cls, [QUOTE] + body, v, lastNumber) == StringToken(HclString(body, 0, []), v)
  {
    assert ([QUOTE] + body)[1..] == body;
  }

  lemma QuotedThen(s: RuneSeq, rest: RuneSeq)
    ensures [QUOTE] + Quoted(s, []) + rest == [QUOTE] + Quoted(s, rest)
  {
  }

  lemma ExponentLexes(cls: Classes, t: Terminal, rest: RuneSeq, v: Sym)
    requires cls.Ascii() && IsExponent(t.code)
    ensures LexesTo(cls, TokenText(t) + rest, v, true, t, rest)
  {
    var rs := TokenText(t) + rest;
    assert rs[0] == LOWER_E && rs[1] == TokenText(t)[1] && rs[2..] == rest;
  }

  lemma SignLexes(cls: Classes, t: Terminal, rest: RuneSeq, v: Sym, lastNumber: bool)
    requires cls.Ascii() && IsSign(t.code)
    ensures LexesTo(cls, TokenText(t) + rest, v, lastNumber, t, rest)
  {
    var rs := TokenText(t) + rest;
    assert rs[0] == Sign(t.code) && rs[1..] == rest;
  }

  /** The word would be read as an exponent after a number. */
  predicate StartsExponent(t: Terminal)
  {
    IsWord(t.code) && WordText(t) != [] && (WordText(t)[0] == LOWER_E || WordText(t)[0] == UPPER_E)
  }

  lemma WordLexes(cls: Classes, t: Terminal, rest: RuneSeq, v: Sym, lastNumber: bool)
    requires cls.Ascii() && IsWord(t.code) && Printable(cls, t) && Separates(cls, t.code, rest)
    requires lastNumber ==> !StartsExponent(t)
    ensures LexesTo(cls, TokenText(t) + rest, v, lastNumber, t, rest)
  {
    WordIs(cls, t);
    WordScans(cls, WordText(t), rest, v, lastNumber);
    WordAgrees(cls, t, rest, v);
  }

  lemma WordScans(cls: Classes, w: RuneSeq, rest: RuneSeq, v: Sym, lastNumber: bool)
    requires cls.Ascii() && w != [] && StartsName(cls, w[0])
    requires rest == [] || (!cls.HclWord(rest[0]) && rest[0] != NUL)
    requires WordRunes(cls, w)
    requires lastNumber ==> w[0] != LOWER_E && w[0] != UPPER_E
    ensures HclToken(cls, w + rest, v, lastNumber) == WordToken(Span(w, rest), v)
  {
    assert forall i :: 0 <= i < |w| ==> cls.HclWord(w[i]);
    JsonText.WordReads(w, rest, c => cls.HclWord(c), []);
    assert [] + w == w;
    StartsWord(cls, w, rest, v, lastNumber);
  }

  lemma WordAgrees(cls: Classes, t: Terminal, rest: RuneSeq, v: Sym)
    requires IsWord(t.code) && Printable(cls, t)
    ensures var l := WordToken(Span(WordText(t), rest), v);
            l.ch == FIRST + t.code && l.rest == rest && Agrees(Lalr.Token(t.code, l.val), t) && !l.lastNumber
  {
    if t.code == IDENTIFIER {
      JsonText.TextUndoesToRunes(t.val.str);
    }
  }

  /** Every word starts like an identifier and goes on with runes of words. */
  lemma WordIs(cls: Classes, t: Terminal)
    requires cls.Ascii() && IsWord(t.code) && Printable(cls, t)
    ensures var w := WordText(t);
            w != [] && StartsName(cls, w[0]) && WordRunes(cls, w)
  {
  }

  lemma StartsWord(cls: Classes, w: RuneSeq, rest: RuneSeq, v: Sym, lastNumber: bool)
    requires cls.Ascii() && w != [] && StartsName(cls, w[0])
    requires lastNumber ==> w[0] != LOWER_E && w[0] != UPPER_E
    ensures HclToken(cls, w + rest, v, lastNumber) == WordToken(Word(w + rest, c => cls.HclWord(c), []), v)
  {
    assert (w + rest)[0] == w[0];
  }

  lemma TokenLexes(cls: Classes, t: Terminal, rest: RuneSeq, v: Sym, lastNumber: bool)
    requires cls.Ascii() && Printable(cls, t)
    requires Separates(cls, t.code, rest)
    requires if IsExponent(t.code) then lastNumber else lastNumber ==> !StartsExponent(t)
    ensures LexesTo(cls, TokenText(t) + rest, v, lastNumber, t, rest)
  {
    if IsNumber(t.code) {
      NumberLexes(cls, t, rest, v, lastNumber);
    } else if t.code == STRING {
      StringLexes(cls, t, rest, v, lastNumber);
    } else if IsExponent(t.code) {
      ExponentLexes(cls, t, rest, v);
    } else if IsWord(t.code) {
      WordLexes(cls, t, rest, v, lastNumber);
    } else {
      SignLexes(cls, t, rest, v, lastNumber);
    }
  }

  /** The text of a token sequence, with white space before each token and at the end. */
  function TokensText(p: seq<Terminal>, ws: seq<RuneSeq>): RuneSeq
    requires |ws| == |p| + 1
  {
    if p == [] then ws[0] else ws[0] + (TokenText(p[0]) + TokensText(p[1..], ws[1..]))
  }

  /** Exponents stand between two numbers. */
  ghost predicate Placed(p: seq<Terminal>, afterNumber: bool)
    decreases |p|
  {
    p != [] ==>
      && (IsExponent(p[0].code) ==> afterNumber && |p| > 1 && p[1].code == NUMBER)
      && Placed(p[1..], IsNumber(p[0].code))
  }

  /** The token would run into one with this code before it. */
  predicate RunsInto(previous: int, t: Terminal)
  {
    if IsNumber(previous) then IsNumber(t.code) || StartsExponent(t)
    else IsWord(previous) && (IsNumber(t.code) || IsWord(t.code) || t.code == MINUS)
  }

  /** White space, at least where two tokens would run together, but none before an exponent. */
  ghost predicate Gaps(p: seq<Terminal>, ws: seq<RuneSeq>, previous: int)
    requires |ws| == |p| + 1
    decreases |p|
  {
    && JsonText.Blanks(ws[0])
    && (p != [] ==>
          && (if IsExponent(p[0].code) then ws[0] == [] else RunsInto(previous, p[0]) ==> ws[0] != [])
          && Gaps(p[1..], ws[1..], p[0].code))
  }

  predicate LastNumber(previous: int) { IsNumber(previous) || IsExponent(previous) }

  /** What a token's text starts with. */
  lemma FirstRune(cls: Classes, t: Terminal)
    requires cls.Ascii() && Printable(cls, t)
    ensures var w := TokenText(t);
            && w != []
            && if IsNumber(t.code) then IsDigit(w[0]) else if t.code == STRING then w[0] == QUOTE
               else if IsExponent(t.code) then w[0] == LOWER_E else if IsWord(t.code) then StartsName(cls, w[0])
               else w[0] == Sign(t.code)
  {
    if t.code == NUMBER {
      JsonText.DecimalDigits(t.val.num);
    } else if IsWord(t.code) {
      WordIs(cls, t);
    }
  }

  lemma SeparatorFollows(cls: Classes, p: seq<Terminal>, ws: seq<RuneSeq>, previous: int)
    requires cls.Ascii() && |ws| == |p| + 1 && Gaps(p, ws, previous) && Placed(p, IsNumber(previous))
    requires forall i :: 0 <= i < |p| ==> Printable(cls, p[i])
    ensures Separates(cls, previous, TokensText(p, ws))
  {
    var text := TokensText(p, ws);
    if ws[0] != [] {
      assert JsonText.Blank(ws[0][0]) && text[0] == ws[0][0];
    } else if p != [] {
      FirstRune(cls, p[0]);
      assert text[0] == TokenText(p[0])[0];
    }
  }

  /** Lexing undoes writing: the text of printable tokens lexes to them. */
  lemma {:induction false} LexUndoesText(cls: Classes, p: seq<Terminal>, ws: seq<RuneSeq>, v: Sym, previous: int)
    requires cls.Ascii() && |ws| == |p| + 1 && Gaps(p, ws, previous) && Placed(p, IsNumber(previous))
    requires IsExponent(previous) ==> p != [] && p[0].code == NUMBER
    requires forall i :: 0 <= i < |p| ==> Printable(cls, p[i])
    ensures var all := AllTokens(cls, TokensText(p, ws), v, LastNumber(previous));
            !all.failed && Matches(Engine.Tokens(TOK2, all.tokens), p)
    decreases |p|
  {
    if p == [] {
      BlanksSkipped(cls, ws[0], [], v, LastNumber(previous));
      assert ws[0] + [] == ws[0];
    } else {
      var rest := TokensText(p[1..], ws[1..]);
      var last := LastNumber(previous) && ws[0] == [];
      BlanksSkipped(cls, ws[0], TokenText(p[0]) + rest, v, LastNumber(previous));
      SeparatorFollows(cls, p[1..], ws[1..], p[0].code);
      TokenLexes(cls, p[0], rest, v, last);
      var l := HclToken(cls, TokensText(p, ws), v, LastNumber(previous));
      LexUndoesText(cls, p[1..], ws[1..], l.val, p[0].code);
      FirstMatches(cls, TokensText(p, ws), v, LastNumber(previous), p, rest);
    }
  }

  lemma FirstMatches(cls: Classes, rs: RuneSeq, v: Sym, last: bool, p: seq<Terminal>, rest: RuneSeq)
    requires p != [] && Printable(cls, p[0]) && LexesTo(cls, rs, v, last, p[0], rest)
    requires var more := AllTokens(cls, rest, HclToken(cls, rs, v, last).val, LastNumber(p[0].code));
             !more.failed && Matches(Engine.Tokens(TOK2, more.tokens), p[1..])
    ensures var all := AllTokens(cls, rs, v, last);
            !all.failed && Matches(Engine.Tokens(TOK2, all.tokens), p)
  {
    var all := AllTokens(cls, rs, v, last);
    var more := AllTokens(cls, rest, HclToken(cls, rs, v, last).val, LastNumber(p[0].code));
    assert all.tokens[1..] == more.tokens;
    forall i | 0 <= i < |p|
      ensures Agrees(Engine.Tokens(TOK2, all.tokens)[i], p[i])
    {
      if i > 0 {
        assert Agrees(Engine.Tokens(TOK2, more.tokens)[i - 1], p[1..][i - 1]);
      }
    }
  }

  /** What can be written: numbers fit, floats have a literal, identifiers and strings are not changed by lexing. */
  ghost predicate NameWrites(cls: Classes, k: Name)
  {
    if k.Identifier? then IdentifierText(cls, JsonLexer.ToRunes(k.s)) else StringText(JsonLexer.ToRunes(k.s))
  }

  ghost predicate ElemWrites(e: Elem)
  {
    (e.ElemNumber? ==> JsonText.NumberWrites(e.x)) && (e.ElemString? ==> StringText(JsonLexer.ToRunes(e.s)))
  }

  ghost predicate ValWrites(cls: Classes, v: Val)
  {
    match v
    case Num(x) => JsonText.NumberWrites(x)
    case Str(s) => StringText(JsonLexer.ToRunes(s))
    case Obj(items) => forall i :: i in items ==> ItemWrites(cls, i)
    case List(elems, comma) => (comma ==> elems != []) && forall e :: e in elems ==> ElemWrites(e)
    case _ => true
  }

  ghost predicate ItemWrites(cls: Classes, i: Item)
  {
    match i
    case Assign(key, v) => NameWrites(cls, key) && ValWrites(cls, v)
    case Block(id, body) => NameWrites(cls, id) && forall j :: j in body ==> ItemWrites(cls, j)
    case Nested(id, inner) => NameWrites(cls, id) && !inner.Assign? && ItemWrites(cls, inner)
  }

  lemma {:induction false} WritableFits(cls: Classes, i: Item)
    requires ItemWrites(cls, i)
    ensures ItemFits(i)
    decreases i
  {
    match i
    case Assign(_, v) => ValueFits(cls, v);
    case Block(_, body) =>
      forall j | j in body
        ensures ItemFits(j)
      {
        WritableFits(cls, j);
      }
    case Nested(_, inner) => WritableFits(cls, inner);
  }

  lemma {:induction false} ValueFits(cls: Classes, v: Val)
    requires ValWrites(cls, v)
    ensures ValFits(v)
    decreases v
  {
    if v.Obj? {
      forall j | j in v.items
        ensures ItemFits(j)
      {
        WritableFits(cls, j);
      }
    }
  }

  /** Tokens that can be written one after the other. */
  ghost predicate Good(cls: Classes, p: seq<Terminal>)
  {
    (forall i :: 0 <= i < |p| ==> Printable(cls, p[i])) && Placed(p, false)
  }

  lemma {:induction false} PlacedConcat(p: seq<Terminal>, q: seq<Terminal>, afterNumber: bool)
    requires Placed(p, afterNumber) && Placed(q, false)
    ensures Placed(p + q, afterNumber)
    decreases |p|
  {
    if p == [] {
      assert p + q == q;
    } else {
      assert (p + q)[1..] == p[1..] + q;
      PlacedConcat(p[1..], q, IsNumber(p[0].code));
    }
  }

  lemma GoodConcat(cls: Classes, p: seq<Terminal>, q: seq<Terminal>)
    requires Good(cls, p) && Good(cls, q)
    ensures Good(cls, p + q)
  {
    PlacedConcat(p, q, false);
  }

  lemma GoodOne(cls: Classes, t: Terminal)
    requires Printable(cls, t) && !IsExponent(t.code)
    ensures Good(cls, [t])
  {
  }

  lemma GoodThree(cls: Classes, n: Terminal, e: Terminal, d: Terminal)
    requires Printable(cls, n) && Printable(cls, e) && Printable(cls, d) && IsNumber(n.code) && IsExponent(e.code)
             && d.code == NUMBER
    ensures Good(cls, [n, e, d])
  {
    assert [d][1..] == [];
    assert Placed([d], false);
    assert [e, d][1..] == [d] && [e, d][1] == d;
    assert Placed([e, d], true);
    assert [n, e, d][1..] == [e, d];
  }

  lemma MantissaGood(cls: Classes, x: Objects.Number)
    requires JsonText.NumberWrites(x)
    ensures var m := PrintMantissa(x);
            && (|m| == 1 || |m| == 2) && IsNumber(m[|m| - 1].code) && Printable(cls, m[|m| - 1])
            && (|m| == 2 ==> m[0] == Plain(MINUS)[0])
  {
  }

  lemma NumberGood(cls: Classes, x: Objects.Number)
    requires JsonText.NumberWrites(x)
    ensures Good(cls, PrintNumber(x))
  {
    var m := PrintMantissa(x);
    var last := m[|m| - 1];
    MantissaGood(cls, x);
    GoodOne(cls, last);
    GoodOne(cls, Plain(MINUS)[0]);
    if x.exp.Some? {
      var e := PrintExponent(x.exp.value);
      GoodThree(cls, last, e[0], e[1]);
      GoodConcat(cls, Plain(MINUS), [last, e[0], e[1]]);
      assert |m| == 1 ==> m + e == [last, e[0], e[1]];
      assert |m| == 2 ==> m + e == Plain(MINUS) + [last, e[0], e[1]];
    } else {
      GoodConcat(cls, Plain(MINUS), [last]);
      assert |m| == 1 ==> m == [last];
      assert |m| == 2 ==> m == Plain(MINUS) + [last];
    }
  }

  lemma ElemGood(cls: Classes, e: Elem)
    requires ElemWrites(e)
    ensures Good(cls, PrintElem(e))
  {
    if e.ElemNumber? {
      NumberGood(cls, e.x);
    } else {
      GoodOne(cls, PrintElem(e)[0]);
    }
  }

  lemma {:induction false} ElemsGood(cls: Classes, elems: seq<Elem>)
    requires forall e :: e in elems ==> ElemWrites(e)
    ensures Good(cls, PrintElems(elems))
    decreases |elems|
  {
    if |elems| == 1 {
      ElemGood(cls, elems[0]);
    } else if |elems| > 1 {
      var last := elems[|elems| - 1];
      ElemsGood(cls, elems[..|elems| - 1]);
      ElemGood(cls, last);
      GoodOne(cls, Plain(COMMA)[0]);
      GoodConcat(cls, Plain(COMMA), PrintElem(last));
      GoodConcat(cls, PrintElems(elems[..|elems| - 1]), Plain(COMMA) + PrintElem(last));
    }
  }

  lemma ListGood(cls: Classes, elems: seq<Elem>, comma: bool)
    requires forall e :: e in elems ==> ElemWrites(e)
    ensures Good(cls, PrintList(elems, comma))
  {
    GoodOne(cls, Plain(LEFTBRACKET)[0]);
    GoodOne(cls, Plain(RIGHTBRACKET)[0]);
    GoodOne(cls, Plain(COMMA)[0]);
    GoodConcat(cls, Plain(COMMA), Plain(RIGHTBRACKET));
    ElemsGood(cls, elems);
    var end := if comma then Plain(COMMA) + Plain(RIGHTBRACKET) else Plain(RIGHTBRACKET);
    GoodConcat(cls, PrintElems(elems), end);
    GoodConcat(cls, Plain(LEFTBRACKET), if elems == [] then Plain(RIGHTBRACKET) else PrintElems(elems) + end);
  }

  lemma {:induction false} ItemsGood(cls: Classes, items: seq<Item>)
    requires forall i :: i in items ==> ItemWrites(cls, i)
    ensures Good(cls, PrintItems(items))
    decreases items, 0
  {
    if items != [] {
      ItemsGood(cls, items[..|items| - 1]);
      ItemGood(cls, items[|items| - 1]);
      GoodConcat(cls, PrintItems(items[..|items| - 1]), PrintItem(items[|items| - 1]));
    }
  }

  lemma {:induction false} BodyGood(cls: Classes, items: seq<Item>)
    requires forall i :: i in items ==> ItemWrites(cls, i)
    ensures Good(cls, PrintBody(items))
    decreases items, 1
  {
    ItemsGood(cls, items);
    GoodOne(cls, Plain(LEFTBRACE)[0]);
    GoodOne(cls, Plain(RIGHTBRACE)[0]);
    GoodConcat(cls, PrintItems(items), Plain(RIGHTBRACE));
    GoodConcat(cls, Plain(LEFTBRACE), PrintItems(items) + Plain(RIGHTBRACE));
  }

  lemma {:induction false} ItemGood(cls: Classes, i: Item)
    requires ItemWrites(cls, i)
    ensures Good(cls, PrintItem(i))
    decreases i
  {
    match i
    case Assign(key, v) =>
      GoodOne(cls, PrintName(key)[0]);
      GoodOne(cls, Plain(EQUAL)[0]);
      ValGood(cls, v);
      GoodConcat(cls, Plain(EQUAL), PrintVal(v));
      GoodConcat(cls, PrintName(key), Plain(EQUAL) + PrintVal(v));
    case Block(id, body) =>
      GoodOne(cls, PrintName(id)[0]);
      BodyGood(cls, body);
      GoodConcat(cls, PrintName(id), PrintBody(body));
    case Nested(id, inner) =>
      GoodOne(cls, PrintName(id)[0]);
      ItemGood(cls, inner);
      GoodConcat(cls, PrintName(id), PrintItem(inner));
  }

  lemma {:induction false} ValGood(cls: Classes, v: Val)
    requires ValWrites(cls, v)
    ensures Good(cls, PrintVal(v))
    decreases v
  {
    match v
    case Num(x) => NumberGood(cls, x);
    case Obj(items) => BodyGood(cls, items);
    case List(elems, comma) => ListGood(cls, elems, comma);
    case _ => GoodOne(cls, PrintVal(v)[0]);
  }

  /**
   Parsing text undoes writing it, for every HCL document, whatever white space stands between its
   tokens as long as there is some where two of them would run together.
   */
  lemma ParseUndoesText(cls: Classes, items: seq<Item>, ws: seq<RuneSeq>)
    requires cls.Ascii() && (forall i :: i in items ==> ItemWrites(cls, i))
    requires |ws| == |PrintItems(items)| + 1 && Gaps(PrintItems(items), ws, 0)
    ensures Parsed(cls, TokensText(PrintItems(items), ws)) == Some(Objects.Object("", BodyValue(items)))
  {
    var p := PrintItems(items);
    var all := AllTokens(cls, TokensText(p, ws), ZERO, false);
    ItemsGood(cls, items);
    LexUndoesText(cls, p, ws, ZERO, 0);
    forall i | i in items
      ensures ItemFits(i)
    {
      WritableFits(cls, i);
    }
    ParseUndoesPrint(items, Engine.Tokens(TOK2, all.tokens));
  }

  /** A space where two tokens would run together, and nothing anywhere else. */
  function Spaces(p: seq<Terminal>, previous: int): (ws: seq<RuneSeq>)
    ensures |ws| == |p| + 1
  {
    if p == [] then [[]]
    else [if RunsInto(previous, p[0]) then [32] else []] + Spaces(p[1..], p[0].code)
  }

  /** So every document can be written. */
  lemma {:induction false} SpacesSuffice(p: seq<Terminal>, previous: int)
    ensures Gaps(p, Spaces(p, previous), previous)
    decreases |p|
  {
    if p != [] {
      assert Spaces(p, previous)[1..] == Spaces(p[1..], p[0].code);
      SpacesSuffice(p[1..], p[0].code);
    }
  }

  lemma TokenTextScalar(cls: Classes, t: Terminal)
    requires Printable(cls, t)
    ensures Scalars(TokenText(t))
  {
    if t.code == STRING {
      var s := JsonLexer.ToRunes(t.val.str);
      JsonText.EscapeAllScalar(s);
    }
  }

  lemma {:induction false} TokensTextScalar(cls: Classes, p: seq<Terminal>, ws: seq<RuneSeq>, previous: int)
    requires |ws| == |p| + 1 && Gaps(p, ws, previous) && forall i :: 0 <= i < |p| ==> Printable(cls, p[i])
    ensures Scalars(TokensText(p, ws))
    decreases |p|
  {
    if p != [] {
      TokenTextScalar(cls, p[0]);
      TokensTextScalar(cls, p[1..], ws[1..], p[0].code);
    }
  }

  /** The same for the UTF-8 bytes of the text. */
  lemma ParseUndoesBytes(cls: Classes, items: seq<Item>, ws: seq<RuneSeq>)
    requires cls.Ascii() && (forall i :: i in items ==> ItemWrites(cls, i))
    requires |ws| == |PrintItems(items)| + 1 && Gaps(PrintItems(items), ws, 0)
    ensures Scalars(TokensText(PrintItems(items), ws))
    ensures Parsed(cls, Runes(EncodeAll(TokensText(PrintItems(items), ws))))
            == Some(Objects.Object("", BodyValue(items)))
  {
    var text := TokensText(PrintItems(items), ws);
    ParseUndoesText(cls, items, ws);
    ItemsGood(cls, items);
    TokensTextScalar(cls, PrintItems(items), ws, 0);
    RunesEncodeAll(text, []);
    assert EncodeAll(text) + [] == EncodeAll(text) && text + Runes([]) == text;
  }
}
