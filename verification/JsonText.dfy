/** Parsing JSON text: the lexer and the automaton together, and the round trip of the text. */
module JsonText {
  import opened Bytes
  import opened JsonLexer
  import opened JsonParser
  import opened LexRules
  import opened Lexer
  import opened Utf8
  import opened Wrappers
  import opened Engine
  import opened Lalr
  import opened Objects
  import JsonTables
  import ObjectList

  /** All tokens of a text up to the end or a lexical error. */
  datatype Lexemes = Lexemes(tokens: seq<Lexeme<Sym>>, failed: bool)

  function AllTokens(cls: Classes, rs: RuneSeq, v: Sym): (all: Lexemes)
    ensures |all.tokens| <= |rs|
    decreases |rs|
  {
    var t := JsonToken(cls, rs, v);
    if t.ch == 0 then Lexemes([], t.failed)
    else
      var more := AllTokens(cls, t.rest, t.val);
      Lexemes([Lexeme(t.ch, t.val)] + more.tokens, more.failed)
  }

  lemma {:induction false} CodesFit(cls: Classes, rs: RuneSeq, v: Sym, i: nat)
    requires i < |AllTokens(cls, rs, v).tokens|
    ensures var ch := AllTokens(cls, rs, v).tokens[i].ch;
            ch > 0 && Code(TOK2, ch) == ch - FIRST > ERR_CODE
    decreases i
  {
    var t := JsonToken(cls, rs, v);
    if i > 0 {
      CodesFit(cls, t.rest, t.val, i - 1);
    }
  }

  lemma OnlyTopStores(n: int, v: Sym, vals: seq<Sym>)
    requires 0 < n < 28 && |vals| == JsonTables.Size(n)
    ensures Act(n, v, vals).1.Some? <==> JsonTables.R1(n) == 11
  {
  }

  lemma StartStores()
    ensures JsonTables.LR.Certified() && StoresAtStart(JsonTables.LR, ACTIONS)
  {
    JsonTables.Certified();
    JsonTables.Rhss(0);
    forall n, v, vals | 0 < n < 28 && |vals| == |JsonTables.RHS[n]|
      ensures ACTIONS.act(n, v, vals).1.Some? <==> JsonTables.TABLES.r1[n] == JsonTables.LR.Start()
    {
      JsonTables.Rhss(n);
      JsonTables.Entries(n);
      OnlyTopStores(n, v, vals);
    }
  }

  lemma InputFits(cls: Classes, rs: RuneSeq, v: Sym)
    ensures Inv(JsonTables.LR, Init(Tokens(TOK2, AllTokens(cls, rs, v).tokens)))
  {
    JsonTables.Certified();
    forall i | 0 <= i < |AllTokens(cls, rs, v).tokens|
      ensures Code(TOK2, AllTokens(cls, rs, v).tokens[i].ch) > ERR_CODE
    {
      CodesFit(cls, rs, v, i);
    }
  }

  /** What parsing a text yields: nothing if the lexer or the grammar rejects it. */
  ghost function Parsed(cls: Classes, rs: RuneSeq): Option<Object>
  {
    var all := AllTokens(cls, rs, ZERO);
    InputFits(cls, rs, ZERO);
    StartStores();
    if all.failed then None
    else
      match Run(JsonTables.LR, Init(Tokens(TOK2, all.tokens)))
      case Accepted(d) => ResultOf(ACTIONS, d)
      case Rejected => None
  }

  /** The tree derives the tokens in the grammar of the tables, and its actions store the object. */
  ghost predicate Derives(d: Tree<Sym>, w: seq<Token<Sym>>, o: Object)
  {
    Parses(JsonTables.LR, d, w) && ResultOf(ACTIONS, d) == Some(o)
  }

  /** A text parses to an object exactly when its tokens have a derivation whose actions store that object. */
  lemma ParsesExactly(cls: Classes, rs: RuneSeq, o: Object)
    ensures var all := AllTokens(cls, rs, ZERO);
            Parsed(cls, rs) == Some(o) <==> !all.failed && exists d :: Derives(d, Tokens(TOK2, all.tokens), o)
  {
    var all := AllTokens(cls, rs, ZERO);
    var w := Tokens(TOK2, all.tokens);
    InputFits(cls, rs, ZERO);
    StartStores();
    AcceptsExactly(JsonTables.LR, w);
    if Parsed(cls, rs) == Some(o) {
      assert Derives(Run(JsonTables.LR, Init(w)).tree, w, o);
    }
    if d :| Derives(d, w, o) {
      assert Run(JsonTables.LR, Init(w)) == Accepted(d);
    }
  }

  /** Reads tokens until the lexer returns 0. */
  method LexAll(x: Reader) returns (lexemes: seq<Lexeme<Sym>>)
    requires x.Valid() && !x.failed
    modifies x
    ensures Lexemes(lexemes, x.failed) == AllTokens(x.classes, old(x.Rest()), ZERO)
  {
    lexemes := [];
    var v := ZERO;
    while true
      invariant x.Valid() && !x.failed
      invariant AllTokens(x.classes, old(x.Rest()), ZERO) == Prefixed(lexemes, AllTokens(x.classes, x.Rest(), v))
      decreases |x.Input| - x.pos
    {
      ghost var rs := x.Rest();
      var ch, val := Lex(x, v);
      if ch == 0 {
        assert lexemes + [] == lexemes;
        return;
      }
      assert lexemes + ([Lexeme(ch, val)] + AllTokens(x.classes, x.Rest(), val).tokens)
          == lexemes + [Lexeme(ch, val)] + AllTokens(x.classes, x.Rest(), val).tokens;
      lexemes := lexemes + [Lexeme(ch, val)];
      v := val;
    }
  }

  function Prefixed(before: seq<Lexeme<Sym>>, more: Lexemes): Lexemes { Lexemes(before + more.tokens, more.failed) }

  /** json.Parse. The tokens are all read first; the source reads them as the automaton asks for them. */
  method ParseText(input: seq<byte>, cls: Classes) returns (r: Option<Object>)
    ensures r == Parsed(cls, Runes(input))
  {
    var x := new Reader(input, cls);
    assert input[0..] == input;
    var lexemes := LexAll(x);
    forall i | 0 <= i < |lexemes|
      ensures lexemes[i].ch > 0 && Code(TOK2, lexemes[i].ch) > ERR_CODE
    {
      CodesFit(cls, Runes(input), ZERO, i);
    }
    StartStores();
    var code, result := Engine.Parse(JsonTables.LR, ACTIONS, TOK2, lexemes);
    r := if x.failed || code != 0 then None else result;
  }

  /** Escapes what the lexer resolves. */
  function Escape(c: int): RuneSeq
  {
    if c == QUOTE then [BACKSLASH, QUOTE]
    else if c == BACKSLASH then [BACKSLASH, BACKSLASH]
    else if c == NEWLINE then [BACKSLASH, LOWER_N]
    else [c]
  }

  function EscapeAll(rs: RuneSeq): RuneSeq { if rs == [] then [] else Escape(rs[0]) + EscapeAll(rs[1..]) }

  lemma ReadsEscaped(c: int, after: RuneSeq, acc: RuneSeq)
    requires c != NUL
    ensures JsonString(Escape(c) + after, acc) == JsonString(after, acc + [c])
  {
    var e := Escape(c);
    var rs := e + after;
    assert rs[|e|..] == after && rs[0] == e[0] && (|e| > 1 ==> rs[1] == e[1]);
    assert StringRune(rs) == (c, |e|);
  }

  /** Lexing undoes quoting, for every string without a NUL. */
  lemma {:induction false} StringUndoesQuote(s: RuneSeq, rest: RuneSeq, acc: RuneSeq)
    requires NUL !in s
    ensures JsonString(EscapeAll(s) + [QUOTE] + rest, acc) == Span(acc + s, rest)
    decreases |s|
  {
    if s == [] {
      assert EscapeAll(s) + [QUOTE] + rest == [QUOTE] + rest;
      assert acc + s == acc;
    } else {
      FirstEscape(s, rest, acc);
      ReadsEscaped(s[0], EscapeAll(s[1..]) + [QUOTE] + rest, acc);
      StringUndoesQuote(s[1..], rest, acc + [s[0]]);
    }
  }

  lemma FirstEscape(s: RuneSeq, rest: RuneSeq, acc: RuneSeq)
    requires s != []
    ensures EscapeAll(s) + [QUOTE] + rest == Escape(s[0]) + (EscapeAll(s[1..]) + [QUOTE] + rest)
    ensures acc + [s[0]] + s[1..] == acc + s
  {
    assert EscapeAll(s) == Escape(s[0]) + EscapeAll(s[1..]);
    Associates(Escape(s[0]), EscapeAll(s[1..]), [QUOTE]);
    Associates(Escape(s[0]), EscapeAll(s[1..]) + [QUOTE], rest);
    assert s == [s[0]] + s[1..];
    Associates(acc, [s[0]], s[1..]);
  }

  /** A text of digits with one period that starts with a digit. */
  ghost predicate FloatText(t: RuneSeq)
  {
    t != [] && IsDigit(t[0]) && exists k :: PeriodAt(t, k)
  }

  ghost predicate PeriodAt(t: RuneSeq, k: int)
  {
    0 <= k < |t| && forall i :: 0 <= i < |t| ==> if i == k then t[i] == DOT else IsDigit(t[i])
  }

  /** The rune cannot continue a number. */
  predicate EndsNumber(rest: RuneSeq) { rest == [] || !(IsDigit(rest[0]) || rest[0] == DOT || rest[0] == NUL) }

  lemma {:induction false} NumberUndoesPrint(t: RuneSeq, rest: RuneSeq, k: int, got: bool, acc: RuneSeq)
    requires EndsNumber(rest)
    requires if got then forall i :: 0 <= i < |t| ==> IsDigit(t[i])
             else (k == |t| && forall i :: 0 <= i < |t| ==> IsDigit(t[i])) || PeriodAt(t, k)
    ensures NumberSpan(t + rest, got, acc) == Number(acc + t, got || k < |t|, rest)
    decreases |t|
  {
    if t == [] {
      assert t + rest == rest && acc + t == acc;
    } else {
      assert (t + rest)[1..] == t[1..] + rest;
      assert acc + [t[0]] + t[1..] == acc + t;
      if !got && k == 0 {
        NumberUndoesPrint(t[1..], rest, 0, true, acc + [t[0]]);
      } else {
        NumberUndoesPrint(t[1..], rest, if got then 0 else k - 1, got, acc + [t[0]]);
      }
    }
  }

  /** ASCII white space. */
  predicate Blank(c: int) { 9 <= c <= 13 || c == 32 }

  predicate Blanks(ws: RuneSeq) { forall i :: 0 <= i < |ws| ==> Blank(ws[i]) }

  lemma {:induction false} BlanksSkipped(cls: Classes, ws: RuneSeq, rest: RuneSeq, v: Sym)
    requires cls.Ascii() && Blanks(ws)
    ensures JsonToken(cls, ws + rest, v) == JsonToken(cls, rest, v)
  {
    if ws == [] {
      assert ws + rest == rest;
    } else {
      assert Blank(ws[0]) && (ws + rest)[0] == ws[0];
      assert (ws + rest)[1..] == ws[1..] + rest;
      BlanksSkipped(cls, ws[1..], rest, v);
    }
  }

  function Sign(code: int): int
  {
    if code == MINUS then DASH
    else if code == COLON then COLON_RUNE
    else if code == COMMA then COMMA_RUNE
    else if code == LEFTBRACKET then LEFT_BRACKET
    else if code == RIGHTBRACKET then RIGHT_BRACKET
    else if code == LEFTBRACE then LEFT_BRACE
    else RIGHT_BRACE
  }

  predicate IsSign(code: int) { code in {MINUS, COLON, COMMA, LEFTBRACKET, RIGHTBRACKET, LEFTBRACE, RIGHTBRACE} }

  predicate IsNumber(code: int) { code == NUMBER || code == FLOAT }

  predicate IsExponent(code: int) { code == EPLUS || code == EMINUS }

  predicate IsKeyword(code: int) { code in {TRUE, FALSE, NULL} }

  function KeywordText(code: int): RuneSeq
  {
    if code == TRUE then TRUE_WORD else if code == FALSE then FALSE_WORD else NULL_WORD
  }

  /** The text of a token. */
  function TokenText(t: Token<Sym>): RuneSeq
  {
    if t.code == NUMBER then ToRunes(Decimal(t.val.num))
    else if t.code == FLOAT then if t.val.f.Parsed? then ToRunes(t.val.f.text) else []
    else if t.code == STRING then [QUOTE] + EscapeAll(ToRunes(t.val.str)) + [QUOTE]
    else if IsKeyword(t.code) then KeywordText(t.code)
    else if IsExponent(t.code) then [LOWER_E, if t.code == EPLUS then PLUS else DASH]
    else [Sign(t.code)]
  }

  /** The token can be written as text. */
  ghost predicate Printable(t: Token<Sym>)
  {
    if t.code == NUMBER then 0 <= t.val.num <= MAX_INT64
    else if t.code == FLOAT then t.val.f.Parsed? && FloatText(ToRunes(t.val.f.text))
    else if t.code == STRING then NUL !in ToRunes(t.val.str)
    else IsKeyword(t.code) || IsExponent(t.code) || IsSign(t.code)
  }

  /** What may follow a number or a keyword directly: anything that does not continue it. */
  predicate Separates(cls: Classes, code: int, rest: RuneSeq)
  {
    && (IsNumber(code) ==> EndsNumber(rest))
    && (IsKeyword(code) ==> rest == [] || (!cls.JsonWord(rest[0]) && rest[0] != NUL))
  }

  lemma TextUndoesToRunes(s: string)
    ensures Text(ToRunes(s)) == s
  {
    forall i | 0 <= i < |s|
      ensures Char(s[i] as int) == s[i]
    {
    }
  }

  lemma {:induction false} DecimalDigits(n: nat)
    ensures forall i :: 0 <= i < |Decimal(n)| ==> IsDigit(Decimal(n)[i] as int)
    ensures Decimal(n) != [] && (n > 0 ==> Decimal(n)[0] != '0')
    ensures Digits(ToRunes(Decimal(n)), 10) == n
    decreases n
  {
    if n < 10 {
      assert ToRunes(Decimal(n))[..0] == [];
    } else {
      var front := Decimal(n / 10);
      DecimalDigits(n / 10);
      assert ToRunes(Decimal(n))[..|front|] == ToRunes(front);
    }
  }

  /** Reading a decimal number gives it back. */
  lemma ParseIntUndoesDecimal(n: nat)
    requires n <= MAX_INT64
    ensures ParseInt(ToRunes(Decimal(n))) == n
  {
    DecimalDigits(n);
    var t := ToRunes(Decimal(n));
    if n == 0 {
      assert t == [48];
      assert Digits(t[..0], 8) == 0;
    } else {
      assert t[0] != 48;
    }
  }

  lemma NumberLexes(cls: Classes, t: Token<Sym>, rest: RuneSeq, v: Sym)
    requires cls.Ascii() && IsNumber(t.code) && Printable(t) && EndsNumber(rest)
    ensures LexesTo(cls, TokenText(t) + rest, v, t, rest)
  {
    NumberScans(t, rest);
    NumberAgrees(t, rest, v);
    StartsNumber(cls, TokenText(t), rest, v);
  }

  /** The text of a number starts with a digit and is read whole. */
  lemma NumberScans(t: Token<Sym>, rest: RuneSeq)
    requires IsNumber(t.code) && Printable(t) && EndsNumber(rest)
    ensures TokenText(t) != [] && IsDigit(TokenText(t)[0])
    ensures NumberSpan(TokenText(t) + rest, false, []) == Number(TokenText(t), t.code == FLOAT, rest)
  {
    var text := TokenText(t);
    if t.code == NUMBER {
      DecimalDigits(t.val.num);
      NumberUndoesPrint(text, rest, |text|, false, []);
    } else {
      var k :| PeriodAt(text, k);
      NumberUndoesPrint(text, rest, k, false, []);
    }
    assert [] + text == text;
  }

  lemma NumberAgrees(t: Token<Sym>, rest: RuneSeq, v: Sym)
    requires IsNumber(t.code) && Printable(t)
    ensures var l := NumberToken(Number(TokenText(t), t.code == FLOAT, rest), v);
            l.ch == FIRST + t.code && l.rest == rest && Agrees(Token(t.code, l.val), t)
  {
    if t.code == NUMBER {
      ParseIntUndoesDecimal(t.val.num);
    } else {
      TextUndoesToRunes(t.val.f.text);
    }
  }

  lemma StartsNumber(cls: Classes, text: RuneSeq, rest: RuneSeq, v: Sym)
    requires cls.Ascii() && text != [] && IsDigit(text[0])
    ensures JsonToken(cls, text + rest, v) == NumberToken(NumberSpan(text + rest, false, []), v)
  {
    assert (text + rest)[0] == text[0];
  }

  /** The next token of rs is one that agrees with t, and it leaves rest. */
  ghost predicate LexesTo(cls: Classes, rs: RuneSeq, v: Sym, t: Token<Sym>, rest: RuneSeq)
  {
    var l := JsonToken(cls, rs, v);
    l.ch == FIRST + t.code && l.rest == rest && Agrees(Token(t.code, l.val), t)
  }

  lemma StringLexes(cls: Classes, t: Token<Sym>, rest: RuneSeq, v: Sym)
    requires cls.Ascii() && t.code == STRING && Printable(t)
    ensures LexesTo(cls, TokenText(t) + rest, v, t, rest)
  {
    var s := ToRunes(t.val.str);
    var rs := TokenText(t) + rest;
    assert rs[0] == QUOTE && rs[1..] == EscapeAll(s) + [QUOTE] + rest;
    StringUndoesQuote(s, rest, []);
    TextUndoesToRunes(t.val.str);
    assert [] + s == s;
  }

  lemma KeywordLexes(cls: Classes, t: Token<Sym>, rest: RuneSeq, v: Sym)
    requires cls.Ascii() && IsKeyword(t.code) && Separates(cls, t.code, rest)
    ensures LexesTo(cls, TokenText(t) + rest, v, t, rest)
  {
    var w := KeywordText(t.code);
    KeywordScans(cls, w, rest, v);
    assert Keyword(w) == t.code;
  }

  lemma KeywordScans(cls: Classes, w: RuneSeq, rest: RuneSeq, v: Sym)
    requires cls.Ascii() && (w == TRUE_WORD || w == FALSE_WORD || w == NULL_WORD)
    requires rest == [] || (!cls.JsonWord(rest[0]) && rest[0] != NUL)
    ensures JsonToken(cls, w + rest, v) == TokenAt(cls, w + rest, v)
    ensures Word(w + rest, c => cls.JsonWord(c), []) == Span(w, rest) && (w + rest)[0] == w[0]
  {
    assert forall i :: 0 <= i < |w| ==> cls.letter(w[i]);
    WordReads(w, rest, c => cls.JsonWord(c), []);
    assert (w + rest)[0] == w[0] && [] + w == w;
  }

  lemma {:induction false} WordReads(w: RuneSeq, rest: RuneSeq, isWord: int -> bool, acc: RuneSeq)
    requires forall i :: 0 <= i < |w| ==> isWord(w[i]) && w[i] != NUL
    requires rest == [] || (rest[0] != NUL && !isWord(rest[0]))
    ensures Word(w + rest, isWord, acc) == Span(acc + w, rest)
    decreases |w|
  {
    if w == [] {
      assert w + rest == rest && acc + w == acc;
    } else {
      assert (w + rest)[1..] == w[1..] + rest;
      WordReads(w[1..], rest, isWord, acc + [w[0]]);
      assert acc + [w[0]] + w[1..] == acc + w;
    }
  }

  lemma SignLexes(cls: Classes, t: Token<Sym>, rest: RuneSeq, v: Sym)
    requires cls.Ascii() && IsSign(t.code)
    ensures LexesTo(cls, TokenText(t) + rest, v, t, rest)
  {
    var rs := TokenText(t) + rest;
    assert rs[0] == Sign(t.code) && rs[1..] == rest;
  }

  lemma ExponentLexes(cls: Classes, t: Token<Sym>, rest: RuneSeq, v: Sym)
    requires cls.Ascii() && IsExponent(t.code)
    ensures LexesTo(cls, TokenText(t) + rest, v, t, rest)
  {
    var rs := TokenText(t) + rest;
    assert rs[0] == LOWER_E && rs[1] == TokenText(t)[1] && rs[2..] == rest;
  }

  lemma TokenLexes(cls: Classes, t: Token<Sym>, rest: RuneSeq, v: Sym)
    requires cls.Ascii() && Printable(t) && Separates(cls, t.code, rest)
    ensures LexesTo(cls, TokenText(t) + rest, v, t, rest)
  {
    if IsNumber(t.code) {
      NumberLexes(cls, t, rest, v);
    } else if t.code == STRING {
      StringLexes(cls, t, rest, v);
    } else if IsKeyword(t.code) {
      KeywordLexes(cls, t, rest, v);
    } else if IsExponent(t.code) {
      ExponentLexes(cls, t, rest, v);
    } else {
      SignLexes(cls, t, rest, v);
    }
  }

  /** The text of a token sequence, with white space before each token and at the end. */
  function TokensText(p: seq<Token<Sym>>, ws: seq<RuneSeq>): RuneSeq
    requires |ws| == |p| + 1
  {
    if p == [] then ws[0] else ws[0] + (TokenText(p[0]) + TokensText(p[1..], ws[1..]))
  }

  /** The token would run into one with this code before it. */
  predicate RunsInto(previous: int, t: Token<Sym>)
  {
    if IsNumber(previous) then IsNumber(t.code)
    else IsKeyword(previous) && (IsNumber(t.code) || IsKeyword(t.code) || IsExponent(t.code) || t.code == MINUS)
  }

  /** White space, at least where two tokens would run together. */
  ghost predicate Spaced(p: seq<Token<Sym>>, ws: seq<RuneSeq>)
  {
    && |ws| == |p| + 1 && (forall i :: 0 <= i < |ws| ==> Blanks(ws[i]))
    && forall i :: 0 < i < |p| && RunsInto(p[i - 1].code, p[i]) ==> ws[i] != []
  }

  /** Lexing undoes writing: the text of printable tokens lexes to them. */
  lemma {:induction false} LexUndoesText(cls: Classes, p: seq<Token<Sym>>, ws: seq<RuneSeq>, v: Sym)
    requires cls.Ascii() && Spaced(p, ws) && forall i :: 0 <= i < |p| ==> Printable(p[i])
    ensures var all := AllTokens(cls, TokensText(p, ws), v);
            !all.failed && Matches(Tokens(TOK2, all.tokens), p)
    decreases |p|
  {
    if p == [] {
      BlanksSkipped(cls, ws[0], [], v);
      assert ws[0] + [] == ws[0];
    } else {
      var rest := TokensText(p[1..], ws[1..]);
      BlanksSkipped(cls, ws[0], TokenText(p[0]) + rest, v);
      SeparatorFollows(cls, p, ws);
      assert Spaced(p[1..], ws[1..]);
      TokenLexes(cls, p[0], rest, v);
      var l := JsonToken(cls, TokensText(p, ws), v);
      LexUndoesText(cls, p[1..], ws[1..], l.val);
      FirstMatches(cls, TokensText(p, ws), v, p, rest);
    }
  }

  lemma FirstMatches(cls: Classes, rs: RuneSeq, v: Sym, p: seq<Token<Sym>>, rest: RuneSeq)
    requires p != [] && Printable(p[0]) && LexesTo(cls, rs, v, p[0], rest)
    requires var more := AllTokens(cls, rest, JsonToken(cls, rs, v).val);
             !more.failed && Matches(Tokens(TOK2, more.tokens), p[1..])
    ensures var all := AllTokens(cls, rs, v);
            !all.failed && Matches(Tokens(TOK2, all.tokens), p)
  {
    var all := AllTokens(cls, rs, v);
    var more := AllTokens(cls, rest, JsonToken(cls, rs, v).val);
    assert all.tokens[1..] == more.tokens;
    forall i | 0 <= i < |p|
      ensures Agrees(Tokens(TOK2, all.tokens)[i], p[i])
    {
      if i > 0 {
        assert Agrees(Tokens(TOK2, more.tokens)[i - 1], p[1..][i - 1]);
      }
    }
  }

  /** What a token's text starts with. */
  lemma FirstRune(t: Token<Sym>)
    requires Printable(t)
    ensures var w := TokenText(t);
            && w != []
            && if IsNumber(t.code) then IsDigit(w[0]) else if t.code == STRING then w[0] == QUOTE
               else if IsExponent(t.code) then w[0] == LOWER_E
               else if IsKeyword(t.code) then w[0] == KeywordText(t.code)[0]
               else w[0] == Sign(t.code)
  {
    if t.code == NUMBER {
      DecimalDigits(t.val.num);
    }
  }

  lemma SeparatorFollows(cls: Classes, p: seq<Token<Sym>>, ws: seq<RuneSeq>)
    requires cls.Ascii() && Spaced(p, ws) && p != [] && forall i :: 0 <= i < |p| ==> Printable(p[i])
    ensures Separates(cls, p[0].code, TokensText(p[1..], ws[1..]))
  {
    var text := TokensText(p[1..], ws[1..]);
    if ws[1] != [] {
      assert Blank(ws[1][0]) && text[0] == ws[1][0];
    } else if |p| > 1 {
      FirstRune(p[1]);
      assert text[0] == TokenText(p[1])[0];
    }
  }

  ghost predicate NumberWrites(x: Objects.Number)
  {
    && NumberFits(x) && (x.Fraction? ==> x.f.Parsed? && FloatText(ToRunes(x.f.text)))
    && (x.exp.Some? ==> x.exp.value.digits <= MAX_INT64)
  }

  /** The value can be written: integers fit, floats have a literal, and no string holds a NUL. */
  ghost predicate Writable(j: Json)
  {
    match j
    case JNumber(x) => NumberWrites(x)
    case JString(s) => NUL !in ToRunes(s)
    case JArray(es) => forall e :: e in es ==> Writable(e)
    case JObject(fs) => forall f :: f in fs ==> NUL !in ToRunes(f.key) && Writable(f.value)
    case _ => true
  }

  lemma {:induction false} WritableRepresentable(j: Json)
    requires Writable(j)
    ensures Representable(j)
  {
    match j
    case JArray(es) =>
      forall e | e in es
        ensures Representable(e)
      {
        WritableRepresentable(e);
      }
    case JObject(fs) =>
      forall f | f in fs
        ensures Representable(f.value)
      {
        WritableRepresentable(f.value);
      }
    case _ =>
  }

  /** Tokens that can be written one after the other, even without white space. */
  ghost predicate Good(p: seq<Token<Sym>>)
  {
    && (forall i :: 0 <= i < |p| ==> Printable(p[i]))
    && forall i :: 0 < i < |p| ==> !RunsInto(p[i - 1].code, p[i])
  }

  lemma GoodConcat(p: seq<Token<Sym>>, q: seq<Token<Sym>>)
    requires Good(p) && Good(q)
    requires p != [] && q != [] ==> !RunsInto(p[|p| - 1].code, q[0])
    ensures Good(p + q)
  {
    var r := p + q;
    forall i | 0 <= i < |r|
      ensures Printable(r[i])
    {
      assert i >= |p| ==> r[i] == q[i - |p|];
    }
    forall i | 0 < i < |r|
      ensures !RunsInto(r[i - 1].code, r[i])
    {
      if i > |p| {
        assert r[i - 1] == q[i - 1 - |p|] && r[i] == q[i - |p|];
      }
    }
  }

  lemma NumberGood(x: Objects.Number)
    requires NumberWrites(x)
    ensures Good(PrintNumber(x)) && !IsExponent(PrintNumber(x)[0].code)
  {
    MantissaGood(x);
    if x.exp.Some? {
      GoodConcat(PrintMantissa(x), PrintExponent(x.exp.value));
    }
  }

  lemma MantissaGood(x: Objects.Number)
    requires NumberWrites(x)
    ensures var m := PrintMantissa(x);
            Good(m) && m != [] && !IsExponent(m[0].code) && IsNumber(m[|m| - 1].code)
    ensures x.exp.Some? ==> Good(PrintExponent(x.exp.value))
  {
  }

  lemma {:induction false} PrintGood(j: Json)
    requires Writable(j)
    ensures Good(Print(j))
    decreases j, 0
  {
    match j
    case JNumber(x) => NumberGood(x);
    case JArray(es) =>
      ElemsGood(es);
      Enclosed(LEFTBRACKET, PrintElems(es), RIGHTBRACKET);
    case JObject(fs) =>
      FieldsGood(fs);
      Enclosed(LEFTBRACE, PrintFields(fs), RIGHTBRACE);
    case _ =>
  }

  lemma Enclosed(open: int, p: seq<Token<Sym>>, close: int)
    requires Good(p) && IsSign(open) && (close == RIGHTBRACKET || close == RIGHTBRACE)
    ensures Good(Plain(open) + (p + Plain(close)))
  {
    if p != [] {
      GoodConcat(p, Plain(close));
    } else {
      assert p + Plain(close) == Plain(close);
    }
    GoodConcat(Plain(open), p + Plain(close));
  }

  lemma AppendsGood(p: seq<Token<Sym>>, q: seq<Token<Sym>>)
    requires Good(p) && Good(q) && p != [] && q != []
    ensures Good(p + (Plain(COMMA) + q))
  {
    GoodConcat(Plain(COMMA), q);
    GoodConcat(p, Plain(COMMA) + q);
  }

  lemma {:induction false} ElemsGood(es: seq<Json>)
    requires forall e :: e in es ==> Writable(e)
    ensures Good(PrintElems(es)) && (es != [] ==> PrintElems(es) != [])
    decreases es, 1
  {
    if |es| == 1 {
      PrintGood(es[0]);
    } else if |es| > 1 {
      ElemsGood(es[..|es| - 1]);
      PrintGood(es[|es| - 1]);
      AppendsGood(PrintElems(es[..|es| - 1]), Print(es[|es| - 1]));
    }
  }

  lemma {:induction false} FieldGood(f: Field)
    requires NUL !in ToRunes(f.key) && Writable(f.value)
    ensures Good(PrintField(f)) && PrintField(f) != []
    decreases f, 1
  {
    PrintGood(f.value);
    GoodConcat(Plain(COLON), Print(f.value));
    GoodConcat(Quote(f.key), Plain(COLON) + Print(f.value));
  }

  lemma {:induction false} FieldsGood(fs: seq<Field>)
    requires forall f :: f in fs ==> NUL !in ToRunes(f.key) && Writable(f.value)
    ensures Good(PrintFields(fs)) && (fs != [] ==> PrintFields(fs) != [])
    decreases fs, 2
  {
    if |fs| == 1 {
      FieldGood(fs[0]);
    } else if |fs| > 1 {
      FieldsGood(fs[..|fs| - 1]);
      FieldGood(fs[|fs| - 1]);
      AppendsGood(PrintFields(fs[..|fs| - 1]), PrintField(fs[|fs| - 1]));
    }
  }

  predicate HasMembers(j: Json) { j.JObject? && j.fields != [] }

  /** What the parser makes of repeated fields makes Elem(true) panic exactly in this case. */
  lemma {:induction false} ParsedClashes(fs: seq<Field>, g: nat)
    requires g < |Flat(FieldObjects(fs))|
    ensures var group := Groups(Keys(FieldObjects(fs)))[g];
            ObjectList.Clashes(Flat(FieldObjects(fs))[g]) <==>
              && HasMembers(fs[group[0]].value)
              && exists j :: 0 < j < |group| && !fs[group[j]].value.JArray? && !HasMembers(fs[group[j]].value)
  {
    var group := Groups(Keys(FieldObjects(fs)))[g];
    var chain := Flat(FieldObjects(fs))[g];
    forall j | 0 <= j < |group|
      ensures chain[j].value.ObjectValue? <==> HasMembers(fs[group[j]].value)
      ensures chain[j].value.ListValue? <==> fs[group[j]].value.JArray?
    {
      assert chain[j] == Object(fs[group[j]].key, Meaning(fs[group[j]].value));
    }
  }

  lemma {:induction false} TwiceClashes(fs: seq<Field>)
    requires |fs| == 2 && fs[0].key == fs[1].key && HasMembers(fs[0].value) && fs[1].value == JObject([])
    ensures |Flat(FieldObjects(fs))| == 1 && ObjectList.Clashes(Flat(FieldObjects(fs))[0])
  {
    OneGroup(Keys(FieldObjects(fs)));
    ParsedClashes(fs, 0);
    var group := Groups(Keys(FieldObjects(fs)))[0];
    assert group == [0, 1] && !fs[group[1]].value.JArray? && !HasMembers(fs[group[1]].value);
  }

  /** So texts like `{"a": {"b": 1}, "a": {}}` parse to an object whose members Elem(true) cannot give. */
  lemma {:induction false} ClashIsParsed(cls: Classes, fs: seq<Field>, ws: seq<RuneSeq>)
    requires cls.Ascii() && Writable(JObject(fs)) && |ws| == |Print(JObject(fs))| + 1
    requires forall i :: 0 <= i < |ws| ==> Blanks(ws[i])
    requires |fs| == 2 && fs[0].key == fs[1].key && HasMembers(fs[0].value) && fs[1].value == JObject([])
    ensures var chains := Flat(FieldObjects(fs));
            && Parsed(cls, TokensText(Print(JObject(fs)), ws)) == Some(Object("", ObjectValue(chains)))
            && |chains| == 1 && ObjectList.Clashes(chains[0])
  {
    ParseUndoesText(cls, fs, ws);
    TwiceClashes(fs);
  }

  /** Parsing text undoes writing it, for every object, whatever white space stands between its tokens. */
  lemma ParseUndoesText(cls: Classes, fs: seq<Field>, ws: seq<RuneSeq>)
    requires cls.Ascii() && Writable(JObject(fs)) && |ws| == |Print(JObject(fs))| + 1
    requires forall i :: 0 <= i < |ws| ==> Blanks(ws[i])
    ensures Parsed(cls, TokensText(Print(JObject(fs)), ws)) == Some(Object("", Meaning(JObject(fs))))
  {
    var p := Print(JObject(fs));
    var all := AllTokens(cls, TokensText(p, ws), ZERO);
    PrintGood(JObject(fs));
    LexUndoesText(cls, p, ws, ZERO);
    WritableRepresentable(JObject(fs));
    ParseUndoesPrint(fs, Tokens(TOK2, all.tokens));
  }

  lemma {:induction false} EscapeAllScalar(s: RuneSeq)
    requires Scalars(s)
    ensures Scalars(EscapeAll(s))
  {
    if s != [] {
      EscapeAllScalar(s[1..]);
    }
  }

  lemma TokenTextScalar(t: Token<Sym>)
    ensures Scalars(TokenText(t))
  {
    EscapeAllScalar(ToRunes(t.val.str));
  }

  lemma {:induction false} TokensTextScalar(p: seq<Token<Sym>>, ws: seq<RuneSeq>)
    requires |ws| == |p| + 1 && forall i :: 0 <= i < |ws| ==> Blanks(ws[i])
    ensures Scalars(TokensText(p, ws))
    decreases |p|
  {
    if p != [] {
      TokenTextScalar(p[0]);
      TokensTextScalar(p[1..], ws[1..]);
    }
  }

  /** The same for the UTF-8 bytes of the text. */
  lemma ParseUndoesBytes(cls: Classes, fs: seq<Field>, ws: seq<RuneSeq>)
    requires cls.Ascii() && Writable(JObject(fs)) && |ws| == |Print(JObject(fs))| + 1
    requires forall i :: 0 <= i < |ws| ==> Blanks(ws[i])
    ensures Scalars(TokensText(Print(JObject(fs)), ws))
    ensures Parsed(cls, Runes(EncodeAll(TokensText(Print(JObject(fs)), ws)))) == Some(Object("", Meaning(JObject(fs))))
  {
    var text := TokensText(Print(JObject(fs)), ws);
    ParseUndoesText(cls, fs, ws);
    TokensTextScalar(Print(JObject(fs)), ws);
    RunesEncodeAll(text, []);
    assert EncodeAll(text) + [] == EncodeAll(text) && text + Runes([]) == text;
  }
}
