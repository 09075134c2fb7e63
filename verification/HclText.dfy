/** Parsing HCL text, and what quoted strings and heredocs lex to. */
module HclText {
  import opened Bytes
  import opened HclLexer
  import opened HclParser
  import opened LexRules
  import opened Lexer
  import opened Utf8
  import opened Wrappers
  import opened Engine
  import opened Lalr
  import opened Objects
  import JsonLexer
  import JsonText
  import HclTables

  /** All tokens of a text up to the end or a lexical error. */
  datatype Lexemes = Lexemes(tokens: seq<Lexeme<Sym>>, failed: bool)

  function AllTokens(cls: Classes, rs: RuneSeq, v: Sym, lastNumber: bool): (all: Lexemes)
    ensures |all.tokens| <= |rs|
    decreases |rs|
  {
    var t := HclToken(cls, rs, v, lastNumber);
    if t.ch == 0 then Lexemes([], t.failed)
    else Prefixed([Lexeme(t.ch, t.val)], AllTokens(cls, t.rest, t.val, t.lastNumber))
  }

  function Prefixed(before: seq<Lexeme<Sym>>, more: Lexemes): Lexemes { Lexemes(before + more.tokens, more.failed) }

  lemma {:induction false} CodesFit(cls: Classes, rs: RuneSeq, v: Sym, lastNumber: bool, i: nat)
    requires i < |AllTokens(cls, rs, v, lastNumber).tokens|
    ensures var ch := AllTokens(cls, rs, v, lastNumber).tokens[i].ch;
            ch > 0 && Code(TOK2, ch) == ch - FIRST > ERR_CODE
    decreases i
  {
    var t := HclToken(cls, rs, v, lastNumber);
    if i > 0 {
      CodesFit(cls, t.rest, t.val, t.lastNumber, i - 1);
    }
  }

  lemma InputFits(cls: Classes, rs: RuneSeq)
    ensures Inv(HclTables.LR, Init(Tokens(TOK2, AllTokens(cls, rs, ZERO, false).tokens)))
  {
    HclTables.Certified();
    forall i | 0 <= i < |AllTokens(cls, rs, ZERO, false).tokens|
      ensures Code(TOK2, AllTokens(cls, rs, ZERO, false).tokens[i].ch) > ERR_CODE
    {
      CodesFit(cls, rs, ZERO, false, i);
    }
  }

  /** What parsing a text yields: nothing if the lexer or the grammar rejects it. */
  ghost function Parsed(cls: Classes, rs: RuneSeq): Option<Object>
  {
    var all := AllTokens(cls, rs, ZERO, false);
    InputFits(cls, rs);
    StartStores();
    if all.failed then None
    else
      match Run(HclTables.LR, Init(Tokens(TOK2, all.tokens)))
      case Accepted(d) => ResultOf(ACTIONS, d)
      case Rejected => None
  }

  /** The tree derives the tokens in the grammar of the tables, and its actions store the object. */
  ghost predicate Derives(d: Tree<Sym>, w: seq<Token<Sym>>, o: Object)
  {
    Parses(HclTables.LR, d, w) && ResultOf(ACTIONS, d) == Some(o)
  }

  /** A text parses to an object exactly when its tokens have a derivation whose actions store that object. */
  lemma ParsesExactly(cls: Classes, rs: RuneSeq, o: Object)
    ensures var all := AllTokens(cls, rs, ZERO, false);
            Parsed(cls, rs) == Some(o) <==> !all.failed && exists d :: Derives(d, Tokens(TOK2, all.tokens), o)
  {
    var all := AllTokens(cls, rs, ZERO, false);
    var w := Tokens(TOK2, all.tokens);
    InputFits(cls, rs);
    StartStores();
    AcceptsExactly(HclTables.LR, w);
    if Parsed(cls, rs) == Some(o) {
      assert Derives(Run(HclTables.LR, Init(w)).tree, w, o);
    }
    if d :| Derives(d, w, o) {
      assert Run(HclTables.LR, Init(w)) == Accepted(d);
    }
  }

  lemma NextToken(cls: Classes, rs: RuneSeq, v: Sym, lastNumber: bool, before: seq<Lexeme<Sym>>)
    ensures var t := HclToken(cls, rs, v, lastNumber);
            Prefixed(before, AllTokens(cls, rs, v, lastNumber))
            == if t.ch == 0 then Lexemes(before, t.failed)
               else Prefixed(before + [Lexeme(t.ch, t.val)], AllTokens(cls, t.rest, t.val, t.lastNumber))
  {
    var t := HclToken(cls, rs, v, lastNumber);
    if t.ch == 0 {
      assert before + [] == before;
    } else {
      var more := AllTokens(cls, t.rest, t.val, t.lastNumber).tokens;
      assert before + ([Lexeme(t.ch, t.val)] + more) == before + [Lexeme(t.ch, t.val)] + more;
    }
  }

  method LexAll(x: Reader) returns (lexemes: seq<Lexeme<Sym>>)
    requires x.Valid() && !x.failed
    modifies x
    ensures Lexemes(lexemes, x.failed) == AllTokens(x.classes, old(x.Rest()), ZERO, false)
  {
    ghost var all := AllTokens(x.classes, x.Rest(), ZERO, false);
    assert [] + all.tokens == all.tokens;
    lexemes := [];
    var v, last, more := ZERO, false, true;
    while more
      invariant x.Valid() && (more ==> !x.failed)
      invariant all == if more then Prefixed(lexemes, AllTokens(x.classes, x.Rest(), v, last))
                else Lexemes(lexemes, x.failed)
      decreases more, |x.Input| - x.pos
    {
      lexemes, v, last, more := LexOne(x, lexemes, v, last, all);
    }
  }

  /** Reads one more token, or finds the end. */
  method LexOne(x: Reader, before: seq<Lexeme<Sym>>, v: Sym, last: bool, ghost all: Lexemes)
    returns (lexemes: seq<Lexeme<Sym>>, val: Sym, last': bool, more: bool)
    requires x.Valid() && !x.failed && all == Prefixed(before, AllTokens(x.classes, x.Rest(), v, last))
    modifies x
    ensures x.Valid() && (more ==> !x.failed && x.pos > old(x.pos))
    ensures all == if more then Prefixed(lexemes, AllTokens(x.classes, x.Rest(), val, last'))
            else Lexemes(lexemes, x.failed)
  {
    NextToken(x.classes, x.Rest(), v, last, before);
    var ch;
    ch, val, last' := Lex(x, v, last);
    more := ch != 0;
    lexemes := if more then before + [Lexeme(ch, val)] else before;
  }

  /** hcl.Parse. The tokens are all read first; the source reads them as the automaton asks for them. */
  method ParseText(input: seq<byte>, cls: Classes) returns (r: Option<Object>)
    ensures r == Parsed(cls, Runes(input))
  {
    var x := new Reader(input, cls);
    assert input[0..] == input;
    var lexemes := LexAll(x);
    forall i | 0 <= i < |lexemes|
      ensures lexemes[i].ch > 0 && Code(TOK2, lexemes[i].ch) > ERR_CODE
    {
      CodesFit(cls, Runes(input), ZERO, false, i);
    }
    StartStores();
    var code, result := Engine.Parse(HclTables.LR, ACTIONS, TOK2, lexemes);
    r := if x.failed || code != 0 then None else result;
  }

  /** How many interpolation braces are open after a string that starts with braces open. */
  function Depth(s: RuneSeq, braces: nat): nat
    decreases |s|
  {
    if s == [] then braces
    else
      var b := Brace(s[0], braces, s[1..]);
      Depth(b.rest, b.braces)
  }

  /** The quoted form of a string, up to its closing quote and what follows. */
  function Quoted(s: RuneSeq, rest: RuneSeq): RuneSeq { JsonText.EscapeAll(s) + ([QUOTE] + rest) }

  lemma QuotedStep(s: RuneSeq, rest: RuneSeq)
    requires s != []
    ensures var e := JsonText.Escape(s[0]);
            Quoted(s, rest) == e + Quoted(s[1..], rest) && Quoted(s, rest)[|e|..] == Quoted(s[1..], rest)
  {
  }

  /** An escaped rune is read as the rune it stands for. */
  lemma ReadsEscape(s: RuneSeq, rest: RuneSeq)
    requires s != [] && s[0] != NUL
    ensures var rs := Quoted(s, rest);
            && rs[0] != NUL && rs[0] != NEWLINE && rs[0] != QUOTE
            && StringRune(rs) == (s[0], |JsonText.Escape(s[0])|)
  {
    QuotedStep(s, rest);
    var e := JsonText.Escape(s[0]);
    assert Quoted(s, rest)[..|e|] == e;
  }

  /** Quoting does not change which braces a rune opens or closes. */
  lemma SameBraces(c: int, braces: nat, s: RuneSeq, rest: RuneSeq)
    ensures var b := Brace(c, braces, s);
            Brace(c, braces, Quoted(s, rest)) == Braced(b.text, b.braces, Quoted(b.rest, rest))
  {
    if s == [] {
      assert Quoted(s, rest)[0] == QUOTE;
    } else {
      QuotedStep(s, rest);
      assert Quoted(s, rest)[0] == JsonText.Escape(s[0])[0];
      assert s[0] == LEFT_BRACE ==> Quoted(s, rest)[1..] == Quoted(s[1..], rest);
    }
  }

  /** One rune of the body of a quoted string is read. */
  lemma ReadsOne(s: RuneSeq, rest: RuneSeq, braces: nat, acc: RuneSeq)
    requires s != [] && s[0] != NUL
    ensures var b := Brace(s[0], braces, s[1..]);
            HclString(Quoted(s, rest), braces, acc) == HclString(Quoted(b.rest, rest), b.braces, acc + b.text)
  {
    QuotedStep(s, rest);
    ReadsEscape(s, rest);
    SameBraces(s[0], braces, s[1..], rest);
    var rs := Quoted(s, rest);
    OneRune(rs, braces, acc, s[0], |JsonText.Escape(s[0])|);
  }

  lemma OneRune(rs: RuneSeq, braces: nat, acc: RuneSeq, c: int, n: nat)
    requires !Ended(rs) && rs[0] != QUOTE && rs[0] != NEWLINE && StringRune(rs) == (c, n)
    ensures var b := Brace(c, braces, rs[n..]); HclString(rs, braces, acc) == HclString(b.rest, b.braces, acc + b.text)
  {
  }

  /** The body of a quoted string is read up to its closing quote with the braces it leaves open. */
  lemma {:induction false} ReadsQuoted(s: RuneSeq, rest: RuneSeq, braces: nat, acc: RuneSeq)
    requires NUL !in s
    ensures HclString(Quoted(s, rest), braces, acc) == HclString([QUOTE] + rest, Depth(s, braces), acc + s)
    decreases |s|
  {
    if s == [] {
      assert Quoted(s, rest) == [QUOTE] + rest && acc + s == acc;
    } else {
      var b := Brace(s[0], braces, s[1..]);
      TakesApart(s, braces, acc);
      ReadsOne(s, rest, braces, acc);
      ReadsQuoted(b.rest, rest, b.braces, acc + b.text);
    }
  }

  lemma TakesApart(s: RuneSeq, braces: nat, acc: RuneSeq)
    requires s != []
    ensures var b := Brace(s[0], braces, s[1..]);
            acc + b.text + b.rest == acc + s && (NUL !in s ==> NUL !in b.rest)
                && Depth(s, braces) == Depth(b.rest, b.braces)
  {
  }

  lemma {:induction false} TextGrows(rs: RuneSeq, braces: nat, acc: RuneSeq)
    ensures var h := HclString(rs, braces, acc);
            h.Closed? ==> |h.text| >= |acc|
    decreases |rs|
  {
    if !Ended(rs) && !(rs[0] == QUOTE && braces == 0) && rs[0] != NEWLINE {
      var (c, n) := StringRune(rs);
      var b := Brace(c, braces, rs[n..]);
      TextGrows(b.rest, b.braces, acc + b.text);
    }
  }

  /**
   Lexing undoes quoting exactly for the strings that close every interpolation they open,
   so in particular for all without a dollar sign before a brace.
   */
  lemma StringUndoesQuote(s: RuneSeq, rest: RuneSeq)
    requires NUL !in s
    ensures HclString(JsonText.EscapeAll(s) + ([QUOTE] + rest), 0, []) == Closed(s, rest) <==> Depth(s, 0) == 0
  {
    ReadsQuoted(s, rest, 0, []);
    assert [] + s == s;
    var d := Depth(s, 0);
    assert ([QUOTE] + rest)[1..] == rest;
    if d > 0 {
      assert StringRune([QUOTE] + rest) == (QUOTE, 1);
      TextGrows(rest, d, s + [QUOTE]);
    }
  }

  lemma {:induction false} NoInterpolation(s: RuneSeq)
    requires forall i :: 0 <= i < |s| - 1 && s[i] == DOLLAR ==> s[i + 1] != LEFT_BRACE
    ensures Depth(s, 0) == 0
  {
    if s != [] {
      assert |s| > 1 && s[0] == DOLLAR ==> s[1] != LEFT_BRACE;
      NoInterpolation(s[1..]);
    }
  }

  /** Complete lines, none of which starts with the marker, from the start of a line or within one. */
  ghost predicate Lines(body: RuneSeq, marker: RuneSeq, atStart: bool)
    decreases |body|
  {
    if body == [] then atStart
    else (atStart ==> !(marker <= body)) && body[0] != NUL && Lines(body[1..], marker, body[0] == NEWLINE)
  }

  ghost predicate GoodMarker(marker: RuneSeq)
  {
    marker != [] && forall i :: 0 <= i < |marker| ==> 0 < marker[i] < 0x80 && marker[i] != NEWLINE
  }

  lemma {:induction false} LinesDrop(body: RuneSeq, marker: RuneSeq, atStart: bool, k: nat)
    requires Lines(body, marker, atStart) && 0 < k <= |body|
    ensures Lines(body[k..], marker, body[k - 1] == NEWLINE)
    decreases k
  {
    if k > 1 {
      LinesDrop(body[1..], marker, body[0] == NEWLINE, k - 1);
      assert body[1..][k - 1..] == body[k..];
    }
  }

  /** Before its closing line a heredoc body has a newline, which no marker has. */
  lemma {:induction false} LinesEnd(body: RuneSeq, marker: RuneSeq, atStart: bool)
    requires Lines(body, marker, atStart) && body != []
    ensures body[|body| - 1] == NEWLINE
    decreases |body|
  {
    if |body| > 1 {
      LinesEnd(body[1..], marker, body[0] == NEWLINE);
    }
  }

  lemma {:induction false} LinesNoNul(body: RuneSeq, marker: RuneSeq, atStart: bool, i: nat)
    requires Lines(body, marker, atStart) && i < |body|
    ensures body[i] != NUL
    decreases i
  {
    if i > 0 {
      LinesNoNul(body[1..], marker, body[0] == NEWLINE, i - 1);
    }
  }

  /** A heredoc lexes to its body. */
  lemma {:induction false} HeredocReads(body: RuneSeq, marker: RuneSeq, tail: RuneSeq, atStart: bool, acc: RuneSeq)
    requires GoodMarker(marker) && Lines(body, marker, atStart)
    ensures HeredocBody(body + marker + tail, marker, |marker|, atStart, acc)
            == Body(acc + body, if tail == [] then [] else tail[1..])
    decreases |body|
  {
    if body == [] {
      Closes(marker, tail, acc);
      assert body + marker == marker && acc + body == acc;
    } else {
      var m := Matched(body + marker + tail, marker, atStart);
      ReadsMatch(body, marker, tail, atStart, acc, m);
      HeredocReads(body[m + 1..], marker, tail, body[m] == NEWLINE, acc + body[..m + 1]);
    }
  }

  function Matched(rs: RuneSeq, marker: RuneSeq, check: bool): nat { if check then Common(rs, marker) else 0 }

  lemma Closes(marker: RuneSeq, tail: RuneSeq, acc: RuneSeq)
    ensures HeredocBody(marker + tail, marker, |marker|, true, acc) == Body(acc, if tail == [] then [] else tail[1..])
  {
    var rs := marker + tail;
    CommonIs(rs, marker, |marker|);
    assert tail != [] ==> rs[|marker| + 1..] == tail[1..];
  }

  lemma ReadsMatch(body: RuneSeq, marker: RuneSeq, tail: RuneSeq, atStart: bool, acc: RuneSeq, m: nat)
    requires GoodMarker(marker) && body != [] && Lines(body, marker, atStart)
    requires m == Matched(body + marker + tail, marker, atStart)
    ensures m < |body| && Lines(body[m + 1..], marker, body[m] == NEWLINE)
    ensures acc + body[..m + 1] + body[m + 1..] == acc + body
    ensures HeredocBody(body + marker + tail, marker, |marker|, atStart, acc)
         == HeredocBody(body[m + 1..] + marker + tail, marker, |marker|, body[m] == NEWLINE, acc + body[..m + 1])
  {
    MarkerDiffers(body, marker, tail, atStart);
    LinesNoNul(body, marker, atStart, m);
    LinesDrop(body, marker, atStart, m + 1);
    Splits(body, marker, tail, acc, m);
    OneMatch(body + marker + tail, marker, |marker|, atStart, acc, m);
  }

  /** The rune after the part that agrees with the marker is taken into the body with it. */
  lemma OneMatch(rs: RuneSeq, marker: RuneSeq, size: nat, check: bool, acc: RuneSeq, m: nat)
    requires m == Matched(rs, marker, check) && m < size && m < |rs| && rs[m] != NUL
    ensures HeredocBody(rs, marker, size, check, acc)
            == HeredocBody(rs[m + 1..], marker, size, rs[m] == NEWLINE, acc + rs[..m + 1])
  {
  }

  lemma Splits(body: RuneSeq, marker: RuneSeq, tail: RuneSeq, acc: RuneSeq, m: nat)
    requires m < |body|
    ensures var rs := body + marker + tail;
            && rs[m] == body[m] && rs[..m + 1] == body[..m + 1] && rs[m + 1..] == body[m + 1..] + marker + tail
            && acc + body[..m + 1] + body[m + 1..] == acc + body
  {
  }

  /** What agrees with the marker ends inside the body. */
  lemma MarkerDiffers(body: RuneSeq, marker: RuneSeq, tail: RuneSeq, atStart: bool)
    requires GoodMarker(marker) && body != [] && Lines(body, marker, atStart)
    ensures Matched(body + marker + tail, marker, atStart) < |body|
    ensures Matched(body + marker + tail, marker, atStart) < |marker|
  {
    var rs := body + marker + tail;
    LinesEnd(body, marker, atStart);
    CommonAgrees(rs, marker, |body| - 1);
    CommonWhole(rs, body, marker);
  }

  lemma CommonAgrees(rs: RuneSeq, marker: RuneSeq, i: nat)
    ensures i < Common(rs, marker) ==> rs[i] == marker[i]
  {
    var m := Common(rs, marker);
    if i < m {
      assert rs[..m][i] == marker[..m][i];
    }
  }

  lemma CommonWhole(rs: RuneSeq, body: RuneSeq, marker: RuneSeq)
    requires body <= rs
    ensures Common(rs, marker) == |marker| && |marker| <= |body| ==> marker <= body
  {
    var m := Common(rs, marker);
    if m == |marker| && m <= |body| {
      assert rs[..m] == body[..m] && marker[..m] == marker;
    }
  }

  lemma {:induction false} MarkerReads(marker: RuneSeq, rest: RuneSeq, acc: RuneSeq)
    requires forall i :: 0 <= i < |marker| ==> marker[i] != NUL && marker[i] != NEWLINE
    ensures MarkerLine(marker + [NEWLINE] + rest, acc) == Body(acc + marker, rest)
    decreases |marker|
  {
    var rs := marker + [NEWLINE] + rest;
    if marker == [] {
      assert rs == [NEWLINE] + rest && rs[1..] == rest && acc + marker == acc;
    } else {
      assert rs[1..] == marker[1..] + [NEWLINE] + rest;
      MarkerReads(marker[1..], rest, acc + [marker[0]]);
      assert acc + [marker[0]] + marker[1..] == acc + marker;
    }
  }

  lemma HeredocOpens(marker: RuneSeq, body: RuneSeq, tail: RuneSeq)
    requires GoodMarker(marker) && Lines(body, marker, true)
    ensures HeredocFrom([LESS] + (marker + [NEWLINE] + (body + marker + tail)))
            == Here(Body(body, if tail == [] then [] else tail[1..]), false)
  {
    var doc := body + marker + tail;
    var rs := [LESS] + (marker + [NEWLINE] + doc);
    assert rs[1..] == marker + [NEWLINE] + doc;
    MarkerReads(marker, doc, []);
    assert [] + marker == marker && [] + body == body;
    HeredocReads(body, marker, tail, true, []);
  }

  /** The token of a whole heredoc; the rune after the closing marker is read with it. */
  lemma HeredocLexes(cls: Classes, marker: RuneSeq, body: RuneSeq, tail: RuneSeq, v: Sym, lastNumber: bool)
    requires cls.Ascii() && GoodMarker(marker) && Lines(body, marker, true)
    ensures HclToken(cls, [LESS] + ([LESS] + (marker + [NEWLINE] + (body + marker + tail))), v, lastNumber)
            == Lexed(FIRST + STRING, v.(str := JsonLexer.Text(body)), if tail == [] then [] else tail[1..],
                     false, false)
  {
    var inner := [LESS] + (marker + [NEWLINE] + (body + marker + tail));
    assert ([LESS] + inner)[1..] == inner;
    HeredocOpens(marker, body, tail);
  }

  /** A marker with a rune beyond ASCII never closes its heredoc, since its bytes are counted against runes. */
  lemma {:induction false} WideMarkerNeverCloses(rs: RuneSeq, marker: RuneSeq, check: bool, acc: RuneSeq)
    requires exists i :: 0 <= i < |marker| && marker[i] >= 0x80
    ensures HeredocBody(rs, marker, ByteLength(marker), check, acc).Unfinished?
    decreases |rs|
  {
    var m := if check then Common(rs, marker) else 0;
    if !Ended(rs[m..]) {
      WideMarkerNeverCloses(rs[m + 1..], marker, rs[m] == NEWLINE, acc + rs[..m + 1]);
    }
  }

  /** A line comment is skipped with its newline, so the token after it is next. */
  lemma LineCommentSkipped(cls: Classes, body: RuneSeq, rest: RuneSeq, v: Sym, lastNumber: bool)
    requires cls.Ascii() && NEWLINE !in body && NUL !in body
    ensures HclToken(cls, [HASH] + (body + [NEWLINE] + rest), v, lastNumber) == HclToken(cls, rest, v, lastNumber)
    ensures HclToken(cls, [SLASH] + ([SLASH] + (body + [NEWLINE] + rest)), v, lastNumber)
            == HclToken(cls, rest, v, lastNumber)
  {
    var line := body + [NEWLINE] + rest;
    LineReads(body, rest);
    assert ([HASH] + line)[1..] == line;
    assert ([SLASH] + ([SLASH] + line))[1..] == [SLASH] + line && ([SLASH] + line)[1..] == line;
  }

  lemma {:induction false} LineReads(body: RuneSeq, rest: RuneSeq)
    requires NEWLINE !in body && NUL !in body
    ensures LineComment(body + [NEWLINE] + rest) == rest
    decreases |body|
  {
    var rs := body + [NEWLINE] + rest;
    if body == [] {
      assert rs[1..] == rest;
    } else {
      assert rs[0] == body[0] && rs[1..] == body[1..] + [NEWLINE] + rest;
      LineReads(body[1..], rest);
    }
  }

  /** Nothing in the body ends the input or the comment. */
  ghost predicate CommentBody(body: RuneSeq)
  {
    NUL !in body && forall i :: 0 <= i < |body| - 1 && body[i] == STAR ==> body[i + 1] != SLASH
  }

  predicate EndsInSlash(body: RuneSeq) { body != [] && body[|body| - 1] == SLASH }

  lemma {:induction false} ClosingTakesTwo(rs: RuneSeq)
    ensures BlockComment(rs).After? ==> |BlockComment(rs).Rest()| + 2 <= |rs|
    decreases |rs|
  {
    if !Ended(rs) {
      var opens := rs[0] == SLASH && |rs| > 1 && rs[1] == STAR;
      ClosingTakesTwo(if opens then rs[2..] else rs[1..]);
    }
  }

  /**
   The first star-slash ends a block comment exactly when no slash stands before it: such a
   slash is read with the star, and the comment goes on.
   */
  lemma {:induction false} FirstStarSlashEnds(body: RuneSeq, rest: RuneSeq)
    requires CommentBody(body)
    ensures BlockComment(body + [STAR, SLASH] + rest) == After(rest) <==> !EndsInSlash(body)
    decreases |body|
  {
    var rs := body + [STAR, SLASH] + rest;
    if body == [] {
      assert rs[0] == STAR && rs[1] == SLASH && rs[2..] == rest;
    } else if body == [SLASH] {
      assert rs[0] == SLASH && rs[1] == STAR && rs[2..] == [SLASH] + rest;
      ClosingTakesTwo([SLASH] + rest);
    } else {
      assert rs[0] == body[0] && rs[1] == (if |body| > 1 then body[1] else STAR);
      var k := if body[0] == SLASH && body[1] == STAR then 2 else 1;
      assert rs[k..] == body[k..] + [STAR, SLASH] + rest;
      FirstStarSlashEnds(body[k..], rest);
    }
  }

  /** A block comment is skipped up to its first star-slash, so the token after it is next. */
  lemma BlockCommentSkipped(cls: Classes, body: RuneSeq, rest: RuneSeq, v: Sym, lastNumber: bool)
    requires cls.Ascii() && CommentBody(body) && !EndsInSlash(body)
    ensures HclToken(cls, [SLASH] + ([STAR] + (body + [STAR, SLASH] + rest)), v, lastNumber)
            == HclToken(cls, rest, v, lastNumber)
  {
    var block := body + [STAR, SLASH] + rest;
    FirstStarSlashEnds(body, rest);
    assert ([SLASH] + ([STAR] + block))[1..] == [STAR] + block && ([STAR] + block)[1..] == block;
  }
}
