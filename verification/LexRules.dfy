/**
 The lexical rules of the two lexers as functions on the runes still to be read. NUL reads
 as the end of the input.
 */
module LexRules {
  import opened Objects

  const NUL := 0
  const NEWLINE := 10
  const QUOTE := 34
  const HASH := 35
  const DOLLAR := 36
  const STAR := 42
  const PLUS := 43
  const COMMA_RUNE := 44
  const DASH := 45
  const DOT := 46
  const SLASH := 47
  const COLON_RUNE := 58
  const LESS := 60
  const EQUAL_RUNE := 61
  const UPPER_E := 69
  const LEFT_BRACKET := 91
  const BACKSLASH := 92
  const RIGHT_BRACKET := 93
  const UNDERSCORE := 95
  const LOWER_E := 101
  const LOWER_N := 110
  const LEFT_BRACE := 123
  const RIGHT_BRACE := 125

  type RuneSeq = seq<int>

  predicate IsDigit(c: int) { 48 <= c <= 57 }

  predicate Ended(rs: RuneSeq) { rs == [] || rs[0] == NUL }

  /** What the end of the input leaves: a NUL is read, the true end is not passed. */
  function AfterEnd(rs: RuneSeq): RuneSeq
    requires Ended(rs)
  {
    if rs == [] then [] else rs[1..]
  }

  /** A text that was read and the runes after it. */
  datatype Span = Span(text: RuneSeq, rest: RuneSeq)

  /** The rune an escape stands for, if it is one of the three known ones. */
  function Escaped(c: int): int
  {
    if c == QUOTE then QUOTE else if c == LOWER_N then NEWLINE else if c == BACKSLASH then BACKSLASH else -1
  }

  /** Reads one rune of a string, resolving an escape: the rune and how many runes it took. */
  function StringRune(rs: RuneSeq): (r: (int, nat))
    requires rs != []
    ensures 1 <= r.1 <= |rs| && r.1 <= 2
  {
    if rs[0] == BACKSLASH && |rs| > 1 && Escaped(rs[1]) >= 0 then (Escaped(rs[1]), 2) else (rs[0], 1)
  }

  /** The JSON string body up to its closing quote or the end of the input. */
  function JsonString(rs: RuneSeq, acc: RuneSeq): (s: Span)
    ensures |s.rest| <= |rs|
    decreases |rs|
  {
    if Ended(rs) then Span(acc, AfterEnd(rs))
    else if rs[0] == QUOTE then Span(acc, rs[1..])
    else JsonString(rs[StringRune(rs).1..], acc + [StringRune(rs).0])
  }

  datatype HclSpan = Closed(text: RuneSeq, rest: RuneSeq) | Broken(left: RuneSeq)
  {
    function Rest(): RuneSeq { if Closed? then rest else left }
  }

  /** The HCL string body: quotes inside ${..} do not end it, a raw newline breaks it. */
  function HclString(rs: RuneSeq, braces: nat, acc: RuneSeq): (s: HclSpan)
    ensures |s.Rest()| <= |rs|
    decreases |rs|
  {
    if Ended(rs) then Closed(acc, AfterEnd(rs))
    else if rs[0] == QUOTE && braces == 0 then Closed(acc, rs[1..])
    else if rs[0] == NEWLINE then Broken(rs[1..])
    else
      var (c, n) := StringRune(rs);
      var b := Brace(c, braces, rs[n..]);
      HclString(b.rest, b.braces, acc + b.text)
  }

  /** One rune of an HCL string with the interpolation braces it opens or closes. */
  datatype Braced = Braced(text: RuneSeq, braces: nat, rest: RuneSeq)

  function Brace(c: int, braces: nat, after: RuneSeq): (b: Braced)
    ensures |b.rest| <= |after|
  {
    if braces == 0 && c == DOLLAR && after != [] && after[0] == LEFT_BRACE then Braced([c, LEFT_BRACE], 1, after[1..])
    else if braces > 0 && c == LEFT_BRACE then Braced([c], braces + 1, after)
    else if braces > 0 && c == RIGHT_BRACE then Braced([c], braces - 1, after)
    else Braced([c], braces, after)
  }

  /** Digits with at most one period; a NUL after them is read. */
  datatype Number = Number(text: RuneSeq, isFloat: bool, rest: RuneSeq)

  function NumberSpan(rs: RuneSeq, gotPeriod: bool, acc: RuneSeq): (n: Number)
    ensures |n.rest| <= |rs| && (rs != [] && IsDigit(rs[0]) ==> |n.rest| < |rs|)
    decreases |rs|
  {
    if Ended(rs) then Number(acc, gotPeriod, AfterEnd(rs))
    else if rs[0] == DOT then
      if gotPeriod then Number(acc, gotPeriod, rs) else NumberSpan(rs[1..], true, acc + [DOT])
    else if !IsDigit(rs[0]) then Number(acc, gotPeriod, rs)
    else NumberSpan(rs[1..], gotPeriod, acc + [rs[0]])
  }

  function Digits(text: RuneSeq, base: int): int
  {
    if text == [] then 0 else Digits(text[..|text| - 1], base) * base + (text[|text| - 1] - 48)
  }

  /** strconv.ParseInt with base 0 on a text of digits: a leading 0 makes it octal. */
  function ParseInt(text: RuneSeq): int
  {
    if text == [] then -1
    else
      var base := if text[0] == 48 then 8 else 10;
      if exists i :: 0 <= i < |text| && text[i] - 48 >= base then -1
      else if Digits(text, base) > MAX_INT64 then -1
      else Digits(text, base)
  }

  /** An identifier: the longest run of word runes. */
  function Word(rs: RuneSeq, isWord: int -> bool, acc: RuneSeq): (w: Span)
    ensures |w.rest| <= |rs| && (w.text != acc ==> |w.rest| < |rs|)
    decreases |rs|
  {
    if Ended(rs) then Span(acc, AfterEnd(rs))
    else if !isWord(rs[0]) then Span(acc, rs)
    else Word(rs[1..], isWord, acc + [rs[0]])
  }

  /** The rest after a comment, or that it is malformed. */
  datatype Comment = After(rest: RuneSeq) | Malformed(left: RuneSeq)
  {
    function Rest(): RuneSeq { if After? then rest else left }
  }

  function LineComment(rs: RuneSeq): (rest: RuneSeq)
    ensures |rest| <= |rs|
    decreases |rs|
  {
    if Ended(rs) then rs else if rs[0] == NEWLINE then rs[1..] else LineComment(rs[1..])
  }

  /** The first star-slash ends a block comment, even a nested one; but slash-star is read as a unit. */
  function BlockComment(rs: RuneSeq): (c: Comment)
    ensures |c.Rest()| <= |rs|
    decreases |rs|
  {
    if Ended(rs) then Malformed(rs)
    else if rs[0] == SLASH && |rs| > 1 && rs[1] == STAR then BlockComment(rs[2..])
    else if rs[0] == STAR && |rs| > 1 && rs[1] == SLASH then After(rs[2..])
    else BlockComment(rs[1..])
  }

  /** A comment, from after its first rune. */
  function SkipComment(first: int, rs: RuneSeq): (c: Comment)
    ensures |c.Rest()| <= |rs|
  {
    if first == HASH then After(LineComment(rs))
    else if rs != [] && rs[0] == SLASH then After(LineComment(rs[1..]))
    else if rs != [] && rs[0] == STAR then BlockComment(rs[1..])
    else Malformed(rs)
  }

  /** How many runes of the marker the input starts with. */
  function Common(rs: RuneSeq, marker: RuneSeq): (m: nat)
    ensures m <= |rs| && m <= |marker| && rs[..m] == marker[..m]
    ensures m < |marker| && m < |rs| ==> rs[m] != marker[m]
  {
    if rs == [] || marker == [] || rs[0] != marker[0] then 0
    else
      var m := Common(rs[1..], marker[1..]);
      assert rs[..m + 1] == [rs[0]] + rs[1..][..m] && marker[..m + 1] == [marker[0]] + marker[1..][..m];
      1 + m
  }

  /** A heredoc that is closed by its marker, or an input that ends inside it. */
  datatype Heredoc = Body(text: RuneSeq, rest: RuneSeq) | Unfinished(left: RuneSeq)
  {
    function Rest(): RuneSeq { if Body? then rest else left }
  }

  /**
   The heredoc body. At the start of a line the marker closes it, if size, the length of the
   marker in bytes, is its length in runes; the rune after the marker is read as well.
   */
  function HeredocBody(rs: RuneSeq, marker: RuneSeq, size: nat, check: bool, acc: RuneSeq): (h: Heredoc)
    ensures |h.Rest()| <= |rs|
    decreases |rs|
  {
    var m := if check then Common(rs, marker) else 0;
    if check && m == size then Body(acc, if m < |rs| then rs[m + 1..] else [])
    else if Ended(rs[m..]) then Unfinished(AfterEnd(rs[m..]))
    else HeredocBody(rs[m + 1..], marker, size, rs[m] == NEWLINE, acc + rs[..m + 1])
  }

  /** The runes up to the first newline. */
  function MarkerLine(rs: RuneSeq, acc: RuneSeq): (h: Heredoc)
    ensures |h.Rest()| <= |rs|
    decreases |rs|
  {
    if Ended(rs) then Unfinished(AfterEnd(rs))
    else if rs[0] == NEWLINE then Body(acc, rs[1..])
    else MarkerLine(rs[1..], acc + [rs[0]])
  }

  /** The length of the UTF-8 encoding of the runes. */
  function ByteLength(rs: RuneSeq): (n: nat)
    ensures n >= |rs|
    ensures n == |rs| <==> forall i :: 0 <= i < |rs| ==> rs[i] < 0x80
  {
    if rs == [] then 0
    else
      var last := rs[|rs| - 1];
      var n := ByteLength(rs[..|rs| - 1]);
      n + if last < 0x80 then 1 else if last < 0x800 then 2 else if last < 0x1_0000 then 3 else 4
  }

  /** The outcome of a heredoc, and whether it is a lexical error. */
  datatype Here = Here(h: Heredoc, failed: bool)

  /** A heredoc, from after its first less-than sign. */
  function HeredocFrom(rs: RuneSeq): (h: Here)
    ensures |h.h.Rest()| <= |rs| && (h.h.Body? ==> !h.failed)
  {
    if rs == [] || rs[0] != LESS then Here(Unfinished(if rs == [] then [] else rs[1..]), true)
    else
      match MarkerLine(rs[1..], [])
      case Unfinished(left) => Here(Unfinished(left), false)
      case Body(marker, rest) =>
        if marker == [] then Here(Unfinished(rest), true)
        else Here(HeredocBody(rest, marker, ByteLength(marker), true, []), false)
  }
}
