/**
 HCL documents and the round trip of their grammar: the tokens a document prints to are accepted,
 and all that its 38 productions build is the objects of the document.
 */
module HclSyntax {
  import opened Engine
  import opened HclParser
  import opened Lalr
  import opened Objects
  import opened Wrappers
  import HclTables

  datatype Name = Identifier(s: string) | Literal(s: string)

  datatype Elem = ElemNumber(x: Number) | ElemString(s: string) | ElemBool(b: bool) | ElemNull

  /** A block has a body, or is nested in another name. */
  datatype Item = Assign(key: Name, value: Val) | Block(id: Name, body: seq<Item>) | Nested(id: Name, inner: Item)

  datatype Val = Num(x: Number) | Str(s: string) | Bool(b: bool) | Null | Obj(items: seq<Item>)
      | List(elems: seq<Elem>, comma: bool)

  predicate ElemFits(e: Elem) { e.ElemNumber? ==> NumberFits(e.x) }

  predicate ValFits(v: Val)
  {
    match v
    case Num(x) => NumberFits(x)
    case Obj(items) => forall i :: i in items ==> ItemFits(i)
    case List(elems, comma) => (comma ==> elems != []) && forall e :: e in elems ==> ElemFits(e)
    case _ => true
  }

  predicate ItemFits(i: Item)
  {
    match i
    case Assign(_, v) => ValFits(v)
    case Block(_, body) => forall j :: j in body ==> ItemFits(j)
    case Nested(_, inner) => !inner.Assign? && ItemFits(inner)
  }

  function ElemValue(e: Elem): Value
  {
    match e
    case ElemNumber(x) => NumberValue(x)
    case ElemString(s) => StringValue(s)
    case ElemBool(b) => BoolValue(b)
    case ElemNull => NilValue
  }

  function ElemObjects(elems: seq<Elem>): (r: seq<Object>)
    ensures |r| == |elems|
  {
    if elems == [] then [] else ElemObjects(elems[..|elems| - 1]) + [Object("", ElemValue(elems[|elems| - 1]))]
  }

  /** The value of the members of an object or of a whole document. */
  function BodyValue(items: seq<Item>): Value
    decreases items, 1
  {
    if items == [] then Empty else ObjectValue(Flat(ItemObjects(items)))
  }

  function ItemObjects(items: seq<Item>): (r: seq<Object>)
    ensures |r| == |items|
    decreases items, 0
  {
    if items == [] then [] else ItemObjects(items[..|items| - 1]) + [ItemObject(items[|items| - 1])]
  }

  function ItemObject(i: Item): Object
    decreases i
  {
    match i
    case Assign(key, v) => Object(key.s, ValValue(v))
    case Block(id, body) => Object(id.s, BodyValue(body))
    case Nested(id, inner) => Object(id.s, ObjectValue([[ItemObject(inner)]]))
  }

  function ValValue(v: Val): Value
    decreases v
  {
    match v
    case Num(x) => NumberValue(x)
    case Str(s) => StringValue(s)
    case Bool(b) => BoolValue(b)
    case Null => NilValue
    case Obj(items) => BodyValue(items)
    case List(elems, _) => ListValue(ElemObjects(elems))
  }

  function Plain(code: int): seq<Token<Sym>> { [Token(code, ZERO)] }

  function Text(code: int, s: string): seq<Token<Sym>> { [Token(code, ZERO.(str := s))] }

  function Digits(n: int): seq<Token<Sym>> { [Token(NUMBER, ZERO.(num := n))] }

  function PrintName(k: Name): seq<Token<Sym>> { Text(if k.Identifier? then IDENTIFIER else STRING, k.s) }

  function PrintExponent(e: Exponent): seq<Token<Sym>>
  {
    Plain(if e.negative then EMINUS else EPLUS) + Digits(e.digits)
  }

  function PrintMantissa(x: Number): seq<Token<Sym>>
  {
    match x
    case Whole(n, _) => if n < 0 then Plain(MINUS) + Digits(-n) else Digits(n)
    case Fraction(negative, f, _) =>
      if negative then Plain(MINUS) + [Token(FLOAT, ZERO.(f := f))] else [Token(FLOAT, ZERO.(f := f))]
  }

  function PrintNumber(x: Number): seq<Token<Sym>>
  {
    if x.exp.None? then PrintMantissa(x) else PrintMantissa(x) + PrintExponent(x.exp.value)
  }

  function PrintElem(e: Elem): seq<Token<Sym>>
  {
    match e
    case ElemNumber(x) => PrintNumber(x)
    case ElemString(s) => Text(STRING, s)
    case ElemBool(b) => [Token(BOOL, ZERO.(b := b))]
    case ElemNull => Plain(NULL)
  }

  function PrintElems(elems: seq<Elem>): seq<Token<Sym>>
  {
    if elems == [] then []
    else if |elems| == 1 then PrintElem(elems[0])
    else PrintElems(elems[..|elems| - 1]) + (Plain(COMMA) + PrintElem(elems[|elems| - 1]))
  }

  function PrintList(elems: seq<Elem>, comma: bool): seq<Token<Sym>>
  {
    Plain(LEFTBRACKET)
    + if elems == [] then Plain(RIGHTBRACKET)
      else PrintElems(elems) + if comma then Plain(COMMA) + Plain(RIGHTBRACKET) else Plain(RIGHTBRACKET)
  }

  function PrintBody(items: seq<Item>): seq<Token<Sym>>
    decreases items, 1
  {
    Plain(LEFTBRACE) + (PrintItems(items) + Plain(RIGHTBRACE))
  }

  function PrintItems(items: seq<Item>): seq<Token<Sym>>
    decreases items, 0
  {
    if items == [] then [] else PrintItems(items[..|items| - 1]) + PrintItem(items[|items| - 1])
  }

  function PrintItem(i: Item): seq<Token<Sym>>
    decreases i
  {
    match i
    case Assign(key, v) => PrintName(key) + (Plain(EQUAL) + PrintVal(v))
    case Block(id, body) => PrintName(id) + PrintBody(body)
    case Nested(id, inner) => PrintName(id) + PrintItem(inner)
  }

  function PrintVal(v: Val): seq<Token<Sym>>
    decreases v
  {
    match v
    case Num(x) => PrintNumber(x)
    case Str(s) => Text(STRING, s)
    case Bool(b) => [Token(BOOL, ZERO.(b := b))]
    case Null => Plain(NULL)
    case Obj(items) => PrintBody(items)
    case List(elems, comma) => PrintList(elems, comma)
  }

  /** The tokens agree on what the grammar uses; other fields of the record may be stale. */
  ghost predicate Agrees(t: Token<Sym>, p: Token<Sym>)
  {
    && t.code == p.code
    && (p.code == NUMBER ==> t.val.num == p.val.num)
    && (p.code == FLOAT ==> t.val.f == p.val.f)
    && (p.code == BOOL ==> t.val.b == p.val.b)
    && (p.code == STRING || p.code == IDENTIFIER ==> t.val.str == p.val.str)
  }

  ghost predicate Matches(w: seq<Token<Sym>>, p: seq<Token<Sym>>)
  {
    |w| == |p| && forall i :: 0 <= i < |w| ==> Agrees(w[i], p[i])
  }

  lemma Splits(w: seq<Token<Sym>>, p: seq<Token<Sym>>, q: seq<Token<Sym>>)
    requires Matches(w, p + q)
    ensures Matches(w[..|p|], p) && Matches(w[|p|..], q) && w == w[..|p|] + w[|p|..]
  {
    forall i | 0 <= i < |q|
      ensures Agrees(w[|p|..][i], q[i])
    {
      assert Agrees(w[|p| + i], (p + q)[|p| + i]);
    }
    forall i | 0 <= i < |p|
      ensures Agrees(w[..|p|][i], p[i])
    {
      assert Agrees(w[i], (p + q)[i]);
    }
  }

  /** d derives the tokens w from the symbol x. */
  ghost predicate Shows(d: Tree<Sym>, x: int, w: seq<Token<Sym>>)
  {
    Derivation(HclTables.LR, d) && Root(HclTables.TABLES, d) == x && Yield(d) == w
  }

  lemma ALeaf(w: seq<Token<Sym>>, p: Token<Sym>) returns (d: Tree<Sym>)
    requires Matches(w, [p]) && p.code > ERR_CODE
    ensures Shows(d, p.code, w) && Agrees(Token(p.code, Eval(ACTIONS, d)), p)
  {
    assert Agrees(w[0], [p][0]);
    assert w == [w[0]];
    d := Leaf(w[0]);
  }

  lemma Node1(n: int, a: Tree<Sym>, w: seq<Token<Sym>>) returns (d: Tree<Sym>)
    requires 0 < n < 39 && HclTables.R2(n) == 1 && Shows(a, HclTables.Rhs(n, 0), w)
    ensures Shows(d, -HclTables.R1(n), w) && Eval(ACTIONS, d) == Act(n, Eval(ACTIONS, a), [Eval(ACTIONS, a)]).0
  {
    HclTables.Rhss(n);
    HclTables.Entries(n);
    YieldsOne(a);
    assert Evals(ACTIONS, [a]) == [Eval(ACTIONS, a)];
    d := Node(n, [a]);
  }

  lemma Node2(n: int, a: Tree<Sym>, b: Tree<Sym>, v: seq<Token<Sym>>, w: seq<Token<Sym>>) returns (d: Tree<Sym>)
    requires 0 < n < 39 && HclTables.R2(n) == 2
    requires Shows(a, HclTables.Rhs(n, 0), v) && Shows(b, HclTables.Rhs(n, 1), w)
    ensures Shows(d, -HclTables.R1(n), v + w)
    ensures Eval(ACTIONS, d) == Act(n, Eval(ACTIONS, a), [Eval(ACTIONS, a), Eval(ACTIONS, b)]).0
  {
    HclTables.Rhss(n);
    HclTables.Entries(n);
    YieldsTwo(a, b);
    assert Evals(ACTIONS, [a, b]) == [Eval(ACTIONS, a), Eval(ACTIONS, b)];
    d := Node(n, [a, b]);
  }

  lemma Node3(n: int, a: Tree<Sym>, b: Tree<Sym>, c: Tree<Sym>, u: seq<Token<Sym>>, v: seq<Token<Sym>>,
              w: seq<Token<Sym>>)
    returns (d: Tree<Sym>)
    requires 0 < n < 39 && HclTables.R2(n) == 3
    requires Shows(a, HclTables.Rhs(n, 0), u) && Shows(b, HclTables.Rhs(n, 1), v) && Shows(c, HclTables.Rhs(n, 2), w)
    ensures Shows(d, -HclTables.R1(n), u + (v + w))
    ensures Eval(ACTIONS, d) == Act(n, Eval(ACTIONS, a), [Eval(ACTIONS, a), Eval(ACTIONS, b), Eval(ACTIONS, c)]).0
  {
    HclTables.Rhss(n);
    HclTables.Entries(n);
    YieldsThree(a, b, c);
    assert Evals(ACTIONS, [a, b, c]) == [Eval(ACTIONS, a), Eval(ACTIONS, b), Eval(ACTIONS, c)];
    d := Node(n, [a, b, c]);
  }

  lemma YieldsThree(a: Tree<Sym>, b: Tree<Sym>, c: Tree<Sym>)
    ensures Yields([a, b, c]) == Yield(a) + (Yield(b) + Yield(c))
  {
    assert [a, b, c] == [a] + [b, c];
    YieldsCons(a, [b, c]);
    YieldsTwo(b, c);
  }

  lemma {:induction false} Node4(n: int, a: Tree<Sym>, b: Tree<Sym>, c: Tree<Sym>, e: Tree<Sym>,
              t: seq<Token<Sym>>, u: seq<Token<Sym>>, v: seq<Token<Sym>>, w: seq<Token<Sym>>)
    returns (d: Tree<Sym>)
    requires 0 < n < 39 && HclTables.R2(n) == 4
    requires Shows(a, HclTables.Rhs(n, 0), t) && Shows(b, HclTables.Rhs(n, 1), u)
    requires Shows(c, HclTables.Rhs(n, 2), v) && Shows(e, HclTables.Rhs(n, 3), w)
    ensures Shows(d, -HclTables.R1(n), t + (u + (v + w)))
    ensures Eval(ACTIONS, d)
            == Act(n, Eval(ACTIONS, a), [Eval(ACTIONS, a), Eval(ACTIONS, b), Eval(ACTIONS, c), Eval(ACTIONS, e)]).0
  {
    HclTables.Rhss(n);
    HclTables.Entries(n);
    YieldsFour(a, b, c, e);
    EvalsFour(a, b, c, e);
    d := Node(n, [a, b, c, e]);
  }

  lemma {:induction false} YieldsFour(a: Tree<Sym>, b: Tree<Sym>, c: Tree<Sym>, e: Tree<Sym>)
    ensures Yields([a, b, c, e]) == Yield(a) + (Yield(b) + (Yield(c) + Yield(e)))
  {
    assert [a, b, c, e] == [a] + [b, c, e];
    YieldsCons(a, [b, c, e]);
    YieldsThree(b, c, e);
  }

  lemma {:induction false} EvalsFour(a: Tree<Sym>, b: Tree<Sym>, c: Tree<Sym>, e: Tree<Sym>)
    ensures Evals(ACTIONS, [a, b, c, e]) == [Eval(ACTIONS, a), Eval(ACTIONS, b), Eval(ACTIONS, c), Eval(ACTIONS, e)]
  {
  }

  /** Symbols of the grammar, as the tables number them. */
  const KEY := -13
  const BLOCK_ID := -11
  const BLOCK := -6
  const ITEM := -9
  const ITEMS := -5
  const OBJECT := -8
  const LIST := -3
  const LIST_ITEMS := -4
  const LIST_ITEM := -10
  const NUMBER_VALUE := -7
  const INT := -2
  const FLOAT_VALUE := -1
  const EXP := -12
  const TOP := -14

  lemma NameDerives(k: Name, w: seq<Token<Sym>>, x: int) returns (d: Tree<Sym>)
    requires Matches(w, PrintName(k)) && (x == KEY || x == BLOCK_ID)
    ensures Shows(d, x, w) && Eval(ACTIONS, d).str == k.s
  {
    var a := ALeaf(w, PrintName(k)[0]);
    d := Node1(if x == KEY then if k.Identifier? then 7 else 8 else if k.Identifier? then 18 else 19, a, w);
  }

  lemma ExponentDerives(e: Exponent, w: seq<Token<Sym>>) returns (d: Tree<Sym>)
    requires Matches(w, PrintExponent(e))
    ensures Shows(d, EXP, w) && Eval(ACTIONS, d).str == ExponentText(e)
  {
    var sign := Plain(if e.negative then EMINUS else EPLUS);
    Splits(w, sign, Digits(e.digits));
    var a := ALeaf(w[..1], sign[0]);
    var b := ALeaf(w[1..], Digits(e.digits)[0]);
    d := Node2(if e.negative then 38 else 37, a, b, w[..1], w[1..]);
  }

  lemma IntDerives(n: int, w: seq<Token<Sym>>) returns (d: Tree<Sym>)
    requires -MAX_INT64 <= n <= MAX_INT64 && Matches(w, if n < 0 then Plain(MINUS) + Digits(-n) else Digits(n))
    ensures Shows(d, INT, w) && Eval(ACTIONS, d).num == n
  {
    if n < 0 {
      d := MinusDerives(n, w);
    } else {
      var a := ALeaf(w, Digits(n)[0]);
      d := Node1(34, a, w);
    }
  }

  lemma MinusDerives(n: int, w: seq<Token<Sym>>) returns (d: Tree<Sym>)
    requires -MAX_INT64 <= n < 0 && Matches(w, Plain(MINUS) + Digits(-n))
    ensures Shows(d, INT, w) && Eval(ACTIONS, d).num == n
  {
    Splits(w, Plain(MINUS), Digits(-n));
    var a := ALeaf(w[..1], Plain(MINUS)[0]);
    var b := ALeaf(w[1..], Digits(-n)[0]);
    var c := Node1(34, b, w[1..]);
    d := Node2(33, a, c, w[..1], w[1..]);
  }

  function FloatToken(f: Float): seq<Token<Sym>> { [Token(FLOAT, ZERO.(f := f))] }

  lemma FloatDerives(negative: bool, f: Float, w: seq<Token<Sym>>) returns (d: Tree<Sym>)
    requires Matches(w, if negative then Plain(MINUS) + FloatToken(f) else FloatToken(f))
    ensures Shows(d, FLOAT_VALUE, w) && Eval(ACTIONS, d).f == if negative then Negated(f) else f
  {
    if negative {
      d := NegativeDerives(f, w);
    } else {
      var a := ALeaf(w, FloatToken(f)[0]);
      d := Node1(36, a, w);
    }
  }

  lemma NegativeDerives(f: Float, w: seq<Token<Sym>>) returns (d: Tree<Sym>)
    requires Matches(w, Plain(MINUS) + FloatToken(f))
    ensures Shows(d, FLOAT_VALUE, w) && Eval(ACTIONS, d).f == Negated(f)
  {
    Splits(w, Plain(MINUS), FloatToken(f));
    var a := ALeaf(w[..1], Plain(MINUS)[0]);
    var b := ALeaf(w[1..], FloatToken(f)[0]);
    var c := Node1(36, b, w[1..]);
    d := Node2(35, a, c, w[..1], w[1..]);
  }

  lemma MantissaDerives(x: Number, w: seq<Token<Sym>>) returns (d: Tree<Sym>)
    requires NumberFits(x) && Matches(w, PrintMantissa(x))
    ensures x.Whole? ==> Shows(d, INT, w) && Eval(ACTIONS, d).num == x.n
    ensures x.Fraction? ==> Shows(d, FLOAT_VALUE, w) && Eval(ACTIONS, d).f == if x.negative then Negated(x.f) else x.f
  {
    match x
    case Whole(n, _) => d := IntDerives(n, w);
    case Fraction(negative, f, _) => d := FloatDerives(negative, f, w);
  }

  lemma NumberDerives(x: Number, w: seq<Token<Sym>>) returns (d: Tree<Sym>)
    requires NumberFits(x) && Matches(w, PrintNumber(x))
    ensures Shows(d, NUMBER_VALUE, w) && Eval(ACTIONS, d).obj == Object("", NumberValue(x))
  {
    if x.exp.Some? {
      d := ScaledDerives(x, x.exp.value, w);
    } else if x.Whole? {
      var a := MantissaDerives(x, w);
      d := Node1(29, a, w);
    } else {
      var a := MantissaDerives(x, w);
      d := Node1(30, a, w);
    }
  }

  lemma ScaledDerives(x: Number, e: Exponent, w: seq<Token<Sym>>) returns (d: Tree<Sym>)
    requires NumberFits(x) && x.exp == Some(e) && Matches(w, PrintMantissa(x) + PrintExponent(e))
    ensures Shows(d, NUMBER_VALUE, w) && Eval(ACTIONS, d).obj == Object("", NumberValue(x))
  {
    var k := |PrintMantissa(x)|;
    Splits(w, PrintMantissa(x), PrintExponent(e));
    var a := MantissaDerives(x, w[..k]);
    var b := ExponentDerives(e, w[k..]);
    if x.Whole? {
      d := ScaledInt(x.n, e, a, b, w[..k], w[k..]);
    } else {
      d := ScaledFraction(if x.negative then Negated(x.f) else x.f, e, a, b, w[..k], w[k..]);
    }
  }

  lemma ActsScaled(x: Sym, e: Sym)
    ensures Act(31, x, [x, e]).0.obj == Object("", FloatValue(Scaled(x.num, e.str)))
    ensures Act(32, x, [x, e]).0.obj == Object("", FloatValue(ScaledFloat(x.f, e.str)))
  {
  }

  lemma ScaledInt(n: int, e: Exponent, a: Tree<Sym>, b: Tree<Sym>, v: seq<Token<Sym>>, w: seq<Token<Sym>>)
    returns (d: Tree<Sym>)
    requires Shows(a, INT, v) && Eval(ACTIONS, a).num == n && Shows(b, EXP, w)
             && Eval(ACTIONS, b).str == ExponentText(e)
    ensures Shows(d, NUMBER_VALUE, v + w) && Eval(ACTIONS, d).obj == Object("", FloatValue(Scaled(n, ExponentText(e))))
  {
    d := Node2(31, a, b, v, w);
    ActsScaled(Eval(ACTIONS, a), Eval(ACTIONS, b));
  }

  lemma ScaledFraction(f: Float, e: Exponent, a: Tree<Sym>, b: Tree<Sym>, v: seq<Token<Sym>>, w: seq<Token<Sym>>)
    returns (d: Tree<Sym>)
    requires Shows(a, FLOAT_VALUE, v) && Eval(ACTIONS, a).f == f && Shows(b, EXP, w)
             && Eval(ACTIONS, b).str == ExponentText(e)
    ensures Shows(d, NUMBER_VALUE, v + w)
    ensures Eval(ACTIONS, d).obj == Object("", FloatValue(ScaledFloat(f, ExponentText(e))))
  {
    d := Node2(32, a, b, v, w);
    ActsScaled(Eval(ACTIONS, a), Eval(ACTIONS, b));
  }

  lemma ElemDerives(e: Elem, w: seq<Token<Sym>>) returns (d: Tree<Sym>)
    requires ElemFits(e) && Matches(w, PrintElem(e))
    ensures Shows(d, LIST_ITEM, w) && Eval(ACTIONS, d).obj == Object("", ElemValue(e))
  {
    var a;
    match e
    case ElemNumber(x) =>
      a := NumberDerives(x, w);
      d := Node1(25, a, w);
    case ElemString(s) =>
      a := ALeaf(w, PrintElem(e)[0]);
      d := Node1(26, a, w);
    case ElemBool(b) =>
      a := ALeaf(w, PrintElem(e)[0]);
      d := Node1(27, a, w);
    case ElemNull =>
      a := ALeaf(w, PrintElem(e)[0]);
      d := Node1(28, a, w);
  }

  lemma {:induction false} ElemsDerive(elems: seq<Elem>, w: seq<Token<Sym>>) returns (d: Tree<Sym>)
    requires elems != [] && (forall e :: e in elems ==> ElemFits(e)) && Matches(w, PrintElems(elems))
    ensures Shows(d, LIST_ITEMS, w) && Eval(ACTIONS, d).objlist == ElemObjects(elems)
    decreases |elems|
  {
    if |elems| == 1 {
      var a := ElemDerives(elems[0], w);
      d := Node1(23, a, w);
      assert ElemObjects(elems[..0]) == [];
    } else {
      var front, last := elems[..|elems| - 1], elems[|elems| - 1];
      var k := |PrintElems(front)|;
      Splits(w, PrintElems(front), Plain(COMMA) + PrintElem(last));
      var a := ElemsDerive(front, w[..k]);
      d := ElemAppends(a, front, last, w[..k], w[k..]);
    }
  }

  lemma ElemAppends(a: Tree<Sym>, front: seq<Elem>, last: Elem, v: seq<Token<Sym>>, w: seq<Token<Sym>>)
    returns (d: Tree<Sym>)
    requires Shows(a, LIST_ITEMS, v) && Eval(ACTIONS, a).objlist == ElemObjects(front)
    requires ElemFits(last) && Matches(w, Plain(COMMA) + PrintElem(last))
    ensures Shows(d, LIST_ITEMS, v + w)
    ensures Eval(ACTIONS, d).objlist == ElemObjects(front) + [Object("", ElemValue(last))]
  {
    Splits(w, Plain(COMMA), PrintElem(last));
    var b := ALeaf(w[..1], Plain(COMMA)[0]);
    var c := ElemDerives(last, w[1..]);
    d := Node3(24, a, b, c, v, w[..1], w[1..]);
  }

  lemma ListDerives(elems: seq<Elem>, comma: bool, w: seq<Token<Sym>>) returns (d: Tree<Sym>)
    requires (comma ==> elems != []) && (forall e :: e in elems ==> ElemFits(e)) && Matches(w, PrintList(elems, comma))
    ensures Shows(d, LIST, w) && Eval(ACTIONS, d).objlist == ElemObjects(elems)
  {
    var rest := if elems == [] then Plain(RIGHTBRACKET)
                else PrintElems(elems) + if comma then Plain(COMMA) + Plain(RIGHTBRACKET) else Plain(RIGHTBRACKET);
    Splits(w, Plain(LEFTBRACKET), rest);
    var a := ALeaf(w[..1], Plain(LEFTBRACKET)[0]);
    if elems == [] {
      var b := ALeaf(w[1..], Plain(RIGHTBRACKET)[0]);
      d := Node2(22, a, b, w[..1], w[1..]);
    } else {
      d := ListEnds(a, elems, comma, w[..1], w[1..]);
    }
  }

  lemma ListEnds(a: Tree<Sym>, elems: seq<Elem>, comma: bool, u: seq<Token<Sym>>, w: seq<Token<Sym>>)
    returns (d: Tree<Sym>)
    requires Shows(a, LEFTBRACKET, u) && elems != [] && forall e :: e in elems ==> ElemFits(e)
    requires Matches(w, PrintElems(elems) + if comma then Plain(COMMA) + Plain(RIGHTBRACKET) else Plain(RIGHTBRACKET))
    ensures Shows(d, LIST, u + w) && Eval(ACTIONS, d).objlist == ElemObjects(elems)
  {
    var k, end := |PrintElems(elems)|, if comma then Plain(COMMA) + Plain(RIGHTBRACKET) else Plain(RIGHTBRACKET);
    Splits(w, PrintElems(elems), end);
    var b := ElemsDerive(elems, w[..k]);
    var v := w[k..];
    if comma {
      Splits(v, Plain(COMMA), Plain(RIGHTBRACKET));
      var c := ALeaf(v[..1], Plain(COMMA)[0]);
      var e := ALeaf(v[1..], Plain(RIGHTBRACKET)[0]);
      d := Node4(21, a, b, c, e, u, w[..k], v[..1], v[1..]);
    } else {
      var c := ALeaf(v, Plain(RIGHTBRACKET)[0]);
      d := Node3(20, a, b, c, u, w[..k], v);
    }
  }

  lemma {:induction false} ItemsDerive(items: seq<Item>, w: seq<Token<Sym>>) returns (d: Tree<Sym>)
    requires items != [] && (forall i :: i in items ==> ItemFits(i)) && Matches(w, PrintItems(items))
    ensures Shows(d, ITEMS, w) && Eval(ACTIONS, d).objlist == ItemObjects(items)
    decreases items, 0
  {
    var front, last := items[..|items| - 1], items[|items| - 1];
    var k := |PrintItems(front)|;
    Splits(w, PrintItems(front), PrintItem(last));
    var b := ItemDerives(last, w[k..]);
    if front == [] {
      assert w[0..] == w;
      d := Node1(3, b, w);
    } else {
      var a := ItemsDerive(front, w[..k]);
      d := Node2(4, a, b, w[..k], w[k..]);
    }
  }

  lemma {:induction false} BodyDerives(items: seq<Item>, w: seq<Token<Sym>>) returns (d: Tree<Sym>)
    requires (forall i :: i in items ==> ItemFits(i)) && Matches(w, PrintBody(items))
    ensures Shows(d, OBJECT, w) && Eval(ACTIONS, d).obj == Object("", BodyValue(items))
    decreases items, 1
  {
    Splits(w, Plain(LEFTBRACE), PrintItems(items) + Plain(RIGHTBRACE));
    Splits(w[1..], PrintItems(items), Plain(RIGHTBRACE));
    var k := |PrintItems(items)|;
    var u, v := w[..1], w[1..];
    var a := ALeaf(u, Plain(LEFTBRACE)[0]);
    var c := ALeaf(v[k..], Plain(RIGHTBRACE)[0]);
    if items == [] {
      assert v[0..] == v;
      d := Node2(6, a, c, u, v);
    } else {
      var b := ItemsDerive(items, v[..k]);
      d := Node3(5, a, b, c, u, v[..k], v[k..]);
    }
  }

  lemma {:induction false} ItemDerives(i: Item, w: seq<Token<Sym>>) returns (d: Tree<Sym>)
    requires ItemFits(i) && Matches(w, PrintItem(i))
    ensures Shows(d, ITEM, w) && Eval(ACTIONS, d).obj == ItemObject(i)
    decreases i, 1
  {
    match i
    case Assign(key, value) => d := AssignDerives(key, value, w);
    case _ =>
      var a := BlockDerives(i, w);
      d := Node1(15, a, w);
  }

  lemma NamesBlock(n: int, id: Name, b: Tree<Sym>, u: seq<Token<Sym>>, w: seq<Token<Sym>>) returns (d: Tree<Sym>)
    requires n == 16 || n == 17
    requires Matches(u, PrintName(id)) && Shows(b, if n == 16 then OBJECT else BLOCK, w)
    ensures Shows(d, BLOCK, u + w)
    ensures var inner := Eval(ACTIONS, b).obj;
            Eval(ACTIONS, d).obj == if n == 16 then inner.(key := id.s) else Object(id.s, ObjectValue([[inner]]))
  {
    var a := NameDerives(id, u, BLOCK_ID);
    d := Node2(n, a, b, u, w);
  }

  lemma {:induction false} BlockDerives(i: Item, w: seq<Token<Sym>>) returns (d: Tree<Sym>)
    requires !i.Assign? && ItemFits(i) && Matches(w, PrintItem(i))
    ensures Shows(d, BLOCK, w) && Eval(ACTIONS, d).obj == ItemObject(i)
    decreases i, 0
  {
    match i
    case Block(id, body) =>
      Splits(w, PrintName(id), PrintBody(body));
      var b := BodyDerives(body, w[1..]);
      d := NamesBlock(16, id, b, w[..1], w[1..]);
    case Nested(id, inner) =>
      Splits(w, PrintName(id), PrintItem(inner));
      var b := BlockDerives(inner, w[1..]);
      d := NamesBlock(17, id, b, w[..1], w[1..]);
  }

  /** The production of an assignment, by its value. */
  function Rule(value: Val): (n: int)
    ensures 9 <= n <= 14
  {
    match value
    case Num(_) => 9
    case Bool(_) => 10
    case Null => 11
    case Str(_) => 12
    case Obj(_) => 13
    case List(_, _) => 14
  }

  lemma RuleShape(n: int)
    requires 9 <= n <= 14
    ensures HclTables.R2(n) == 3 && HclTables.R1(n) == -ITEM && HclTables.Rhs(n, 0) == KEY
            && HclTables.Rhs(n, 1) == EQUAL
  {
  }

  function ValueSymbol(value: Val): int
  {
    match value
    case Num(_) => NUMBER_VALUE
    case Bool(_) => BOOL
    case Null => NULL
    case Str(_) => STRING
    case Obj(_) => OBJECT
    case List(_, _) => LIST
  }

  lemma RuleTakes(value: Val)
    ensures HclTables.Rhs(Rule(value), 2) == ValueSymbol(value)
  {
  }

  /** The record of a value's symbol. */
  ghost predicate Carries(value: Val, c: Sym)
  {
    match value
    case Num(_) => c.obj == Object("", ValValue(value))
    case Bool(b) => c.b == b
    case Null => true
    case Str(s) => c.str == s
    case Obj(_) => c.obj == Object("", ValValue(value))
    case List(elems, _) => c.objlist == ElemObjects(elems)
  }

  lemma RuleActs(value: Val, s: Sym, e: Sym, c: Sym)
    requires Carries(value, c)
    ensures Act(Rule(value), s, [s, e, c]).0.obj == Object(s.str, ValValue(value))
  {
  }

  lemma {:induction false} ValDerives(value: Val, v: seq<Token<Sym>>) returns (c: Tree<Sym>)
    requires ValFits(value) && Matches(v, PrintVal(value))
    ensures Shows(c, ValueSymbol(value), v) && Carries(value, Eval(ACTIONS, c))
    decreases value, 1
  {
    match value
    case Num(x) => c := NumberDerives(x, v);
    case Obj(items) => c := BodyDerives(items, v);
    case List(elems, comma) => c := ListDerives(elems, comma, v);
    case _ => c := ScalarDerives(value, v);
  }

  lemma ScalarDerives(value: Val, v: seq<Token<Sym>>) returns (c: Tree<Sym>)
    requires (value.Str? || value.Bool? || value.Null?) && Matches(v, PrintVal(value))
    ensures Shows(c, ValueSymbol(value), v) && Carries(value, Eval(ACTIONS, c))
  {
    c := ALeaf(v, PrintVal(value)[0]);
  }

  lemma {:induction false} AssignDerives(key: Name, value: Val, w: seq<Token<Sym>>) returns (d: Tree<Sym>)
    requires ValFits(value) && Matches(w, PrintItem(Assign(key, value)))
    ensures Shows(d, ITEM, w) && Eval(ACTIONS, d).obj == Object(key.s, ValValue(value))
    decreases value, 2
  {
    AssignSplits(key, value, w);
    var c := ValDerives(value, w[2..]);
    RuleTakes(value);
    var s, e;
    d, s, e := AssignNode(Rule(value), key, c, w[..2], w[2..]);
    RuleActs(value, s, e, Eval(ACTIONS, c));
  }

  lemma AssignSplits(key: Name, value: Val, w: seq<Token<Sym>>)
    requires Matches(w, PrintItem(Assign(key, value)))
    ensures |w| >= 2 && w == w[..2] + w[2..]
    ensures Matches(w[..2], PrintName(key) + Plain(EQUAL)) && Matches(w[2..], PrintVal(value))
  {
    assert PrintName(key) + Plain(EQUAL) + PrintVal(value) == PrintItem(Assign(key, value));
    Splits(w, PrintName(key) + Plain(EQUAL), PrintVal(value));
  }

  lemma AssignNode(n: int, key: Name, c: Tree<Sym>, u: seq<Token<Sym>>, v: seq<Token<Sym>>)
    returns (d: Tree<Sym>, s: Sym, e: Sym)
    requires 9 <= n <= 14 && Matches(u, PrintName(key) + Plain(EQUAL)) && Shows(c, HclTables.Rhs(n, 2), v)
    ensures Shows(d, ITEM, u + v) && s.str == key.s && Eval(ACTIONS, d) == Act(n, s, [s, e, Eval(ACTIONS, c)]).0
  {
    Splits(u, PrintName(key), Plain(EQUAL));
    var a := NameDerives(key, u[..1], KEY);
    var b := ALeaf(u[1..], Plain(EQUAL)[0]);
    RuleShape(n);
    d := Node3(n, a, b, c, u[..1], u[1..], v);
    Associates(u[..1], u[1..], v);
    s, e := Eval(ACTIONS, a), Eval(ACTIONS, b);
  }

  /** The derivation of a document and what the parser stores for it. */
  lemma DocumentDerives(items: seq<Item>, w: seq<Token<Sym>>) returns (d: Tree<Sym>)
    requires (forall i :: i in items ==> ItemFits(i)) && Matches(w, PrintItems(items))
    ensures Shows(d, TOP, w) && ResultOf(ACTIONS, d) == Some(Object("", BodyValue(items)))
  {
    if items == [] {
      d := EmptyTop();
    } else {
      var a := ItemsDerive(items, w);
      d := FullTop(a, w);
    }
  }

  lemma EmptyTop() returns (d: Tree<Sym>)
    ensures Shows(d, TOP, []) && ResultOf(ACTIONS, d) == Some(Object("", Empty))
  {
    HclTables.Rhss(1);
    HclTables.Entries(1);
    d := Node(1, []);
  }

  lemma FullTop(a: Tree<Sym>, w: seq<Token<Sym>>) returns (d: Tree<Sym>)
    requires Shows(a, ITEMS, w)
    ensures Shows(d, TOP, w) && ResultOf(ACTIONS, d) == Some(Object("", ObjectValue(Flat(Eval(ACTIONS, a).objlist))))
  {
    HclTables.Rhss(2);
    HclTables.Entries(2);
    YieldsOne(a);
    assert Evals(ACTIONS, [a]) == [Eval(ACTIONS, a)];
    d := Node(2, [a]);
  }

  /** The automaton accepts the tokens, and the result stored for its tree is the object. */
  ghost predicate Yielding(w: seq<Token<Sym>>, o: Object)
    requires HclTables.LR.Certified() && Inv(HclTables.LR, Init(w))
  {
    var r := Run(HclTables.LR, Init(w));
    r.Accepted? && ResultOf(ACTIONS, r.tree) == Some(o)
  }

  /** Parsing undoes printing: the tokens of any document are accepted, and the result is its objects. */
  lemma ParseUndoesPrint(items: seq<Item>, w: seq<Token<Sym>>)
    requires (forall i :: i in items ==> ItemFits(i)) && Matches(w, PrintItems(items))
    ensures HclTables.LR.Certified() && Inv(HclTables.LR, Init(w)) && Yielding(w, Object("", BodyValue(items)))
  {
    HclTables.Certified();
    var d := DocumentDerives(items, w);
    YieldIsInput(HclTables.LR, d);
    RunComplete(HclTables.LR, d, w);
  }
}
