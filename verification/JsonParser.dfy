/**
 The actions of the JSON parser, and the round trip of its grammar: the tokens a JSON tree
 prints to are accepted and evaluate to that tree.
 */
module JsonParser {
  import opened Engine
  import opened Lalr
  import opened Objects
  import opened Wrappers
  import JsonTables

  /** jsonSymType without the state, which the stack cell holds. */
  datatype Sym = Sym(f: Float, num: int, str: string, obj: Object, objlist: seq<Object>)

  const NO_OBJECT := Object("", NilValue)
  const ZERO := Sym(Zero, 0, "", NO_OBJECT, [])

  function Members(objs: seq<Object>): Object { Object("", ObjectValue(Flat(objs))) }

  /** The action of production n on $$ = $1 and $1, $2, .. . */
  function Act(n: int, v: Sym, d: seq<Sym>): (Sym, Option<Object>)
  {
    if !(1 <= n <= 27) || |d| != JsonTables.R2(n) then (v, None)
    else
      match n
      case 1 => (v, Some(d[0].obj))
      case 2 => (v.(obj := Members(d[1].objlist)), None)
      case 3 => (v.(obj := Object("", Empty)), None)
      case 4 => (v.(objlist := [d[0].obj]), None)
      case 5 => (v.(objlist := d[0].objlist + [d[2].obj]), None)
      case 6 => (v.(obj := d[2].obj.(key := d[0].str)), None)
      case 7 => (v.(obj := Object("", StringValue(d[0].str))), None)
      case 8 => (v.(obj := d[0].obj), None)
      case 9 => (v.(obj := d[0].obj), None)
      case 10 => (v.(obj := Object("", ListValue(d[0].objlist))), None)
      case 11 => (v.(obj := Object("", BoolValue(true))), None)
      case 12 => (v.(obj := Object("", BoolValue(false))), None)
      case 13 => (v.(obj := Object("", NilValue)), None)
      case 14 => (v.(objlist := []), None)
      case 15 => (v.(objlist := d[1].objlist), None)
      case 16 => (v.(objlist := [d[0].obj]), None)
      case 17 => (v.(objlist := d[0].objlist + [d[2].obj]), None)
      case 18 => (v.(obj := Object("", IntValue(d[0].num))), None)
      case 19 => (v.(obj := Object("", FloatValue(d[0].f))), None)
      case 20 => (v.(obj := Object("", FloatValue(Scaled(d[0].num, d[1].str)))), None)
      case 21 => (v.(obj := Object("", FloatValue(ScaledFloat(d[0].f, d[1].str)))), None)
      case 22 => (v.(num := Negate(d[1].num)), None)
      case 23 => (v.(num := d[0].num), None)
      case 24 => (v.(f := Negated(d[1].f)), None)
      case 25 => (v.(f := d[0].f), None)
      case 26 => (v.(str := "e" + Decimal(d[1].num)), None)
      case _ => (v.(str := "e-" + Decimal(d[1].num)), None)
  }

  const ACTIONS: Actions<Sym, Object> := Actions(ZERO, Act)

  // Internal token codes, in the order of jsonToknames.
  const FLOAT := 4
  const NUMBER := 5
  const COLON := 6
  const COMMA := 7
  const STRING := 11
  const LEFTBRACE := 12
  const RIGHTBRACE := 13
  const LEFTBRACKET := 14
  const RIGHTBRACKET := 15
  const TRUE := 16
  const FALSE := 17
  const NULL := 18
  const MINUS := 19
  const EPLUS := 21
  const EMINUS := 22

  /** jsonTok2: the internal codes of the external ones from 57344 on. */
  const TOK2: seq<int> := [2, 3, 4, 5, 6, 7, 8, 9, 10, 11, 12, 13, 14, 15, 16, 17, 18, 19, 20, 21, 22]

  datatype Json =
    | JNull | JBool(b: bool) | JNumber(x: Number) | JString(s: string)
    | JArray(elems: seq<Json>) | JObject(fields: seq<Field>)

  datatype Field = Field(key: string, value: Json)

  /** Whole numbers are those that 64 bits hold, but for the least. */
  ghost predicate Representable(j: Json)
  {
    match j
    case JNumber(x) => NumberFits(x)
    case JArray(es) => forall e :: e in es ==> Representable(e)
    case JObject(fs) => forall f :: f in fs ==> Representable(f.value)
    case _ => true
  }

  /** The object that a JSON value stands for. */
  function Meaning(j: Json): Value
    decreases j, 0
  {
    match j
    case JNull => NilValue
    case JBool(b) => BoolValue(b)
    case JNumber(x) => NumberValue(x)
    case JString(s) => StringValue(s)
    case JArray(es) => ListValue(Meanings(es))
    case JObject(fs) => if fs == [] then Empty else ObjectValue(Flat(FieldObjects(fs)))
  }

  function Meanings(es: seq<Json>): (r: seq<Object>)
    ensures |r| == |es| && forall i :: 0 <= i < |es| ==> r[i] == Object("", Meaning(es[i]))
    decreases es, 1
  {
    if es == [] then [] else Meanings(es[..|es| - 1]) + [Object("", Meaning(es[|es| - 1]))]
  }

  function FieldObjects(fs: seq<Field>): (r: seq<Object>)
    ensures |r| == |fs| && forall i :: 0 <= i < |fs| ==> r[i] == Object(fs[i].key, Meaning(fs[i].value))
    decreases fs, 1
  {
    if fs == [] then []
    else FieldObjects(fs[..|fs| - 1]) + [Object(fs[|fs| - 1].key, Meaning(fs[|fs| - 1].value))]
  }

  function Plain(code: int): seq<Token<Sym>> { [Token(code, ZERO)] }

  function Quote(s: string): seq<Token<Sym>> { [Token(STRING, ZERO.(str := s))] }

  function Integer(n: int): seq<Token<Sym>> { [Token(NUMBER, ZERO.(num := n))] }

  function Literal(f: Float): seq<Token<Sym>> { [Token(FLOAT, ZERO.(f := f))] }

  function PrintExponent(e: Exponent): seq<Token<Sym>>
  {
    Plain(if e.negative then EMINUS else EPLUS) + Integer(e.digits)
  }

  function PrintMantissa(x: Number): seq<Token<Sym>>
  {
    match x
    case Whole(n, _) => if n < 0 then Plain(MINUS) + Integer(-n) else Integer(n)
    case Fraction(negative, f, _) => if negative then Plain(MINUS) + Literal(f) else Literal(f)
  }

  function PrintNumber(x: Number): seq<Token<Sym>>
  {
    if x.exp.None? then PrintMantissa(x) else PrintMantissa(x) + PrintExponent(x.exp.value)
  }

  /** The tokens of a JSON value. */
  function Print(j: Json): (p: seq<Token<Sym>>)
    ensures p != []
    decreases j, 0
  {
    match j
    case JNull => Plain(NULL)
    case JBool(b) => Plain(if b then TRUE else FALSE)
    case JNumber(x) => PrintNumber(x)
    case JString(s) => Quote(s)
    case JArray(es) => Plain(LEFTBRACKET) + (PrintElems(es) + Plain(RIGHTBRACKET))
    case JObject(fs) => PrintObject(fs)
  }

  function PrintObject(fs: seq<Field>): seq<Token<Sym>>
    decreases fs, 3
  {
    Plain(LEFTBRACE) + (PrintFields(fs) + Plain(RIGHTBRACE))
  }

  function PrintElems(es: seq<Json>): seq<Token<Sym>>
    decreases es, 1
  {
    if es == [] then []
    else if |es| == 1 then Print(es[0])
    else PrintElems(es[..|es| - 1]) + (Plain(COMMA) + Print(es[|es| - 1]))
  }

  function PrintField(f: Field): seq<Token<Sym>>
    decreases f, 1
  {
    Quote(f.key) + (Plain(COLON) + Print(f.value))
  }

  function PrintFields(fs: seq<Field>): seq<Token<Sym>>
    decreases fs, 2
  {
    if fs == [] then []
    else if |fs| == 1 then PrintField(fs[0])
    else PrintFields(fs[..|fs| - 1]) + (Plain(COMMA) + PrintField(fs[|fs| - 1]))
  }

  /** The tokens agree on what the grammar uses; other fields of the record may be stale. */
  ghost predicate Agrees(t: Token<Sym>, p: Token<Sym>)
  {
    && t.code == p.code
    && (p.code == NUMBER ==> t.val.num == p.val.num)
    && (p.code == FLOAT ==> t.val.f == p.val.f)
    && (p.code == STRING ==> t.val.str == p.val.str)
  }

  ghost predicate Matches(w: seq<Token<Sym>>, p: seq<Token<Sym>>)
  {
    |w| == |p| && forall i :: 0 <= i < |w| ==> Agrees(w[i], p[i])
  }

  lemma Splits(w: seq<Token<Sym>>, p: seq<Token<Sym>>, q: seq<Token<Sym>>)
    requires Matches(w, p + q)
    ensures Matches(w[..|p|], p) && Matches(w[|p|..], q) && w == w[..|p|] + w[|p|..]
  {
    forall i | 0 <= i < |q|
      ensures Agrees(w[|p|..][i], q[i])
    {
      assert Agrees(w[|p| + i], (p + q)[|p| + i]);
    }
    forall i | 0 <= i < |p|
      ensures Agrees(w[..|p|][i], p[i])
    {
      assert Agrees(w[i], (p + q)[i]);
    }
  }

  /** d derives the tokens w from the symbol x. */
  ghost predicate Shows(d: Tree<Sym>, x: int, w: seq<Token<Sym>>)
  {
    Derivation(JsonTables.LR, d) && Root(JsonTables.TABLES, d) == x && Yield(d) == w
  }

  lemma ALeaf(w: seq<Token<Sym>>, p: Token<Sym>) returns (d: Tree<Sym>)
    requires Matches(w, [p]) && p.code > ERR_CODE
    ensures Shows(d, p.code, w) && Agrees(Token(p.code, Eval(ACTIONS, d)), p)
  {
    assert Agrees(w[0], [p][0]);
    assert w == [w[0]];
    d := Leaf(w[0]);
  }

  lemma Node1(n: int, a: Tree<Sym>, w: seq<Token<Sym>>) returns (d: Tree<Sym>)
    requires 0 < n < 28 && JsonTables.R2(n) == 1 && Shows(a, JsonTables.Rhs(n, 0), w)
    ensures Shows(d, -JsonTables.R1(n), w) && Eval(ACTIONS, d) == Act(n, Eval(ACTIONS, a), [Eval(ACTIONS, a)]).0
    ensures ResultOf(ACTIONS, d) == Act(n, Eval(ACTIONS, a), [Eval(ACTIONS, a)]).1
  {
    JsonTables.Rhss(n);
    JsonTables.Entries(n);
    YieldsOne(a);
    assert Evals(ACTIONS, [a]) == [Eval(ACTIONS, a)];
    d := Node(n, [a]);
  }

  lemma Node2(n: int, a: Tree<Sym>, b: Tree<Sym>, v: seq<Token<Sym>>, w: seq<Token<Sym>>) returns (d: Tree<Sym>)
    requires 0 < n < 28 && JsonTables.R2(n) == 2
    requires Shows(a, JsonTables.Rhs(n, 0), v) && Shows(b, JsonTables.Rhs(n, 1), w)
    ensures Shows(d, -JsonTables.R1(n), v + w)
    ensures Eval(ACTIONS, d) == Act(n, Eval(ACTIONS, a), [Eval(ACTIONS, a), Eval(ACTIONS, b)]).0
  {
    JsonTables.Rhss(n);
    JsonTables.Entries(n);
    YieldsTwo(a, b);
    assert Evals(ACTIONS, [a, b]) == [Eval(ACTIONS, a), Eval(ACTIONS, b)];
    d := Node(n, [a, b]);
  }

  lemma Node3(n: int, a: Tree<Sym>, b: Tree<Sym>, c: Tree<Sym>, u: seq<Token<Sym>>, v: seq<Token<Sym>>,
              w: seq<Token<Sym>>)
    returns (d: Tree<Sym>)
    requires 0 < n < 28 && JsonTables.R2(n) == 3
    requires Shows(a, JsonTables.Rhs(n, 0), u) && Shows(b, JsonTables.Rhs(n, 1), v) && Shows(c, JsonTables.Rhs(n, 2), w)
    ensures Shows(d, -JsonTables.R1(n), u + (v + w))
    ensures Eval(ACTIONS, d) == Act(n, Eval(ACTIONS, a), [Eval(ACTIONS, a), Eval(ACTIONS, b), Eval(ACTIONS, c)]).0
  {
    JsonTables.Rhss(n);
    JsonTables.Entries(n);
    YieldsCons(a, [b, c]);
    YieldsTwo(b, c);
    assert [a, b, c] == [a] + [b, c];
    assert Evals(ACTIONS, [a, b, c]) == [Eval(ACTIONS, a), Eval(ACTIONS, b), Eval(ACTIONS, c)];
    d := Node(n, [a, b, c]);
  }

  // Symbols of the grammar, as the tables number them.
  const TOP := -11
  const OBJECT := -4
  const PAIR := -5
  const VALUE := -6
  const MEMBERS := -9
  const ARRAY := -7
  const ELEMENTS := -8
  const NUMBER_VALUE := -3
  const INT := -2
  const FLOAT_VALUE := -1
  const EXP := -10

  lemma ExponentDerives(e: Exponent, w: seq<Token<Sym>>) returns (d: Tree<Sym>)
    requires Matches(w, PrintExponent(e))
    ensures Shows(d, EXP, w) && Eval(ACTIONS, d).str == ExponentText(e)
  {
    var sign := Plain(if e.negative then EMINUS else EPLUS);
    Splits(w, sign, Integer(e.digits));
    var a := ALeaf(w[..1], sign[0]);
    var b := ALeaf(w[1..], Integer(e.digits)[0]);
    d := Node2(if e.negative then 27 else 26, a, b, w[..1], w[1..]);
  }

  lemma IntDerives(n: int, w: seq<Token<Sym>>) returns (d: Tree<Sym>)
    requires -MAX_INT64 <= n <= MAX_INT64 && Matches(w, if n < 0 then Plain(MINUS) + Integer(-n) else Integer(n))
    ensures Shows(d, INT, w) && Eval(ACTIONS, d).num == n
  {
    if n < 0 {
      Splits(w, Plain(MINUS), Integer(-n));
      var a := ALeaf(w[..1], Plain(MINUS)[0]);
      var b := ALeaf(w[1..], Integer(-n)[0]);
      var c := Node1(23, b, w[1..]);
      d := Node2(22, a, c, w[..1], w[1..]);
    } else {
      var a := ALeaf(w, Integer(n)[0]);
      d := Node1(23, a, w);
    }
  }

  lemma FloatDerives(negative: bool, f: Float, w: seq<Token<Sym>>) returns (d: Tree<Sym>)
    requires Matches(w, if negative then Plain(MINUS) + Literal(f) else Literal(f))
    ensures Shows(d, FLOAT_VALUE, w) && Eval(ACTIONS, d).f == if negative then Negated(f) else f
  {
    if negative {
      d := NegativeDerives(f, w);
    } else {
      var a := ALeaf(w, Literal(f)[0]);
      d := Node1(25, a, w);
    }
  }

  lemma NegativeDerives(f: Float, w: seq<Token<Sym>>) returns (d: Tree<Sym>)
    requires Matches(w, Plain(MINUS) + Literal(f))
    ensures Shows(d, FLOAT_VALUE, w) && Eval(ACTIONS, d).f == Negated(f)
  {
    Splits(w, Plain(MINUS), Literal(f));
    var a := ALeaf(w[..1], Plain(MINUS)[0]);
    var b := ALeaf(w[1..], Literal(f)[0]);
    var c := Node1(25, b, w[1..]);
    d := Node2(24, a, c, w[..1], w[1..]);
  }

  lemma MantissaDerives(x: Number, w: seq<Token<Sym>>) returns (d: Tree<Sym>)
    requires NumberFits(x) && Matches(w, PrintMantissa(x))
    ensures x.Whole? ==> Shows(d, INT, w) && Eval(ACTIONS, d).num == x.n
    ensures x.Fraction? ==> Shows(d, FLOAT_VALUE, w) && Eval(ACTIONS, d).f == if x.negative then Negated(x.f) else x.f
  {
    match x
    case Whole(n, _) => d := IntDerives(n, w);
    case Fraction(negative, f, _) => d := FloatDerives(negative, f, w);
  }

  lemma NumberDerives(x: Number, w: seq<Token<Sym>>) returns (d: Tree<Sym>)
    requires NumberFits(x) && Matches(w, PrintNumber(x))
    ensures Shows(d, NUMBER_VALUE, w) && Eval(ACTIONS, d).obj == Object("", NumberValue(x))
  {
    if x.exp.Some? {
      d := ScaledDerives(x, x.exp.value, w);
    } else if x.Whole? {
      var a := MantissaDerives(x, w);
      d := Node1(18, a, w);
    } else {
      var a := MantissaDerives(x, w);
      d := Node1(19, a, w);
    }
  }

  lemma ScaledDerives(x: Number, e: Exponent, w: seq<Token<Sym>>) returns (d: Tree<Sym>)
    requires NumberFits(x) && x.exp == Some(e) && Matches(w, PrintMantissa(x) + PrintExponent(e))
    ensures Shows(d, NUMBER_VALUE, w) && Eval(ACTIONS, d).obj == Object("", NumberValue(x))
  {
    var k := |PrintMantissa(x)|;
    Splits(w, PrintMantissa(x), PrintExponent(e));
    var a := MantissaDerives(x, w[..k]);
    var b := ExponentDerives(e, w[k..]);
    if x.Whole? {
      d := ScaledInt(x.n, e, a, b, w[..k], w[k..]);
    } else {
      d := ScaledFraction(if x.negative then Negated(x.f) else x.f, e, a, b, w[..k], w[k..]);
    }
  }

  lemma ScaledInt(n: int, e: Exponent, a: Tree<Sym>, b: Tree<Sym>, v: seq<Token<Sym>>, w: seq<Token<Sym>>)
    returns (d: Tree<Sym>)
    requires Shows(a, INT, v) && Eval(ACTIONS, a).num == n && Shows(b, EXP, w)
             && Eval(ACTIONS, b).str == ExponentText(e)
    ensures Shows(d, NUMBER_VALUE, v + w) && Eval(ACTIONS, d).obj == Object("", FloatValue(Scaled(n, ExponentText(e))))
  {
    d := Node2(20, a, b, v, w);
  }

  lemma ScaledFraction(f: Float, e: Exponent, a: Tree<Sym>, b: Tree<Sym>, v: seq<Token<Sym>>, w: seq<Token<Sym>>)
    returns (d: Tree<Sym>)
    requires Shows(a, FLOAT_VALUE, v) && Eval(ACTIONS, a).f == f && Shows(b, EXP, w)
             && Eval(ACTIONS, b).str == ExponentText(e)
    ensures Shows(d, NUMBER_VALUE, v + w)
    ensures Eval(ACTIONS, d).obj == Object("", FloatValue(ScaledFloat(f, ExponentText(e))))
  {
    d := Node2(21, a, b, v, w);
  }

  lemma {:induction false} ValueDerives(j: Json, w: seq<Token<Sym>>) returns (d: Tree<Sym>)
    requires Representable(j) && Matches(w, Print(j))
    ensures Shows(d, VALUE, w) && Eval(ACTIONS, d).obj == Object("", Meaning(j))
    decreases j, 0
  {
    match j
    case JNumber(x) =>
      var a := NumberDerives(x, w);
      d := Node1(8, a, w);
    case JArray(es) =>
      var a := ArrayDerives(es, w);
      d := Node1(10, a, w);
    case JObject(fs) =>
      var a := ObjectDerives(fs, w);
      d := Node1(9, a, w);
    case _ => d := ConstantDerives(j, w);
  }

  lemma ConstantDerives(j: Json, w: seq<Token<Sym>>) returns (d: Tree<Sym>)
    requires (j.JNull? || j.JBool? || j.JString?) && Matches(w, Print(j))
    ensures Shows(d, VALUE, w) && Eval(ACTIONS, d).obj == Object("", Meaning(j))
  {
    var a := ALeaf(w, Print(j)[0]);
    match j
    case JNull => d := Node1(13, a, w);
    case JString(_) => d := Node1(7, a, w);
    case JBool(b) =>
      if b {
        d := Node1(11, a, w);
      } else {
        d := Node1(12, a, w);
      }
  }

  lemma {:induction false} ArrayDerives(es: seq<Json>, w: seq<Token<Sym>>) returns (d: Tree<Sym>)
    requires (forall e :: e in es ==> Representable(e))
    requires Matches(w, Plain(LEFTBRACKET) + (PrintElems(es) + Plain(RIGHTBRACKET)))
    ensures Shows(d, ARRAY, w) && Eval(ACTIONS, d).objlist == Meanings(es)
    decreases es, 1
  {
    Splits(w, Plain(LEFTBRACKET), PrintElems(es) + Plain(RIGHTBRACKET));
    Splits(w[1..], PrintElems(es), Plain(RIGHTBRACKET));
    var k := |PrintElems(es)|;
    var u, v := w[..1], w[1..];
    var a := ALeaf(u, Plain(LEFTBRACKET)[0]);
    var c := ALeaf(v[k..], Plain(RIGHTBRACKET)[0]);
    if es == [] {
      assert v[0..] == v;
      d := Node2(14, a, c, u, v);
    } else {
      var b := ElemsDerive(es, v[..k]);
      d := Node3(15, a, b, c, u, v[..k], v[k..]);
    }
  }

  lemma {:induction false} ElemsDerive(es: seq<Json>, w: seq<Token<Sym>>) returns (d: Tree<Sym>)
    requires es != [] && (forall e :: e in es ==> Representable(e)) && Matches(w, PrintElems(es))
    ensures Shows(d, ELEMENTS, w) && Eval(ACTIONS, d).objlist == Meanings(es)
    decreases es, 0
  {
    var front, last := es[..|es| - 1], es[|es| - 1];
    if front == [] {
      var a := ValueDerives(last, w);
      d := Node1(16, a, w);
    } else {
      var k := |PrintElems(front)|;
      Splits(w, PrintElems(front), Plain(COMMA) + Print(last));
      var v := w[k..];
      Splits(v, Plain(COMMA), Print(last));
      var a := ElemsDerive(front, w[..k]);
      var c := ValueDerives(last, v[1..]);
      d := Appends(17, a, c, Object("", Meaning(last)), w[..k], v[..1], v[1..]);
    }
  }

  /** One more element of an array, or one more field of an object, after a comma. */
  lemma Appends(n: int, a: Tree<Sym>, c: Tree<Sym>, o: Object, u: seq<Token<Sym>>, v: seq<Token<Sym>>,
                w: seq<Token<Sym>>)
    returns (d: Tree<Sym>)
    requires n == 5 || n == 17
    requires Shows(a, if n == 5 then MEMBERS else ELEMENTS, u) && Matches(v, Plain(COMMA))
    requires Shows(c, if n == 5 then PAIR else VALUE, w) && Eval(ACTIONS, c).obj == o
    ensures Shows(d, if n == 5 then MEMBERS else ELEMENTS, u + (v + w))
    ensures Eval(ACTIONS, d).objlist == Eval(ACTIONS, a).objlist + [o]
  {
    var b := ALeaf(v, Plain(COMMA)[0]);
    d := Node3(n, a, b, c, u, v, w);
  }

  lemma {:induction false} ObjectDerives(fs: seq<Field>, w: seq<Token<Sym>>) returns (d: Tree<Sym>)
    requires (forall f :: f in fs ==> Representable(f.value)) && Matches(w, PrintObject(fs))
    ensures Shows(d, OBJECT, w) && Eval(ACTIONS, d).obj == Object("", Meaning(JObject(fs)))
    decreases fs, 2
  {
    Splits(w, Plain(LEFTBRACE), PrintFields(fs) + Plain(RIGHTBRACE));
    Splits(w[1..], PrintFields(fs), Plain(RIGHTBRACE));
    var k := |PrintFields(fs)|;
    var u, v := w[..1], w[1..];
    var a := ALeaf(u, Plain(LEFTBRACE)[0]);
    var c := ALeaf(v[k..], Plain(RIGHTBRACE)[0]);
    if fs == [] {
      assert v[0..] == v;
      d := Node2(3, a, c, u, v);
    } else {
      var b := FieldsDerive(fs, v[..k]);
      d := Node3(2, a, b, c, u, v[..k], v[k..]);
    }
  }

  lemma {:induction false} FieldsDerive(fs: seq<Field>, w: seq<Token<Sym>>) returns (d: Tree<Sym>)
    requires fs != [] && (forall f :: f in fs ==> Representable(f.value)) && Matches(w, PrintFields(fs))
    ensures Shows(d, MEMBERS, w) && Eval(ACTIONS, d).objlist == FieldObjects(fs)
    decreases fs, 1
  {
    var front, last := fs[..|fs| - 1], fs[|fs| - 1];
    if front == [] {
      var a := FieldDerives(last, w);
      d := Node1(4, a, w);
    } else {
      var k := |PrintFields(front)|;
      Splits(w, PrintFields(front), Plain(COMMA) + PrintField(last));
      var v := w[k..];
      Splits(v, Plain(COMMA), PrintField(last));
      var a := FieldsDerive(front, w[..k]);
      var c := FieldDerives(last, v[1..]);
      d := Appends(5, a, c, Object(last.key, Meaning(last.value)), w[..k], v[..1], v[1..]);
    }
  }

  lemma {:induction false} FieldDerives(f: Field, w: seq<Token<Sym>>) returns (d: Tree<Sym>)
    requires Representable(f.value) && Matches(w, PrintField(f))
    ensures Shows(d, PAIR, w) && Eval(ACTIONS, d).obj == Object(f.key, Meaning(f.value))
    decreases f
  {
    Splits(w, Quote(f.key), Plain(COLON) + Print(f.value));
    Splits(w[1..], Plain(COLON), Print(f.value));
    var v := w[1..];
    var a := ALeaf(w[..1], Quote(f.key)[0]);
    var b := ALeaf(v[..1], Plain(COLON)[0]);
    var c := ValueDerives(f.value, v[1..]);
    d := Node3(6, a, b, c, w[..1], v[..1], v[1..]);
  }

  /** The automaton accepts the tokens, and the result stored for its tree is the object. */
  ghost predicate Yielding(w: seq<Token<Sym>>, o: Object)
    requires JsonTables.LR.Certified() && Inv(JsonTables.LR, Init(w))
  {
    var r := Run(JsonTables.LR, Init(w));
    r.Accepted? && ResultOf(ACTIONS, r.tree) == Some(o)
  }

  /** Parsing undoes printing: the tokens of any JSON object are accepted, and the result is that object. */
  lemma ParseUndoesPrint(fs: seq<Field>, w: seq<Token<Sym>>)
    requires Representable(JObject(fs)) && Matches(w, Print(JObject(fs)))
    ensures JsonTables.LR.Certified() && Inv(JsonTables.LR, Init(w)) && Yielding(w, Object("", Meaning(JObject(fs))))
  {
    JsonTables.Certified();
    var a := ObjectDerives(fs, w);
    var d := Node1(1, a, w);
    YieldIsInput(JsonTables.LR, d);
    RunComplete(JsonTables.LR, d, w);
  }
}
