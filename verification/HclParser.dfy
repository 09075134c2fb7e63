/** The actions of the HCL parser. */
module HclParser {
  import opened Engine
  import opened Lalr
  import opened Objects
  import opened Wrappers
  import opened Evidence
  import HclTables

  /** hclSymType without the state. */
  datatype Sym = Sym(b: bool, f: Float, num: int, str: string, obj: Object, objlist: seq<Object>)

  const NO_OBJECT := Object("", NilValue)
  const ZERO := Sym(false, Zero, 0, "", NO_OBJECT, [])

  /** The action of production n on $$ = $1 and $1, $2, .. . */
  function Act(n: int, v: Sym, d: seq<Sym>): (Sym, Option<Object>)
  {
    if !(1 <= n <= 38) || |d| != HclTables.R2(n) then (v, None)
    else
      match n
      case 1 => (v, Some(Object("", Empty)))
      case 2 => (v, Some(Object("", ObjectValue(Flat(d[0].objlist)))))
      case 3 => (v.(objlist := [d[0].obj]), None)
      case 4 => (v.(objlist := d[0].objlist + [d[1].obj]), None)
      case 5 => (v.(obj := Object("", ObjectValue(Flat(d[1].objlist)))), None)
      case 6 => (v.(obj := Object("", Empty)), None)
      case 7 => (v.(str := d[0].str), None)
      case 8 => (v.(str := d[0].str), None)
      case 9 => (v.(obj := d[2].obj.(key := d[0].str)), None)
      case 10 => (v.(obj := Object(d[0].str, BoolValue(d[2].b))), None)
      case 11 => (v.(obj := Object(d[0].str, NilValue)), None)
      case 12 => (v.(obj := Object(d[0].str, StringValue(d[2].str))), None)
      case 13 => (v.(obj := d[2].obj.(key := d[0].str)), None)
      case 14 => (v.(obj := Object(d[0].str, ListValue(d[2].objlist))), None)
      case 15 => (v.(obj := d[0].obj), None)
      case 16 => (v.(obj := d[1].obj.(key := d[0].str)), None)
      case 17 => (v.(obj := Object(d[0].str, ObjectValue([[d[1].obj]]))), None)
      case 18 => (v.(str := d[0].str), None)
      case 19 => (v.(str := d[0].str), None)
      case 20 => (v.(objlist := d[1].objlist), None)
      case 21 => (v.(objlist := d[1].objlist), None)
      case 22 => (v.(objlist := []), None)
      case 23 => (v.(objlist := [d[0].obj]), None)
      case 24 => (v.(objlist := d[0].objlist + [d[2].obj]), None)
      case 25 => (v.(obj := d[0].obj), None)
      case 26 => (v.(obj := Object("", StringValue(d[0].str))), None)
      case 27 => (v.(obj := Object("", BoolValue(d[0].b))), None)
      case 28 => (v.(obj := Object("", NilValue)), None)
      case 29 => (v.(obj := Object("", IntValue(d[0].num))), None)
      case 30 => (v.(obj := Object("", FloatValue(d[0].f))), None)
      case 31 => (v.(obj := Object("", FloatValue(Scaled(d[0].num, d[1].str)))), None)
      case 32 => (v.(obj := Object("", FloatValue(ScaledFloat(d[0].f, d[1].str)))), None)
      case 33 => (v.(num := Negate(d[1].num)), None)
      case 34 => (v.(num := d[0].num), None)
      case 35 => (v.(f := Negated(d[1].f)), None)
      case 36 => (v.(f := d[0].f), None)
      case 37 => (v.(str := "e" + Decimal(d[1].num)), None)
      case _ => (v.(str := "e-" + Decimal(d[1].num)), None)
  }

  const ACTIONS: Actions<Sym, Object> := Actions(ZERO, Act)

  // Internal token codes, in the order of hclToknames.
  const BOOL := 4
  const FLOAT := 5
  const NUMBER := 6
  const COMMA := 7
  const IDENTIFIER := 8
  const EQUAL := 9
  const STRING := 11
  const MINUS := 12
  const LEFTBRACE := 13
  const RIGHTBRACE := 14
  const LEFTBRACKET := 15
  const RIGHTBRACKET := 16
  const PERIOD := 17
  const EPLUS := 18
  const EMINUS := 19
  const NULL := 20

  /** hclTok2: the internal codes of the external ones from 57344 on. */
  const TOK2: seq<int> := [2, 3, 4, 5, 6, 7, 8, 9, 10, 11, 12, 13, 14, 15, 16, 17, 18, 19, 20]

  lemma OnlyTopStores(n: int, v: Sym, vals: seq<Sym>)
    requires 0 < n < 39 && |vals| == HclTables.Size(n)
    ensures Act(n, v, vals).1.Some? <==> HclTables.R1(n) == 14
  {
  }

  lemma StartStores()
    ensures HclTables.LR.Certified() && StoresAtStart(HclTables.LR, ACTIONS)
  {
    HclTables.Certified();
    HclTables.Rhss(0);
    forall n, v, vals | 0 < n < 39 && |vals| == |HclTables.RHS[n]|
      ensures ACTIONS.act(n, v, vals).1.Some? <==> HclTables.TABLES.r1[n] == HclTables.LR.Start()
    {
      HclTables.Rhss(n);
      HclTables.Entries(n);
      OnlyTopStores(n, v, vals);
    }
  }

  /** Where an item begins, the next token alone decides whether a name is a key or a block id. */
  lemma KeyOrBlock(s: int, tok: int)
    requires s == 6 || s == 7
    requires tok > 0
    ensures HclTables.TABLES.Shaped() && HclTables.TABLES.IsState(s)
    ensures Decide(HclTables.TABLES, s, tok)
            == Reduces(if s == 6 then if tok == EQUAL then 7 else 18 else if tok == EQUAL then 8 else 19)
  {
    HclTables.Fits();
    DecideIs(HclTables.EVIDENCE, s, tok);
  }
}
