module JsonTables {
  import opened Evidence
  import opened Lalr

  /** Next states of shifts and gotos, packed. */
  function Act(i: int): int
  {
    match i
    case 0 => 12 case 1 => 25 case 2 => 24 case 3 => 3 case 4 => 20 case 5 => 27 case 6 => 28 case 7 => 7
    case 8 => 13 case 9 => 3 case 10 => 21 case 11 => 22 case 12 => 30 case 13 => 17 case 14 => 18 case 15 => 19
    case 16 => 23 case 17 => 25 case 18 => 24 case 19 => 26 case 20 => 25 case 21 => 24 case 22 => 36 case 23 => 32
    case 24 => 13 case 25 => 3 case 26 => 10 case 27 => 22 case 28 => 33 case 29 => 17 case 30 => 18 case 31 => 19
    case 32 => 23 case 33 => 35 case 34 => 34 case 35 => 23 case 36 => 38 case 37 => 9 case 38 => 7 case 39 => 39
    case 40 => 5 case 41 => 29 case 42 => 6 case 43 => 8 case 44 => 37 case 45 => 15 case 46 => 2 case 47 => 1
    case 48 => 4 case 49 => 31 case 50 => 16 case 51 => 14 case 52 => 11
    case _ => 0
  }

  /** Where the shifts of a state start in Act. */
  function Pact(i: int): int
  {
    match i
    case 0 => -9 case 1 => -1000 case 2 => -1000 case 3 => 27 case 4 => 30 case 5 => -1000 case 6 => -1000
        case 7 => 20
    case 8 => -1000 case 9 => -4 case 10 => 13 case 11 => -1000 case 12 => -1000 case 13 => -1000
        case 14 => -1000 case 15 => -1000
    case 16 => -1000 case 17 => -1000 case 18 => -1000 case 19 => -1000 case 20 => -16 case 21 => -16
        case 22 => -3 case 23 => 16
    case 24 => -1000 case 25 => -1000 case 26 => -1000 case 27 => 28 case 28 => 17 case 29 => -1000
        case 30 => -1000 case 31 => 29
    case 32 => -1000 case 33 => -1000 case 34 => -1000 case 35 => -1000 case 36 => -1000 case 37 => -1000
        case 38 => 13 case 39 => -1000
    case _ => 0
  }

  /** Where the gotos of a nonterminal start in Act. */
  function Pgo(i: int): int
  {
    match i
    case 0 => 0 case 1 => 10 case 2 => 4 case 3 => 51 case 4 => 45 case 5 => 42 case 6 => 0 case 7 => 50
    case 8 => 49 case 9 => 48 case 10 => 19 case 11 => 47
    case _ => 0
  }

  /** The nonterminal of a production. */
  function R1(i: int): int
  {
    match i
    case 0 => 0 case 1 => 11 case 2 => 4 case 3 => 4 case 4 => 9 case 5 => 9 case 6 => 5 case 7 => 6
    case 8 => 6 case 9 => 6 case 10 => 6 case 11 => 6 case 12 => 6 case 13 => 6 case 14 => 7 case 15 => 7
    case 16 => 8 case 17 => 8 case 18 => 3 case 19 => 3 case 20 => 3 case 21 => 3 case 22 => 2 case 23 => 2
    case 24 => 1 case 25 => 1 case 26 => 10 case 27 => 10
    case _ => 0
  }

  /** The length of a production. */
  function R2(i: int): int
  {
    match i
    case 0 => 0 case 1 => 1 case 2 => 3 case 3 => 2 case 4 => 1 case 5 => 3 case 6 => 3 case 7 => 1
    case 8 => 1 case 9 => 1 case 10 => 1 case 11 => 1 case 12 => 1 case 13 => 1 case 14 => 2 case 15 => 3
    case 16 => 1 case 17 => 3 case 18 => 1 case 19 => 1 case 20 => 2 case 21 => 2 case 22 => 2 case 23 => 1
    case 24 => 2 case 25 => 1 case 26 => 2 case 27 => 2
    case _ => 0
  }

  /** The symbol every state is entered by. */
  function Chk(i: int): int
  {
    match i
    case 0 => -1000 case 1 => -11 case 2 => -4 case 3 => 12 case 4 => -9 case 5 => 13 case 6 => -5 case 7 => 11
    case 8 => 13 case 9 => 7 case 10 => 6 case 11 => -5 case 12 => -6 case 13 => 11 case 14 => -3 case 15 => -4
    case 16 => -7 case 17 => 16 case 18 => 17 case 19 => 18 case 20 => -2 case 21 => -1 case 22 => 14 case 23 => 19
    case 24 => 5 case 25 => 4 case 26 => -10 case 27 => 21 case 28 => 22 case 29 => -10 case 30 => 15 case 31 => -8
    case 32 => -6 case 33 => -2 case 34 => -1 case 35 => 5 case 36 => 5 case 37 => 15 case 38 => 7 case 39 => -6
    case _ => -1000
  }

  /** The production a state reduces by default. */
  function Def(i: int): int
  {
    match i
    case 0 => 0 case 1 => -2 case 2 => 1 case 3 => 0 case 4 => 0 case 5 => 3 case 6 => 4 case 7 => 0
    case 8 => 2 case 9 => 0 case 10 => 0 case 11 => 5 case 12 => 6 case 13 => 7 case 14 => 8 case 15 => 9
    case 16 => 10 case 17 => 11 case 18 => 12 case 19 => 13 case 20 => 18 case 21 => 19 case 22 => 0 case 23 => 0
    case 24 => 23 case 25 => 25 case 26 => 20 case 27 => 0 case 28 => 0 case 29 => 21 case 30 => 14 case 31 => 0
    case 32 => 16 case 33 => 22 case 34 => 24 case 35 => 26 case 36 => 27 case 37 => 15 case 38 => 0 case 39 => 17
    case _ => 0
  }

  const EXCA: seq<int> := [-1, 1, 1, -1, -2, 0]

  const TABLES := Tables(EXCA, Table(53, Act), Table(40, Pact), Table(12, Pgo),
                         Table(28, R1), Table(28, R2), Table(40, Chk), Table(40, Def))

  const RHS: seq<seq<int>> := [
    /* 0 */ [-11],
    /* 1 */ [-4],
    /* 2 */ [12, -9, 13],
    /* 3 */ [12, 13],
    /* 4 */ [-5],
    /* 5 */ [-9, 7, -5],
    /* 6 */ [11, 6, -6],
    /* 7 */ [11],
    /* 8 */ [-3],
    /* 9 */ [-4],
    /* 10 */ [-7],
    /* 11 */ [16],
    /* 12 */ [17],
    /* 13 */ [18],
    /* 14 */ [14, 15],
    /* 15 */ [14, -8, 15],
    /* 16 */ [-6],
    /* 17 */ [-8, 7, -6],
    /* 18 */ [-2],
    /* 19 */ [-1],
    /* 20 */ [-2, -10],
    /* 21 */ [-1, -10],
    /* 22 */ [19, -2],
    /* 23 */ [5],
    /* 24 */ [19, -1],
    /* 25 */ [4],
    /* 26 */ [21, 5],
    /* 27 */ [22, 5]
  ]

  /** The kernel items (production, dot) of a state. */
  predicate Kernel(s: int, n: int, d: int)
  {
    match s
    case 1 => (n == 0 && d == 1)
    case 2 => (n == 1 && d == 1)
    case 3 => (n == 2 && d == 1) || (n == 3 && d == 1)
    case 4 => (n == 2 && d == 2) || (n == 5 && d == 1)
    case 5 => (n == 3 && d == 2)
    case 6 => (n == 4 && d == 1)
    case 7 => (n == 6 && d == 1)
    case 8 => (n == 2 && d == 3)
    case 9 => (n == 5 && d == 2)
    case 10 => (n == 6 && d == 2)
    case 11 => (n == 5 && d == 3)
    case 12 => (n == 6 && d == 3)
    case 13 => (n == 7 && d == 1)
    case 14 => (n == 8 && d == 1)
    case 15 => (n == 9 && d == 1)
    case 16 => (n == 10 && d == 1)
    case 17 => (n == 11 && d == 1)
    case 18 => (n == 12 && d == 1)
    case 19 => (n == 13 && d == 1)
    case 20 => (n == 18 && d == 1) || (n == 20 && d == 1)
    case 21 => (n == 19 && d == 1) || (n == 21 && d == 1)
    case 22 => (n == 14 && d == 1) || (n == 15 && d == 1)
    case 23 => (n == 22 && d == 1) || (n == 24 && d == 1)
    case 24 => (n == 23 && d == 1)
    case 25 => (n == 25 && d == 1)
    case 26 => (n == 20 && d == 2)
    case 27 => (n == 26 && d == 1)
    case 28 => (n == 27 && d == 1)
    case 29 => (n == 21 && d == 2)
    case 30 => (n == 14 && d == 2)
    case 31 => (n == 15 && d == 2) || (n == 17 && d == 1)
    case 32 => (n == 16 && d == 1)
    case 33 => (n == 22 && d == 2)
    case 34 => (n == 24 && d == 2)
    case 35 => (n == 26 && d == 2)
    case 36 => (n == 27 && d == 2)
    case 37 => (n == 15 && d == 3)
    case 38 => (n == 17 && d == 2)
    case 39 => (n == 17 && d == 3)
    case _ => false
  }

  /** The nonterminals that may begin above a state. */
  predicate Begins(s: int, a: int)
  {
    match s
    case 0 => a == 0 || a == 4 || a == 11
    case 3 => a == 5 || a == 9
    case 9 => a == 5
    case 10 => a == 1 || a == 2 || a == 3 || a == 4 || a == 6 || a == 7
    case 20 => a == 10
    case 21 => a == 10
    case 22 => a == 1 || a == 2 || a == 3 || a == 4 || a == 6 || a == 7 || a == 8
    case 23 => a == 1 || a == 2
    case 38 => a == 1 || a == 2 || a == 3 || a == 4 || a == 6 || a == 7
    case _ => false
  }

  /** The tokens that may start a nonterminal. */
  predicate First(a: int, tok: int)
  {
    match a
    case 0 => tok == 12
    case 1 => tok == 4 || tok == 19
    case 2 => tok == 5 || tok == 19
    case 3 => tok == 4 || tok == 5 || tok == 19
    case 4 => tok == 12
    case 5 => tok == 11
    case 6 => tok == 4 || tok == 5 || tok == 11 || tok == 12 || tok == 14 || tok == 16 || tok == 17 || tok == 18
        || tok == 19
    case 7 => tok == 14
    case 8 => tok == 4 || tok == 5 || tok == 11 || tok == 12 || tok == 14 || tok == 16 || tok == 17 || tok == 18
        || tok == 19
    case 9 => tok == 11
    case 10 => tok == 21 || tok == 22
    case 11 => tok == 12
    case _ => false
  }

  /** The tokens that may follow a nonterminal. */
  predicate Follow(a: int, tok: int)
  {
    match a
    case 0 => tok == 1
    case 1 => tok == 7 || tok == 13 || tok == 15 || tok == 21 || tok == 22
    case 2 => tok == 7 || tok == 13 || tok == 15 || tok == 21 || tok == 22
    case 3 => tok == 7 || tok == 13 || tok == 15
    case 4 => tok == 1 || tok == 7 || tok == 13 || tok == 15
    case 5 => tok == 7 || tok == 13
    case 6 => tok == 7 || tok == 13 || tok == 15
    case 7 => tok == 7 || tok == 13 || tok == 15
    case 8 => tok == 7 || tok == 15
    case 9 => tok == 7 || tok == 13
    case 10 => tok == 7 || tok == 13 || tok == 15
    case 11 => tok == 1
    case _ => false
  }

  predicate Nullable(a: int) { false }

  /** Unit productions lead down this ranking. */
  function Rank(x: int): int
  {
    match x
    case -1000 => 300
    case -1 => 4
    case -2 => 4
    case -3 => 3
    case -4 => 3
    case -5 => 2
    case -6 => 2
    case -7 => 3
    case -8 => 1
    case -9 => 1
    case -10 => 1
    case -11 => 1
    case _ => 50
  }

  /** The symbol at place d of production n. */
  function Rhs(n: int, d: int): int
  {
    match n
    case 0 => if d == 0 then -11 else 0
    case 1 => if d == 0 then -4 else 0
    case 2 => if d == 0 then 12 else if d == 1 then -9 else if d == 2 then 13 else 0
    case 3 => if d == 0 then 12 else if d == 1 then 13 else 0
    case 4 => if d == 0 then -5 else 0
    case 5 => if d == 0 then -9 else if d == 1 then 7 else if d == 2 then -5 else 0
    case 6 => if d == 0 then 11 else if d == 1 then 6 else if d == 2 then -6 else 0
    case 7 => if d == 0 then 11 else 0
    case 8 => if d == 0 then -3 else 0
    case 9 => if d == 0 then -4 else 0
    case 10 => if d == 0 then -7 else 0
    case 11 => if d == 0 then 16 else 0
    case 12 => if d == 0 then 17 else 0
    case 13 => if d == 0 then 18 else 0
    case 14 => if d == 0 then 14 else if d == 1 then 15 else 0
    case 15 => if d == 0 then 14 else if d == 1 then -8 else if d == 2 then 15 else 0
    case 16 => if d == 0 then -6 else 0
    case 17 => if d == 0 then -8 else if d == 1 then 7 else if d == 2 then -6 else 0
    case 18 => if d == 0 then -2 else 0
    case 19 => if d == 0 then -1 else 0
    case 20 => if d == 0 then -2 else if d == 1 then -10 else 0
    case 21 => if d == 0 then -1 else if d == 1 then -10 else 0
    case 22 => if d == 0 then 19 else if d == 1 then -2 else 0
    case 23 => if d == 0 then 5 else 0
    case 24 => if d == 0 then 19 else if d == 1 then -1 else 0
    case 25 => if d == 0 then 4 else 0
    case 26 => if d == 0 then 21 else if d == 1 then 5 else 0
    case 27 => if d == 0 then 22 else if d == 1 then 5 else 0
    case _ => 0
  }

  /** The state that a shift leads to, or -1. */
  function ShiftTo(s: int, tok: int): int
  {
    match s
    case 0 => if tok == 12 then 3 else -1
    case 3 => if tok == 11 then 7 else if tok == 13 then 5 else -1
    case 4 => if tok == 7 then 9 else if tok == 13 then 8 else -1
    case 7 => if tok == 6 then 10 else -1
    case 9 => if tok == 11 then 7 else -1
    case 10 => if tok == 4 then 25 else if tok == 5 then 24 else if tok == 11 then 13 else if tok == 12 then 3
        else if tok == 14 then 22 else if tok == 16 then 17 else if tok == 17 then 18
        else if tok == 18 then 19 else if tok == 19 then 23 else -1
    case 20 => if tok == 21 then 27 else if tok == 22 then 28 else -1
    case 21 => if tok == 21 then 27 else if tok == 22 then 28 else -1
    case 22 => if tok == 4 then 25 else if tok == 5 then 24 else if tok == 11 then 13 else if tok == 12 then 3
        else if tok == 14 then 22 else if tok == 15 then 30 else if tok == 16 then 17
        else if tok == 17 then 18 else if tok == 18 then 19 else if tok == 19 then 23 else -1
    case 23 => if tok == 4 then 25 else if tok == 5 then 24 else if tok == 19 then 23 else -1
    case 27 => if tok == 5 then 35 else -1
    case 28 => if tok == 5 then 36 else -1
    case 31 => if tok == 7 then 38 else if tok == 15 then 37 else -1
    case 38 => if tok == 4 then 25 else if tok == 5 then 24 else if tok == 11 then 13 else if tok == 12 then 3
        else if tok == 14 then 22 else if tok == 16 then 17 else if tok == 17 then 18
        else if tok == 18 then 19 else if tok == 19 then 23 else -1
    case _ => -1
  }

  /** The state that follows a state once a nonterminal has been reduced above it. */
  function GotoTo(s: int, a: int): int
  {
    match s
    case 0 => if a == 4 then 2 else if a == 11 then 1 else -1
    case 3 => if a == 5 then 6 else if a == 9 then 4 else -1
    case 9 => if a == 5 then 11 else -1
    case 10 => if a == 1 then 21 else if a == 2 then 20 else if a == 3 then 14 else if a == 4 then 15
        else if a == 6 then 12 else if a == 7 then 16 else -1
    case 20 => if a == 10 then 26 else -1
    case 21 => if a == 10 then 29 else -1
    case 22 => if a == 1 then 21 else if a == 2 then 20 else if a == 3 then 14 else if a == 4 then 15
        else if a == 6 then 32 else if a == 7 then 16 else if a == 8 then 31 else -1
    case 23 => if a == 1 then 34 else if a == 2 then 33 else -1
    case 38 => if a == 1 then 21 else if a == 2 then 20 else if a == 3 then 14 else if a == 4 then 15
        else if a == 6 then 39 else if a == 7 then 16 else -1
    case _ => -1
  }

  /** The action on a token that is not shifted; the exception table singles out state 1. */
  function DefaultTo(s: int, tok: int): int
  {
    if s == 1 then if tok == 1 then -1 else 0
    else Def(s)
  }

  const LR := Lr(TABLES, RHS, Kernel, Begins, First, Follow, Nullable, Rank)

  const EVIDENCE := Evidence(LR, Act, Pact, Pgo, Def, Chk, R1, R2, Rhs, ShiftTo, GotoTo, DefaultTo)

  function Size(n: int): int { if n == 0 then 1 else R2(n) }

  lemma Entries(i: int)
    ensures |TABLES.act| == 53 && |TABLES.pact| == |TABLES.chk| == |TABLES.def| == 40
    ensures |TABLES.pgo| == 12 && |TABLES.r1| == |TABLES.r2| == 28
    ensures EVIDENCE.Prints(i)
  {
  }

  lemma Rhss(n: int)
    ensures |RHS| == 28
    ensures 0 <= n < 28 ==> |RHS[n]| == Size(n) && forall d :: 0 <= d < Size(n) ==> RHS[n][d] == Rhs(n, d)
  {
  }

  lemma Lists(n: int)
    ensures EVIDENCE.Lists(n)
  {
    Rhss(n);
  }

  lemma Ranges(i: int)
    ensures EVIDENCE.InRange(i)
  {
  }

  lemma Sides(n: int, d: int)
    ensures EVIDENCE.SideInRange(n, d)
  {
  }

  lemma HasException(s: int)
    ensures EVIDENCE.HasException(s)
  {
    Entries(s);
    if 0 <= s < 40 && TABLES.def[s] == -2 {
    }
  }

  lemma Shaped()
    ensures EVIDENCE.Printed() && LR.GrammarShaped()
  {
    Entries(0);
    Rhss(0);
    forall i
      ensures EVIDENCE.Prints(i) && EVIDENCE.InRange(i) && EVIDENCE.Lists(i) && EVIDENCE.HasException(i)
    {
      Entries(i);
      Ranges(i);
      Lists(i);
      HasException(i);
    }
    forall n, d
      ensures EVIDENCE.SideInRange(n, d)
    {
      Sides(n, d);
    }
    PrintsShaped(EVIDENCE);
  }

  /** The symbol of the state in an entry of Act. */
  function EntrySymbol(i: int): int
  {
    match i
    case 0 => -6 case 1 => 4 case 2 => 5 case 3 => 12 case 4 => -2 case 5 => 21 case 6 => 22 case 7 => 11
    case 8 => 11 case 9 => 12 case 10 => -1 case 11 => 14 case 12 => 15 case 13 => 16 case 14 => 17 case 15 => 18
    case 16 => 19 case 17 => 4 case 18 => 5 case 19 => -10 case 20 => 4 case 21 => 5 case 22 => 5 case 23 => -6
    case 24 => 11 case 25 => 12 case 26 => 6 case 27 => 14 case 28 => -2 case 29 => 16 case 30 => 17 case 31 => 18
    case 32 => 19 case 33 => 5 case 34 => -1 case 35 => 19 case 36 => 7 case 37 => 7 case 38 => 11 case 39 => -6
    case 40 => 13 case 41 => -10 case 42 => -5 case 43 => 13 case 44 => 15 case 45 => -4 case 46 => -4 case 47 => -11
    case 48 => -9 case 49 => -8 case 50 => -7 case 51 => -3 case 52 => -5
    case _ => -1000
  }

  lemma EntrySymbols(i: int)
    ensures 0 <= i < 53 ==> Chk(Act(i)) == EntrySymbol(i)
  {
  }

  /** The packed lookups of a shift and a goto. */
  function ShiftOf(s: int, tok: int): int
  {
    var n := Pact(s) + tok;
    if Pact(s) <= -1000 || n < 0 || n >= 53 || Chk(Act(n)) != tok then -1 else Act(n)
  }

  function GotoOf(s: int, a: int): int
  {
    var j := Pgo(a) + s + 1;
    if j >= 53 || Chk(Act(j)) != -a then Act(Pgo(a)) else Act(j)
  }

  lemma EarlyShifts(s: int, x: int)
    requires 0 <= s < 20 && x > 0
    ensures ShiftOf(s, x) == ShiftTo(s, x)
  {
    EntrySymbols(Pact(s) + x);
  }

  lemma LateShifts(s: int, x: int)
    requires 20 <= s < 40 && x > 0
    ensures ShiftOf(s, x) == ShiftTo(s, x)
  {
    EntrySymbols(Pact(s) + x);
  }

  lemma Gotos(s: int, a: int)
    requires 0 <= s < 40 && 0 < a < 12 && Begins(s, a)
    ensures GotoOf(s, a) == GotoTo(s, a)
  {
  }

  lemma PacksShift(s: int, x: int)
    ensures EVIDENCE.PacksShift(s, x)
  {
    if 0 <= s < 40 && x > 0 {
      if s < 20 {
        EarlyShifts(s, x);
      } else {
        LateShifts(s, x);
      }
    }
  }

  lemma PacksGoto(s: int, a: int)
    ensures EVIDENCE.PacksGoto(s, a)
  {
    if 0 <= s < 40 && 0 < a < 12 && Begins(s, a) {
      Gotos(s, a);
    }
  }

  lemma PlainDefaults(s: int, tok: int)
    requires TABLES.Shaped() && 0 <= s < 40 && Def(s) != -2
    ensures TABLES.Default(s, tok) == DefaultTo(s, tok)
  {
    Entries(s);
  }

  lemma FirstDefault(tok: int)
    requires TABLES.Shaped()
    ensures TABLES.Default(1, tok) == DefaultTo(1, tok)
  {
    Entries(1);
    assert TABLES.FindState(1, 0) == 2 && TABLES.FindToken(tok, 4) == 0;
  }

  lemma PacksDefault(s: int, tok: int)
    requires TABLES.Shaped()
    ensures EVIDENCE.PacksDefault(s, tok)
  {
    if 0 <= s < 40 {
      if Def(s) == -2 {
        FirstDefault(tok);
      } else {
        PlainDefaults(s, tok);
      }
    }
  }

  lemma Packed()
    requires TABLES.Shaped()
    ensures EVIDENCE.Packed()
  {
    forall s, x
      ensures EVIDENCE.PacksShift(s, x) && EVIDENCE.PacksGoto(s, x) && EVIDENCE.PacksDefault(s, x)
    {
      PacksShift(s, x);
      PacksGoto(s, x);
      PacksDefault(s, x);
    }
  }

  lemma TokenStarts(s: int, n: int)
    ensures EVIDENCE.TokenStarts(s, n)
  {
  }

  lemma TokenMoves(s: int, n: int, d: int)
    ensures EVIDENCE.TokenMoves(s, n, d)
  {
  }

  lemma NonterminalStarts(s: int, n: int)
    ensures EVIDENCE.NonterminalStarts(s, n)
  {
  }

  lemma Awaits(s: int, n: int, d: int)
    ensures EVIDENCE.Awaits(s, n, d)
  {
  }

  lemma NonterminalMoves(s: int, n: int, d: int)
    ensures EVIDENCE.NonterminalMoves(s, n, d)
  {
  }

  lemma Enters(u: int, n: int, d: int)
    ensures EVIDENCE.Enters(u, n, d)
  {
  }

  lemma ShiftEnters(s: int, tok: int)
    ensures EVIDENCE.ShiftEnters(s, tok)
  {
  }

  lemma GotoEnters(s: int, a: int)
    ensures EVIDENCE.GotoEnters(s, a)
  {
  }

  lemma ShiftBackFirst(s: int, tok: int, n: int)
    ensures EVIDENCE.ShiftBackFirst(s, tok, n)
  {
  }

  lemma ShiftBackLater(s: int, tok: int, n: int, d: int)
    ensures EVIDENCE.ShiftBackLater(s, tok, n, d)
  {
  }

  lemma GotoBack(s: int, a: int, n: int, d: int)
    ensures EVIDENCE.GotoBack(s, a, n, d)
  {
  }

  lemma Moves()
    ensures EVIDENCE.Moves()
  {
    forall s, n
      ensures EVIDENCE.TokenStarts(s, n) && EVIDENCE.NonterminalStarts(s, n)
      ensures EVIDENCE.ShiftEnters(s, n) && EVIDENCE.GotoEnters(s, n)
    {
      TokenStarts(s, n);
      NonterminalStarts(s, n);
      ShiftEnters(s, n);
      GotoEnters(s, n);
    }
    forall s, n, d
      ensures EVIDENCE.TokenMoves(s, n, d) && EVIDENCE.NonterminalMoves(s, n, d) && EVIDENCE.Enters(s, n, d)
      ensures EVIDENCE.ShiftBackFirst(s, d, n) && EVIDENCE.Awaits(s, n, d)
    {
      Awaits(s, n, d);
      TokenMoves(s, n, d);
      NonterminalMoves(s, n, d);
      Enters(s, n, d);
      ShiftBackFirst(s, d, n);
    }
    forall s, x, n, d
      ensures EVIDENCE.ShiftBackLater(s, x, n, d) && EVIDENCE.GotoBack(s, x, n, d)
    {
      ShiftBackLater(s, x, n, d);
      GotoBack(s, x, n, d);
    }
  }

  lemma Reduces(s: int, tok: int)
    ensures EVIDENCE.Reduces(s, tok)
  {
  }

  lemma Unshifted(s: int, n: int, tok: int)
    ensures EVIDENCE.Unshifted(s, n, tok)
  {
  }

  lemma Finishes(s: int, n: int, tok: int)
    ensures EVIDENCE.Finishes(s, n, tok)
  {
  }

  lemma Acts()
    ensures EVIDENCE.Acts()
  {
    forall s, tok
      ensures EVIDENCE.Reduces(s, tok)
    {
      Reduces(s, tok);
    }
    forall s, n, tok
      ensures EVIDENCE.Unshifted(s, n, tok) && EVIDENCE.Finishes(s, n, tok)
    {
      Unshifted(s, n, tok);
      Finishes(s, n, tok);
    }
  }

  lemma StartsLeft(n: int, tok: int)
    ensures EVIDENCE.StartsLeft(n, tok)
  {
  }

  lemma FollowsRight(n: int, d: int, tok: int)
    ensures EVIDENCE.FollowsRight(n, d, tok)
  {
  }

  lemma Lightens(n: int)
    ensures EVIDENCE.Lightens(n)
  {
    Rhss(0);
  }

  lemma Bottom(s: int, n: int, d: int)
    ensures EVIDENCE.Bottom(s, n, d)
  {
    Rhss(0);
  }

  lemma Derives()
    ensures EVIDENCE.Derives()
  {
    forall n, tok
      ensures EVIDENCE.StartsLeft(n, tok)
    {
      StartsLeft(n, tok);
    }
    forall n, d, tok
      ensures EVIDENCE.FollowsRight(n, d, tok)
    {
      FollowsRight(n, d, tok);
    }
    forall n
      ensures EVIDENCE.Lightens(n)
    {
      Lightens(n);
    }
    forall s, n, d
      ensures EVIDENCE.Bottom(s, n, d)
    {
      Bottom(s, n, d);
    }
  }

  lemma Fits()
    ensures EVIDENCE.Fits()
  {
    Shaped();
    Packed();
    Moves();
    Acts();
    Derives();
  }

  /** The generated tables are an SLR automaton of the grammar. */
  lemma Certified()
    ensures LR.Certified()
  {
    Fits();
    Certifies(EVIDENCE);
  }
}
