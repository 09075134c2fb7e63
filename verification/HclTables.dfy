module HclTables {
  import opened Evidence
  import opened Lalr

  /** Next states of shifts and gotos, packed. */
  function Act(i: int): int
  {
    match i
    case 0 => 36 case 1 => 3 case 2 => 22 case 3 => 30 case 4 => 9 case 5 => 17 case 6 => 27 case 7 => 26
    case 8 => 31 case 9 => 32 case 10 => 45 case 11 => 23 case 12 => 19 case 13 => 25 case 14 => 13 case 15 => 10
    case 16 => 24 case 17 => 39 case 18 => 27 case 19 => 26 case 20 => 6 case 21 => 18 case 22 => 47 case 23 => 7
    case 24 => 38 case 25 => 25 case 26 => 43 case 27 => 33 case 28 => 41 case 29 => 48 case 30 => 9 case 31 => 46
    case 32 => 44 case 33 => 40 case 34 => 39 case 35 => 27 case 36 => 26 case 37 => 42 case 38 => 5 case 39 => 1
    case 40 => 14 case 41 => 38 case 42 => 25 case 43 => 15 case 44 => 2 case 45 => 13 case 46 => 35 case 47 => 12
    case 48 => 49 case 49 => 6 case 50 => 40 case 51 => 4 case 52 => 7 case 53 => 27 case 54 => 26 case 55 => 29
    case 56 => 11 case 57 => 37 case 58 => 28 case 59 => 6 case 60 => 25 case 61 => 8 case 62 => 7 case 63 => 34
    case 64 => 21 case 65 => 0 case 66 => 0 case 67 => 20 case 68 => 16
    case _ => 0
  }

  /** Where the shifts of a state start in Act. */
  function Pact(i: int): int
  {
    match i
    case 0 => 51 case 1 => -1000 case 2 => 51 case 3 => -1000 case 4 => 6 case 5 => -1000 case 6 => -1000
        case 7 => -1000
    case 8 => 32 case 9 => -1000 case 10 => 1 case 11 => -1000 case 12 => -1000 case 13 => 41 case 14 => -1000
        case 15 => -1000
    case 16 => -1000 case 17 => -1000 case 18 => -1000 case 19 => -1000 case 20 => -1000 case 21 => -1000
        case 22 => -10 case 23 => -10
    case 24 => 30 case 25 => 48 case 26 => -1000 case 27 => -1000 case 28 => 12 case 29 => -1000
        case 30 => -1000 case 31 => 26
    case 32 => 4 case 33 => -1000 case 34 => 15 case 35 => -1000 case 36 => -1000 case 37 => -1000
        case 38 => -1000 case 39 => -1000
    case 40 => -1000 case 41 => -1000 case 42 => -1000 case 43 => -1000 case 44 => -1000 case 45 => -1000
        case 46 => -1000 case 47 => 13
    case 48 => -1000 case 49 => -1000
    case _ => 0
  }

  /** Where the gotos of a nonterminal start in Act. */
  function Pgo(i: int): int
  {
    match i
    case 0 => 0 case 1 => 11 case 2 => 2 case 3 => 64 case 4 => 63 case 5 => 44 case 6 => 38 case 7 => 57
    case 8 => 56 case 9 => 1 case 10 => 0 case 11 => 61 case 12 => 3 case 13 => 51 case 14 => 39
    case _ => 0
  }

  /** The nonterminal of a production. */
  function R1(i: int): int
  {
    match i
    case 0 => 0 case 1 => 14 case 2 => 14 case 3 => 5 case 4 => 5 case 5 => 8 case 6 => 8 case 7 => 13
    case 8 => 13 case 9 => 9 case 10 => 9 case 11 => 9 case 12 => 9 case 13 => 9 case 14 => 9 case 15 => 9
    case 16 => 6 case 17 => 6 case 18 => 11 case 19 => 11 case 20 => 3 case 21 => 3 case 22 => 3 case 23 => 4
    case 24 => 4 case 25 => 10 case 26 => 10 case 27 => 10 case 28 => 10 case 29 => 7 case 30 => 7 case 31 => 7
    case 32 => 7 case 33 => 2 case 34 => 2 case 35 => 1 case 36 => 1 case 37 => 12 case 38 => 12
    case _ => 0
  }

  /** The length of a production. */
  function R2(i: int): int
  {
    match i
    case 0 => 0 case 1 => 0 case 2 => 1 case 3 => 1 case 4 => 2 case 5 => 3 case 6 => 2 case 7 => 1
    case 8 => 1 case 9 => 3 case 10 => 3 case 11 => 3 case 12 => 3 case 13 => 3 case 14 => 3 case 15 => 1
    case 16 => 2 case 17 => 2 case 18 => 1 case 19 => 1 case 20 => 3 case 21 => 4 case 22 => 2 case 23 => 1
    case 24 => 3 case 25 => 1 case 26 => 1 case 27 => 1 case 28 => 1 case 29 => 1 case 30 => 1 case 31 => 2
    case 32 => 2 case 33 => 2 case 34 => 1 case 35 => 2 case 36 => 1 case 37 => 2 case 38 => 2
    case _ => 0
  }

  /** The symbol every state is entered by. */
  function Chk(i: int): int
  {
    match i
    case 0 => -1000 case 1 => -14 case 2 => -5 case 3 => -9 case 4 => -13 case 5 => -6 case 6 => 8 case 7 => 11
    case 8 => -11 case 9 => -9 case 10 => 9 case 11 => -8 case 12 => -6 case 13 => 13 case 14 => 8 case 15 => 11
    case 16 => -7 case 17 => 4 case 18 => 20 case 19 => 11 case 20 => -8 case 21 => -3 case 22 => -2 case 23 => -1
    case 24 => 15 case 25 => 12 case 26 => 6 case 27 => 5 case 28 => -5 case 29 => 14 case 30 => -12 case 31 => 18
    case 32 => 19 case 33 => -12 case 34 => -4 case 35 => 16 case 36 => -10 case 37 => -7 case 38 => 11 case 39 => 4
    case 40 => 20 case 41 => -2 case 42 => -1 case 43 => 14 case 44 => 6 case 45 => 6 case 46 => 16 case 47 => 7
    case 48 => 16 case 49 => -10
    case _ => -1000
  }

  /** The production a state reduces by default. */
  function Def(i: int): int
  {
    match i
    case 0 => 1 case 1 => -2 case 2 => 2 case 3 => 3 case 4 => 0 case 5 => 15 case 6 => -2 case 7 => -2
    case 8 => 0 case 9 => 4 case 10 => 0 case 11 => 16 case 12 => 17 case 13 => 0 case 14 => 18 case 15 => 19
    case 16 => 9 case 17 => 10 case 18 => 11 case 19 => 12 case 20 => 13 case 21 => 14 case 22 => 29 case 23 => 30
    case 24 => 0 case 25 => 0 case 26 => 34 case 27 => 36 case 28 => 0 case 29 => 6 case 30 => 31 case 31 => 0
    case 32 => 0 case 33 => 32 case 34 => 0 case 35 => 22 case 36 => 23 case 37 => 25 case 38 => 26 case 39 => 27
    case 40 => 28 case 41 => 33 case 42 => 35 case 43 => 5 case 44 => 37 case 45 => 38 case 46 => 20 case 47 => 0
    case 48 => 21 case 49 => 24
    case _ => 0
  }

  const EXCA: seq<int> := [-1, 1, 1, -1, -2, 0, -1, 6, 9, 7, -2, 18, -1, 7, 9, 8, -2, 19]

  const TABLES := Tables(EXCA, Table(69, Act), Table(50, Pact), Table(15, Pgo),
                         Table(39, R1), Table(39, R2), Table(50, Chk), Table(50, Def))

  const RHS: seq<seq<int>> := [
    /* 0 */ [-14],
    /* 1 */ [],
    /* 2 */ [-5],
    /* 3 */ [-9],
    /* 4 */ [-5, -9],
    /* 5 */ [13, -5, 14],
    /* 6 */ [13, 14],
    /* 7 */ [8],
    /* 8 */ [11],
    /* 9 */ [-13, 9, -7],
    /* 10 */ [-13, 9, 4],
    /* 11 */ [-13, 9, 20],
    /* 12 */ [-13, 9, 11],
    /* 13 */ [-13, 9, -8],
    /* 14 */ [-13, 9, -3],
    /* 15 */ [-6],
    /* 16 */ [-11, -8],
    /* 17 */ [-11, -6],
    /* 18 */ [8],
    /* 19 */ [11],
    /* 20 */ [15, -4, 16],
    /* 21 */ [15, -4, 7, 16],
    /* 22 */ [15, 16],
    /* 23 */ [-10],
    /* 24 */ [-4, 7, -10],
    /* 25 */ [-7],
    /* 26 */ [11],
    /* 27 */ [4],
    /* 28 */ [20],
    /* 29 */ [-2],
    /* 30 */ [-1],
    /* 31 */ [-2, -12],
    /* 32 */ [-1, -12],
    /* 33 */ [12, -2],
    /* 34 */ [6],
    /* 35 */ [12, -1],
    /* 36 */ [5],
    /* 37 */ [18, 6],
    /* 38 */ [19, 6]
  ]

  /** The kernel items (production, dot) of a state. */
  predicate Kernel(s: int, n: int, d: int)
  {
    match s
    case 1 => (n == 0 && d == 1)
    case 2 => (n == 2 && d == 1) || (n == 4 && d == 1)
    case 3 => (n == 3 && d == 1)
    case 4 => (n == 9 && d == 1) || (n == 10 && d == 1) || (n == 11 && d == 1) || (n == 12 && d == 1)
        || (n == 13 && d == 1) || (n == 14 && d == 1)
    case 5 => (n == 15 && d == 1)
    case 6 => (n == 7 && d == 1) || (n == 18 && d == 1)
    case 7 => (n == 8 && d == 1) || (n == 19 && d == 1)
    case 8 => (n == 16 && d == 1) || (n == 17 && d == 1)
    case 9 => (n == 4 && d == 2)
    case 10 => (n == 9 && d == 2) || (n == 10 && d == 2) || (n == 11 && d == 2) || (n == 12 && d == 2)
        || (n == 13 && d == 2) || (n == 14 && d == 2)
    case 11 => (n == 16 && d == 2)
    case 12 => (n == 17 && d == 2)
    case 13 => (n == 5 && d == 1) || (n == 6 && d == 1)
    case 14 => (n == 18 && d == 1)
    case 15 => (n == 19 && d == 1)
    case 16 => (n == 9 && d == 3)
    case 17 => (n == 10 && d == 3)
    case 18 => (n == 11 && d == 3)
    case 19 => (n == 12 && d == 3)
    case 20 => (n == 13 && d == 3)
    case 21 => (n == 14 && d == 3)
    case 22 => (n == 29 && d == 1) || (n == 31 && d == 1)
    case 23 => (n == 30 && d == 1) || (n == 32 && d == 1)
    case 24 => (n == 20 && d == 1) || (n == 21 && d == 1) || (n == 22 && d == 1)
    case 25 => (n == 33 && d == 1) || (n == 35 && d == 1)
    case 26 => (n == 34 && d == 1)
    case 27 => (n == 36 && d == 1)
    case 28 => (n == 4 && d == 1) || (n == 5 && d == 2)
    case 29 => (n == 6 && d == 2)
    case 30 => (n == 31 && d == 2)
    case 31 => (n == 37 && d == 1)
    case 32 => (n == 38 && d == 1)
    case 33 => (n == 32 && d == 2)
    case 34 => (n == 20 && d == 2) || (n == 21 && d == 2) || (n == 24 && d == 1)
    case 35 => (n == 22 && d == 2)
    case 36 => (n == 23 && d == 1)
    case 37 => (n == 25 && d == 1)
    case 38 => (n == 26 && d == 1)
    case 39 => (n == 27 && d == 1)
    case 40 => (n == 28 && d == 1)
    case 41 => (n == 33 && d == 2)
    case 42 => (n == 35 && d == 2)
    case 43 => (n == 5 && d == 3)
    case 44 => (n == 37 && d == 2)
    case 45 => (n == 38 && d == 2)
    case 46 => (n == 20 && d == 3)
    case 47 => (n == 21 && d == 3) || (n == 24 && d == 2)
    case 48 => (n == 21 && d == 4)
    case 49 => (n == 24 && d == 3)
    case _ => false
  }

  /** The nonterminals that may begin above a state. */
  predicate Begins(s: int, a: int)
  {
    match s
    case 0 => a == 0 || a == 5 || a == 6 || a == 9 || a == 11 || a == 13 || a == 14
    case 2 => a == 6 || a == 9 || a == 11 || a == 13
    case 8 => a == 6 || a == 8 || a == 11
    case 10 => a == 1 || a == 2 || a == 3 || a == 7 || a == 8
    case 13 => a == 5 || a == 6 || a == 9 || a == 11 || a == 13
    case 22 => a == 12
    case 23 => a == 12
    case 24 => a == 1 || a == 2 || a == 4 || a == 7 || a == 10
    case 25 => a == 1 || a == 2
    case 28 => a == 6 || a == 9 || a == 11 || a == 13
    case 47 => a == 1 || a == 2 || a == 7 || a == 10
    case _ => false
  }

  /** The tokens that may start a nonterminal. */
  predicate First(a: int, tok: int)
  {
    match a
    case 0 => tok == 8 || tok == 11
    case 1 => tok == 5 || tok == 12
    case 2 => tok == 6 || tok == 12
    case 3 => tok == 15
    case 4 => tok == 4 || tok == 5 || tok == 6 || tok == 11 || tok == 12 || tok == 20
    case 5 => tok == 8 || tok == 11
    case 6 => tok == 8 || tok == 11
    case 7 => tok == 5 || tok == 6 || tok == 12
    case 8 => tok == 13
    case 9 => tok == 8 || tok == 11
    case 10 => tok == 4 || tok == 5 || tok == 6 || tok == 11 || tok == 12 || tok == 20
    case 11 => tok == 8 || tok == 11
    case 12 => tok == 18 || tok == 19
    case 13 => tok == 8 || tok == 11
    case 14 => tok == 8 || tok == 11
    case _ => false
  }

  /** The tokens that may follow a nonterminal. */
  predicate Follow(a: int, tok: int)
  {
    match a
    case 0 => tok == 1
    case 1 => tok == 1 || tok == 7 || tok == 8 || tok == 11 || tok == 14 || tok == 16 || tok == 18 || tok == 19
    case 2 => tok == 1 || tok == 7 || tok == 8 || tok == 11 || tok == 14 || tok == 16 || tok == 18 || tok == 19
    case 3 => tok == 1 || tok == 8 || tok == 11 || tok == 14
    case 4 => tok == 7 || tok == 16
    case 5 => tok == 1 || tok == 8 || tok == 11 || tok == 14
    case 6 => tok == 1 || tok == 8 || tok == 11 || tok == 14
    case 7 => tok == 1 || tok == 7 || tok == 8 || tok == 11 || tok == 14 || tok == 16
    case 8 => tok == 1 || tok == 8 || tok == 11 || tok == 14
    case 9 => tok == 1 || tok == 8 || tok == 11 || tok == 14
    case 10 => tok == 7 || tok == 16
    case 11 => tok == 8 || tok == 11 || tok == 13
    case 12 => tok == 1 || tok == 7 || tok == 8 || tok == 11 || tok == 14 || tok == 16
    case 13 => tok == 9
    case 14 => tok == 1
    case _ => false
  }

  predicate Nullable(a: int) { a == 14 }

  /** Unit productions lead down this ranking. */
  function Rank(x: int): int
  {
    match x
    case -1000 => 300
    case -1 => 4
    case -2 => 4
    case -3 => 1
    case -4 => 1
    case -5 => 2
    case -6 => 4
    case -7 => 3
    case -8 => 1
    case -9 => 3
    case -10 => 2
    case -11 => 1
    case -12 => 1
    case -13 => 1
    case -14 => 1
    case _ => 50
  }

  /** The symbol at place d of production n. */
  function Rhs(n: int, d: int): int
  {
    match n
    case 0 => if d == 0 then -14 else 0
    case 2 => if d == 0 then -5 else 0
    case 3 => if d == 0 then -9 else 0
    case 4 => if d == 0 then -5 else if d == 1 then -9 else 0
    case 5 => if d == 0 then 13 else if d == 1 then -5 else if d == 2 then 14 else 0
    case 6 => if d == 0 then 13 else if d == 1 then 14 else 0
    case 7 => if d == 0 then 8 else 0
    case 8 => if d == 0 then 11 else 0
    case 9 => if d == 0 then -13 else if d == 1 then 9 else if d == 2 then -7 else 0
    case 10 => if d == 0 then -13 else if d == 1 then 9 else if d == 2 then 4 else 0
    case 11 => if d == 0 then -13 else if d == 1 then 9 else if d == 2 then 20 else 0
    case 12 => if d == 0 then -13 else if d == 1 then 9 else if d == 2 then 11 else 0
    case 13 => if d == 0 then -13 else if d == 1 then 9 else if d == 2 then -8 else 0
    case 14 => if d == 0 then -13 else if d == 1 then 9 else if d == 2 then -3 else 0
    case 15 => if d == 0 then -6 else 0
    case 16 => if d == 0 then -11 else if d == 1 then -8 else 0
    case 17 => if d == 0 then -11 else if d == 1 then -6 else 0
    case 18 => if d == 0 then 8 else 0
    case 19 => if d == 0 then 11 else 0
    case 20 => if d == 0 then 15 else if d == 1 then -4 else if d == 2 then 16 else 0
    case 21 => if d == 0 then 15 else if d == 1 then -4 else if d == 2 then 7 else if d == 3 then 16 else 0
    case 22 => if d == 0 then 15 else if d == 1 then 16 else 0
    case 23 => if d == 0 then -10 else 0
    case 24 => if d == 0 then -4 else if d == 1 then 7 else if d == 2 then -10 else 0
    case 25 => if d == 0 then -7 else 0
    case 26 => if d == 0 then 11 else 0
    case 27 => if d == 0 then 4 else 0
    case 28 => if d == 0 then 20 else 0
    case 29 => if d == 0 then -2 else 0
    case 30 => if d == 0 then -1 else 0
    case 31 => if d == 0 then -2 else if d == 1 then -12 else 0
    case 32 => if d == 0 then -1 else if d == 1 then -12 else 0
    case 33 => if d == 0 then 12 else if d == 1 then -2 else 0
    case 34 => if d == 0 then 6 else 0
    case 35 => if d == 0 then 12 else if d == 1 then -1 else 0
    case 36 => if d == 0 then 5 else 0
    case 37 => if d == 0 then 18 else if d == 1 then 6 else 0
    case 38 => if d == 0 then 19 else if d == 1 then 6 else 0
    case _ => 0
  }

  /** The state that a shift leads to, or -1. */
  function ShiftTo(s: int, tok: int): int
  {
    match s
    case 0 => if tok == 8 then 6 else if tok == 11 then 7 else -1
    case 2 => if tok == 8 then 6 else if tok == 11 then 7 else -1
    case 4 => if tok == 9 then 10 else -1
    case 8 => if tok == 8 then 14 else if tok == 11 then 15 else if tok == 13 then 13 else -1
    case 10 => if tok == 4 then 17 else if tok == 5 then 27 else if tok == 6 then 26 else if tok == 11 then 19
        else if tok == 12 then 25 else if tok == 13 then 13 else if tok == 15 then 24
        else if tok == 20 then 18 else -1
    case 13 => if tok == 8 then 6 else if tok == 11 then 7 else if tok == 14 then 29 else -1
    case 22 => if tok == 18 then 31 else if tok == 19 then 32 else -1
    case 23 => if tok == 18 then 31 else if tok == 19 then 32 else -1
    case 24 => if tok == 4 then 39 else if tok == 5 then 27 else if tok == 6 then 26 else if tok == 11 then 38
        else if tok == 12 then 25 else if tok == 16 then 35 else if tok == 20 then 40 else -1
    case 25 => if tok == 5 then 27 else if tok == 6 then 26 else if tok == 12 then 25 else -1
    case 28 => if tok == 8 then 6 else if tok == 11 then 7 else if tok == 14 then 43 else -1
    case 31 => if tok == 6 then 44 else -1
    case 32 => if tok == 6 then 45 else -1
    case 34 => if tok == 7 then 47 else if tok == 16 then 46 else -1
    case 47 => if tok == 4 then 39 else if tok == 5 then 27 else if tok == 6 then 26 else if tok == 11 then 38
        else if tok == 12 then 25 else if tok == 16 then 48 else if tok == 20 then 40 else -1
    case _ => -1
  }

  /** The state that follows a state once a nonterminal has been reduced above it. */
  function GotoTo(s: int, a: int): int
  {
    match s
    case 0 => if a == 5 then 2 else if a == 6 then 5 else if a == 9 then 3 else if a == 11 then 8
        else if a == 13 then 4 else if a == 14 then 1 else -1
    case 2 => if a == 6 then 5 else if a == 9 then 9 else if a == 11 then 8 else if a == 13 then 4 else -1
    case 8 => if a == 6 then 12 else if a == 8 then 11 else if a == 11 then 8 else -1
    case 10 => if a == 1 then 23 else if a == 2 then 22 else if a == 3 then 21 else if a == 7 then 16
        else if a == 8 then 20 else -1
    case 13 => if a == 5 then 28 else if a == 6 then 5 else if a == 9 then 3 else if a == 11 then 8
        else if a == 13 then 4 else -1
    case 22 => if a == 12 then 30 else -1
    case 23 => if a == 12 then 33 else -1
    case 24 => if a == 1 then 23 else if a == 2 then 22 else if a == 4 then 34 else if a == 7 then 37
        else if a == 10 then 36 else -1
    case 25 => if a == 1 then 42 else if a == 2 then 41 else -1
    case 28 => if a == 6 then 5 else if a == 9 then 9 else if a == 11 then 8 else if a == 13 then 4 else -1
    case 47 => if a == 1 then 23 else if a == 2 then 22 else if a == 7 then 37 else if a == 10 then 49 else -1
    case _ => -1
  }

  /** The action on a token that is not shifted; the exception table singles out states 1, 6 and 7. */
  function DefaultTo(s: int, tok: int): int
  {
    if s == 1 then if tok == 1 then -1 else 0
    else if s == 6 then if tok == 9 then 7 else 18
    else if s == 7 then if tok == 9 then 8 else 19
    else Def(s)
  }

  const LR := Lr(TABLES, RHS, Kernel, Begins, First, Follow, Nullable, Rank)

  const EVIDENCE := Evidence(LR, Act, Pact, Pgo, Def, Chk, R1, R2, Rhs, ShiftTo, GotoTo, DefaultTo)

  function Size(n: int): int { if n == 0 then 1 else R2(n) }

  lemma Entries(i: int)
    ensures |TABLES.act| == 69 && |TABLES.pact| == |TABLES.chk| == |TABLES.def| == 50
    ensures |TABLES.pgo| == 15 && |TABLES.r1| == |TABLES.r2| == 39
    ensures EVIDENCE.Prints(i)
  {
  }

  lemma Rhss(n: int)
    ensures |RHS| == 39
    ensures 0 <= n < 39 ==> |RHS[n]| == Size(n) && forall d :: 0 <= d < Size(n) ==> RHS[n][d] == Rhs(n, d)
  {
  }

  lemma Lists(n: int)
    ensures EVIDENCE.Lists(n)
  {
    Rhss(n);
  }

  lemma Ranges(i: int)
    ensures EVIDENCE.InRange(i)
  {
  }

  lemma Sides(n: int, d: int)
    ensures EVIDENCE.SideInRange(n, d)
  {
  }

  lemma Exceptions(s: int)
    requires s == 6 || s == 7
    ensures TABLES.FindState(s, 0) == if s == 6 then 8 else 14
  {
    assert s == 7 ==> TABLES.FindState(s, 10) == TABLES.FindState(s, 12) == 14;
    assert s == 7 ==> TABLES.FindState(s, 6) == TABLES.FindState(s, 8) == 14;
    assert s == 6 ==> TABLES.FindState(s, 6) == 8;
    assert TABLES.FindState(s, 2) == TABLES.FindState(s, 4) == TABLES.FindState(s, 6);
  }

  lemma HasException(s: int)
    ensures EVIDENCE.HasException(s)
  {
    Entries(s);
    if 0 <= s < 50 && TABLES.def[s] == -2 && s != 1 {
      Exceptions(s);
    }
  }

  lemma Shaped()
    ensures EVIDENCE.Printed() && LR.GrammarShaped()
  {
    Entries(0);
    Rhss(0);
    forall i
      ensures EVIDENCE.Prints(i) && EVIDENCE.InRange(i) && EVIDENCE.Lists(i) && EVIDENCE.HasException(i)
    {
      Entries(i);
      Ranges(i);
      Lists(i);
      HasException(i);
    }
    forall n, d
      ensures EVIDENCE.SideInRange(n, d)
    {
      Sides(n, d);
    }
    PrintsShaped(EVIDENCE);
  }

  /** The symbol of the state in an entry of Act. */
  function EntrySymbol(i: int): int
  {
    match i
    case 0 => -10 case 1 => -9 case 2 => -2 case 3 => -12 case 4 => -9 case 5 => 4 case 6 => 5 case 7 => 6
    case 8 => 18 case 9 => 19 case 10 => 6 case 11 => -1 case 12 => 11 case 13 => 12 case 14 => 13 case 15 => 9
    case 16 => 15 case 17 => 4 case 18 => 5 case 19 => 6 case 20 => 8 case 21 => 20 case 22 => 7 case 23 => 11
    case 24 => 11 case 25 => 12 case 26 => 14 case 27 => -12 case 28 => -2 case 29 => 16 case 30 => -9 case 31 => 16
    case 32 => 6 case 33 => 20 case 34 => 4 case 35 => 5 case 36 => 6 case 37 => -1 case 38 => -6 case 39 => -14
    case 40 => 8 case 41 => 11 case 42 => 12 case 43 => 11 case 44 => -5 case 45 => 13 case 46 => 16 case 47 => -6
    case 48 => -10 case 49 => 8 case 50 => 20 case 51 => -13 case 52 => 11 case 53 => 5 case 54 => 6 case 55 => 14
    case 56 => -8 case 57 => -7 case 58 => -5 case 59 => 8 case 60 => 12 case 61 => -11 case 62 => 11 case 63 => -4
    case 64 => -3 case 65 => -1000 case 66 => -1000 case 67 => -8 case 68 => -7
    case _ => -1000
  }

  lemma EntrySymbols(i: int)
    ensures 0 <= i < 69 ==> Chk(Act(i)) == EntrySymbol(i)
  {
  }

  /** The packed lookups of a shift and a goto. */
  function ShiftOf(s: int, tok: int): int
  {
    var n := Pact(s) + tok;
    if Pact(s) <= -1000 || n < 0 || n >= 69 || Chk(Act(n)) != tok then -1 else Act(n)
  }

  function GotoOf(s: int, a: int): int
  {
    var j := Pgo(a) + s + 1;
    if j >= 69 || Chk(Act(j)) != -a then Act(Pgo(a)) else Act(j)
  }

  lemma EarlyShifts(s: int, x: int)
    requires 0 <= s < 25 && x > 0
    ensures ShiftOf(s, x) == ShiftTo(s, x)
  {
    EntrySymbols(Pact(s) + x);
  }

  lemma LateShifts(s: int, x: int)
    requires 25 <= s < 50 && x > 0
    ensures ShiftOf(s, x) == ShiftTo(s, x)
  {
    EntrySymbols(Pact(s) + x);
  }

  lemma Gotos(s: int, a: int)
    requires 0 <= s < 50 && 0 < a < 15 && Begins(s, a)
    ensures GotoOf(s, a) == GotoTo(s, a)
  {
  }

  lemma PacksShift(s: int, x: int)
    ensures EVIDENCE.PacksShift(s, x)
  {
    if 0 <= s < 50 && x > 0 {
      if s < 25 {
        EarlyShifts(s, x);
      } else {
        LateShifts(s, x);
      }
    }
  }

  lemma PacksGoto(s: int, a: int)
    ensures EVIDENCE.PacksGoto(s, a)
  {
    if 0 <= s < 50 && 0 < a < 15 && Begins(s, a) {
      Gotos(s, a);
    }
  }

  lemma PlainDefaults(s: int, tok: int)
    requires TABLES.Shaped() && 0 <= s < 50 && Def(s) != -2
    ensures TABLES.Default(s, tok) == DefaultTo(s, tok)
  {
    Entries(s);
  }

  lemma FirstDefault(tok: int)
    requires TABLES.Shaped()
    ensures TABLES.Default(1, tok) == DefaultTo(1, tok)
  {
    Entries(1);
    assert TABLES.FindState(1, 0) == 2 && TABLES.FindToken(tok, 4) == 0;
  }

  lemma NameDefaults(s: int, tok: int)
    requires TABLES.Shaped() && (s == 6 || s == 7)
    ensures TABLES.Default(s, tok) == DefaultTo(s, tok)
  {
    Entries(s);
    Exceptions(s);
    assert TABLES.FindToken(tok, 10) == 18 && TABLES.FindToken(tok, 16) == 19;
  }

  lemma PacksDefault(s: int, tok: int)
    requires TABLES.Shaped()
    ensures EVIDENCE.PacksDefault(s, tok)
  {
    if 0 <= s < 50 {
      if Def(s) == -2 {
        if s == 1 {
          FirstDefault(tok);
        } else {
          NameDefaults(s, tok);
        }
      } else {
        PlainDefaults(s, tok);
      }
    }
  }

  lemma Packed()
    requires TABLES.Shaped()
    ensures EVIDENCE.Packed()
  {
    forall s, x
      ensures EVIDENCE.PacksShift(s, x) && EVIDENCE.PacksGoto(s, x) && EVIDENCE.PacksDefault(s, x)
    {
      PacksShift(s, x);
      PacksGoto(s, x);
      PacksDefault(s, x);
    }
  }

  lemma TokenStarts(s: int, n: int)
    ensures EVIDENCE.TokenStarts(s, n)
  {
  }

  lemma TokenMoves(s: int, n: int, d: int)
    ensures EVIDENCE.TokenMoves(s, n, d)
  {
  }

  lemma NonterminalStarts(s: int, n: int)
    ensures EVIDENCE.NonterminalStarts(s, n)
  {
  }

  lemma Awaits(s: int, n: int, d: int)
    ensures EVIDENCE.Awaits(s, n, d)
  {
  }

  lemma NonterminalMoves(s: int, n: int, d: int)
    ensures EVIDENCE.NonterminalMoves(s, n, d)
  {
  }

  lemma Enters(u: int, n: int, d: int)
    ensures EVIDENCE.Enters(u, n, d)
  {
  }

  lemma ShiftEnters(s: int, tok: int)
    ensures EVIDENCE.ShiftEnters(s, tok)
  {
  }

  lemma GotoEnters(s: int, a: int)
    ensures EVIDENCE.GotoEnters(s, a)
  {
  }

  lemma ShiftBackFirst(s: int, tok: int, n: int)
    ensures EVIDENCE.ShiftBackFirst(s, tok, n)
  {
  }

  lemma ShiftBackLater(s: int, tok: int, n: int, d: int)
    ensures EVIDENCE.ShiftBackLater(s, tok, n, d)
  {
  }

  lemma GotoBack(s: int, a: int, n: int, d: int)
    ensures EVIDENCE.GotoBack(s, a, n, d)
  {
  }

  lemma Moves()
    ensures EVIDENCE.Moves()
  {
    forall s, n
      ensures EVIDENCE.TokenStarts(s, n) && EVIDENCE.NonterminalStarts(s, n)
      ensures EVIDENCE.ShiftEnters(s, n) && EVIDENCE.GotoEnters(s, n)
    {
      TokenStarts(s, n);
      NonterminalStarts(s, n);
      ShiftEnters(s, n);
      GotoEnters(s, n);
    }
    forall s, n, d
      ensures EVIDENCE.TokenMoves(s, n, d) && EVIDENCE.NonterminalMoves(s, n, d) && EVIDENCE.Enters(s, n, d)
      ensures EVIDENCE.ShiftBackFirst(s, d, n) && EVIDENCE.Awaits(s, n, d)
    {
      Awaits(s, n, d);
      TokenMoves(s, n, d);
      NonterminalMoves(s, n, d);
      Enters(s, n, d);
      ShiftBackFirst(s, d, n);
    }
    forall s, x, n, d
      ensures EVIDENCE.ShiftBackLater(s, x, n, d) && EVIDENCE.GotoBack(s, x, n, d)
    {
      ShiftBackLater(s, x, n, d);
      GotoBack(s, x, n, d);
    }
  }

  lemma Reduces(s: int, tok: int)
    ensures EVIDENCE.Reduces(s, tok)
  {
  }

  lemma Unshifted(s: int, n: int, tok: int)
    ensures EVIDENCE.Unshifted(s, n, tok)
  {
  }

  lemma Finishes(s: int, n: int, tok: int)
    ensures EVIDENCE.Finishes(s, n, tok)
  {
  }

  lemma Acts()
    ensures EVIDENCE.Acts()
  {
    forall s, tok
      ensures EVIDENCE.Reduces(s, tok)
    {
      Reduces(s, tok);
    }
    forall s, n, tok
      ensures EVIDENCE.Unshifted(s, n, tok) && EVIDENCE.Finishes(s, n, tok)
    {
      Unshifted(s, n, tok);
      Finishes(s, n, tok);
    }
  }

  lemma StartsLeft(n: int, tok: int)
    ensures EVIDENCE.StartsLeft(n, tok)
  {
  }

  lemma FollowsRight(n: int, d: int, tok: int)
    ensures EVIDENCE.FollowsRight(n, d, tok)
  {
  }

  lemma Lightens(n: int)
    ensures EVIDENCE.Lightens(n)
  {
    Rhss(0);
  }

  lemma Bottom(s: int, n: int, d: int)
    ensures EVIDENCE.Bottom(s, n, d)
  {
    Rhss(0);
  }

  lemma Derives()
    ensures EVIDENCE.Derives()
  {
    forall n, tok
      ensures EVIDENCE.StartsLeft(n, tok)
    {
      StartsLeft(n, tok);
    }
    forall n, d, tok
      ensures EVIDENCE.FollowsRight(n, d, tok)
    {
      FollowsRight(n, d, tok);
    }
    forall n
      ensures EVIDENCE.Lightens(n)
    {
      Lightens(n);
    }
    forall s, n, d
      ensures EVIDENCE.Bottom(s, n, d)
    {
      Bottom(s, n, d);
    }
  }

  lemma Fits()
    ensures EVIDENCE.Fits()
  {
    Shaped();
    Packed();
    Moves();
    Acts();
    Derives();
  }

  /** The generated tables are an SLR automaton of the grammar. */
  lemma Certified()
    ensures LR.Certified()
  {
    Fits();
    Certifies(EVIDENCE);
  }
}
