/**
 The shift-reduce engine that goyacc prints into a generated parser, and what its
 tables have to satisfy for the engine to accept exactly the language of a grammar.
 The two generated parsers of the repository differ only in their tables and actions.

 Symbols follow the generated Chk table: a token is its positive code, a nonterminal A is -A.
 */
module Lalr {
  import opened Wrappers

  const EOF_CODE := 1
  const ERR_CODE := 2
  const FLAG := -1000
  const NO_STATE := -1

  /** A table given by its entries. */
  function Table(n: nat, entry: int -> int): (t: seq<int>)
    ensures |t| == n && forall i :: 0 <= i < n ==> t[i] == entry(i)
  {
    seq(n, i => entry(i))
  }

  /** The integer tables of a generated parser, named as the generator names them. */
  datatype Tables = Tables(exca: seq<int>, act: seq<int>, pact: seq<int>, pgo: seq<int>,
                           r1: seq<int>, r2: seq<int>, chk: seq<int>, def: seq<int>)
  {
    /** Every entry used as an index is one. */
    ghost predicate Shaped()
    {
      && 0 < |chk| == |pact| == |def|
      && |r1| == |r2|
      && (forall i :: 0 <= i < |act| ==> 0 <= act[i] < |chk|)
      && (forall n :: 0 <= n < |r1| ==> 0 <= r1[n] < |pgo| && 0 <= r2[n])
      && (forall a :: 0 <= a < |pgo| ==> 0 <= pgo[a] < |act|)
      && (forall s :: 0 <= s < |def| ==> -2 <= def[s] < |r1| && def[s] != -1)
      && (forall s :: 0 <= s < |def| && def[s] == -2 ==> FindState(s, 0) != NO_STATE && Ends(FindState(s, 0)))
    }

    ghost predicate IsState(s: int) { 0 <= s < |chk| }

    /** The state a shift of the token leads to, or NO_STATE. */
    function Shift(s: int, tok: int): int
      requires Shaped() && IsState(s)
    {
      var n := pact[s];
      if n <= FLAG || n + tok < 0 || n + tok >= |act| then NO_STATE
      else if chk[act[n + tok]] == tok then act[n + tok]
      else NO_STATE
    }

    /** The state that follows s once the nonterminal a has been reduced above it. */
    function Goto(s: int, a: int): int
      requires Shaped() && IsState(s) && 0 <= a < |pgo|
    {
      var j := pgo[a] + s + 1;
      if j >= |act| || chk[act[j]] != -a then act[pgo[a]] else act[j]
    }

    /** Where the entries of state s start in the exception table, or NO_STATE. */
    function FindState(s: int, x: nat): (y: int)
      ensures y == NO_STATE || x + 2 <= y < |exca|
      decreases |exca| - x
    {
      if x + 2 >= |exca| then NO_STATE
      else if exca[x] == -1 && exca[x + 1] == s then x + 2
      else FindState(s, x + 2)
    }

    /** The entries from x on lead to one for all tokens. */
    ghost predicate Ends(x: nat)
      decreases |exca| - x
    {
      x + 1 < |exca| && (exca[x] < 0 || Ends(x + 2))
    }

    /** The action of the first entry from x on that is for the token or for all others. */
    function FindToken(tok: int, x: nat): int
      requires Ends(x)
      decreases |exca| - x
    {
      if exca[x] < 0 || exca[x] == tok then exca[x + 1] else FindToken(tok, x + 2)
    }

    /** The action taken when the token is not shifted: negative accepts, 0 is an error. */
    function Default(s: int, tok: int): int
      requires Shaped() && IsState(s)
    {
      if def[s] == -2 then FindToken(tok, FindState(s, 0)) else def[s]
    }
  }

  datatype Action = Shifts(to: int) | Reduces(prod: int) | Accepts | Fails

  function Decide(t: Tables, s: int, tok: int): Action
    requires t.Shaped() && t.IsState(s)
  {
    var u := t.Shift(s, tok);
    if u != NO_STATE then Shifts(u)
    else
      var n := t.Default(s, tok);
      if n < 0 then Accepts else if n == 0 then Fails else Reduces(n)
  }

  /**
   Tables together with the grammar they were generated from and the evidence that they
   fit it: for each state its kernel items and the nonterminals it may begin, and for each
   nonterminal the tokens that may start and follow it. Production 0 is $accept: start.
   */
  datatype Lr = Lr(t: Tables,
                   rhs: seq<seq<int>>,
                   items: (int, int, int) -> bool,
                   starts: (int, int) -> bool,
                   firsts: (int, int) -> bool,
                   follows: (int, int) -> bool,
                   empties: int -> bool,
                   ranks: int -> int)
  {
    predicate Kernel(s: int, n: int, d: int) { items(s, n, d) }

    predicate Begins(s: int, a: int) { starts(s, a) }

    predicate First(a: int, tok: int) { firsts(a, tok) }

    predicate Follow(a: int, tok: int) { follows(a, tok) }

    predicate Nullable(a: int) { empties(a) }

    function Rank(x: int): int { ranks(x) }

    ghost predicate IsProd(n: int) { 0 <= n < |rhs| }

    /** State s holds the item of production n with d symbols before the dot. */
    ghost predicate Item(s: int, n: int, d: int)
      requires t.Shaped() && |rhs| == |t.r1|
    {
      IsProd(n) && 0 <= d <= |rhs[n]| &&
      if d == 0 then Begins(s, t.r1[n]) else Kernel(s, n, d)
    }

    /** The tables agree with the grammar on sizes and sides of productions. */
    ghost predicate GrammarShaped()
    {
      && t.Shaped()
      && 0 < |rhs| == |t.r1|
      && rhs[0] == [-Start()] && t.r1[0] == 0 && 0 < Start() < |t.pgo|
      && t.chk[0] == FLAG && (forall s :: 0 <= s < |t.chk| ==> t.chk[s] != ERR_CODE)
      && (forall n :: 0 < n < |rhs| ==> t.r1[n] > 0 && t.r2[n] == |rhs[n]|)
      && (forall n, d :: 0 <= n < |rhs| && 0 <= d < |rhs[n]| ==>
            rhs[n][d] > ERR_CODE || 0 < -rhs[n][d] < |t.pgo|)
    }

    function Start(): int { if |rhs| > 0 && |rhs[0]| == 1 then -rhs[0][0] else 0 }

    /** Stepping from s to u by the symbol of u takes every kernel item of u back into s. */
    ghost predicate Link(s: int, u: int)
      requires GrammarShaped()
    {
      t.IsState(u) && u != 0 && forall n, d :: ItemBack(s, u, n, d)
    }

    ghost predicate ItemBack(s: int, u: int, n: int, d: int)
      requires GrammarShaped() && t.IsState(u)
    {
      Kernel(u, n, d) ==>
        IsProd(n) && 1 <= d <= |rhs[n]| && rhs[n][d - 1] == t.chk[u] && Item(s, n, d - 1)
    }

    /** A state moves on by every symbol it expects, and begins every nonterminal it expects. */
    ghost predicate ItemForward(s: int, n: int, d: int)
      requires GrammarShaped() && t.IsState(s)
    {
      Item(s, n, d) && d < |rhs[n]| ==>
        var x := rhs[n][d];
        if x > 0 then t.Shift(s, x) != NO_STATE && Item(t.Shift(s, x), n, d + 1)
        else Begins(s, -x) && Item(t.Goto(s, -x), n, d + 1)
    }

    ghost predicate ShiftLinks(s: int, tok: int)
      requires GrammarShaped() && t.IsState(s)
    {
      tok > 0 && t.Shift(s, tok) != NO_STATE ==> tok > ERR_CODE && Link(s, t.Shift(s, tok))
    }

    ghost predicate GotoLinks(s: int, a: int)
      requires GrammarShaped() && t.IsState(s)
    {
      0 < a < |t.pgo| && Begins(s, a) ==> t.chk[t.Goto(s, a)] == -a && Link(s, t.Goto(s, a))
    }

    /** Only state 0 begins $accept or the start symbol, and nothing lies below it. */
    ghost predicate BottomOnly(s: int)
    {
      Begins(s, 0) || Begins(s, Start()) ==> s == 0
    }

    ghost predicate NoKernel(n: int, d: int) { !Kernel(0, n, d) }

    /** A state reduces only finished items, and accepts only at the end of the input. */
    ghost predicate ActsOnItem(s: int, tok: int)
      requires GrammarShaped() && t.IsState(s)
    {
      tok > 0 ==>
        match Decide(t, s, tok)
        case Reduces(n) => 0 < n && IsProd(n) && Item(s, n, |rhs[n]|)
        case Accepts => tok == EOF_CODE && Kernel(s, 0, 1)
        case _ => true
    }

    /** A finished item is acted on whenever the next token may follow its nonterminal. */
    ghost predicate ActsOnFollow(s: int, n: int, tok: int)
      requires GrammarShaped() && t.IsState(s)
    {
      IsProd(n) && Item(s, n, |rhs[n]|) && tok > 0 && Follow(t.r1[n], tok) ==>
        Decide(t, s, tok) == if n == 0 then Accepts else Reduces(n)
    }

    ghost predicate FirstOf(x: int, tok: int) { if x > 0 then x == tok else First(-x, tok) }

    ghost predicate StartsWith(a: int, x: int) { forall tok :: FirstOf(x, tok) ==> First(a, tok) }

    ghost predicate Before(a: int, x: int) { forall tok :: FirstOf(x, tok) ==> Follow(a, tok) }

    ghost predicate EndsWith(a: int, b: int) { forall tok :: Follow(a, tok) ==> Follow(b, tok) }

    /** The first tokens of a production are those of its nonterminal. */
    ghost predicate ProdStarts(n: int)
      requires GrammarShaped()
    {
      0 < n < |rhs| ==> if rhs[n] == [] then Nullable(t.r1[n]) else StartsWith(t.r1[n], rhs[n][0])
    }

    /** What follows symbol d of production n may follow the nonterminal there. */
    ghost predicate ProdFollows(n: int, d: int)
      requires GrammarShaped()
    {
      0 <= n < |rhs| && 0 <= d < |rhs[n]| && rhs[n][d] < 0 ==>
        && (n > 0 ==> !Nullable(-rhs[n][d]))
        && if d + 1 < |rhs[n]| then Before(-rhs[n][d], rhs[n][d + 1]) else EndsWith(t.r1[n], -rhs[n][d])
    }

    /** Production n lowers the weight of the stack: unit productions have no cycle. */
    ghost predicate Ranked(n: int)
      requires GrammarShaped()
    {
      0 < n < |rhs| ==>
        var cost := 100 + Rank(-t.r1[n]);
        if rhs[n] == [] then t.r1[n] == Start() && cost < Rank(FLAG)
        else cost < 100 * |rhs[n]| + Rank(rhs[n][|rhs[n]| - 1])
    }

    ghost predicate RankNatural(x: int) { 0 <= Rank(x) }

    ghost predicate Certified()
    {
      && GrammarShaped()
      && (forall s, n, d :: t.IsState(s) ==> ItemForward(s, n, d))
      && (forall s, tok :: t.IsState(s) ==> ShiftLinks(s, tok))
      && (forall s, a :: t.IsState(s) ==> GotoLinks(s, a))
      && (forall s :: BottomOnly(s)) && Begins(0, 0)
      && (forall n, d :: NoKernel(n, d))
      && (forall s, tok :: t.IsState(s) ==> ActsOnItem(s, tok))
      && (forall s, n, tok :: t.IsState(s) ==> ActsOnFollow(s, n, tok))
      && Follow(0, EOF_CODE)
      && (forall n :: ProdStarts(n))
      && (forall n, d :: ProdFollows(n, d))
      && (forall n :: Ranked(n)) && (forall x :: RankNatural(x))
    }
  }

  /** A token as the lexer hands it over: the internal code and the value record. */
  datatype Token<V> = Token(code: int, val: V)

  datatype Tree<V> = Leaf(tok: Token<V>) | Node(prod: int, kids: seq<Tree<V>>)

  function Root<V>(t: Tables, d: Tree<V>): int
  {
    match d
    case Leaf(tok) => tok.code
    case Node(n, _) => if 0 <= n < |t.r1| then -t.r1[n] else 0
  }

  /** d is a derivation tree of the grammar. */
  ghost predicate Derivation<V>(g: Lr, d: Tree<V>)
  {
    match d
    case Leaf(tok) => tok.code > ERR_CODE
    case Node(n, kids) =>
      && 0 < n < |g.rhs| && |kids| == |g.rhs[n]|
      && forall i :: 0 <= i < |kids| ==> Derivation(g, kids[i]) && Root(g.t, kids[i]) == g.rhs[n][i]
  }

  function Yield<V>(d: Tree<V>): seq<Token<V>>
    decreases d, 0
  {
    match d
    case Leaf(tok) => [tok]
    case Node(_, kids) => Yields(kids)
  }

  function Yields<V>(ds: seq<Tree<V>>): seq<Token<V>>
    decreases ds, 1
  {
    if ds == [] then [] else Yield(ds[0]) + Yields(ds[1..])
  }

  lemma {:induction false} YieldsConcat<V>(a: seq<Tree<V>>, b: seq<Tree<V>>)
    ensures Yields(a + b) == Yields(a) + Yields(b)
  {
    if a == [] {
      assert a + b == b && Yields(a) == [];
    } else {
      YieldsConcat(a[1..], b);
      HeadFirst(a, b);
      YieldsCons(a[0], a[1..]);
      YieldsCons(a[0], a[1..] + b);
      Associates(Yield(a[0]), Yields(a[1..]), Yields(b));
    }
  }

  lemma YieldsCons<V>(d: Tree<V>, ds: seq<Tree<V>>)
    ensures Yields([d] + ds) == Yield(d) + Yields(ds)
  {
    assert ([d] + ds)[1..] == ds;
  }

  lemma HeadFirst<T>(a: seq<T>, b: seq<T>)
    requires a != []
    ensures a == [a[0]] + a[1..] && a + b == [a[0]] + (a[1..] + b)
  {
  }

  lemma YieldsOne<V>(d: Tree<V>)
    ensures Yields([d]) == Yield(d)
  {
    assert [d][1..] == [];
  }

  lemma YieldsTwo<V>(a: Tree<V>, b: Tree<V>)
    ensures Yields([a, b]) == Yield(a) + Yield(b)
  {
    assert [a, b] == [a] + [b];
    YieldsConcat([a], [b]);
    YieldsOne(a);
    YieldsOne(b);
  }

  /** The engine between two decisions: state 0 and then one state per tree on the stack. */
  datatype Config<V> = Config(states: seq<int>, trees: seq<Tree<V>>, rest: seq<Token<V>>)
  {
    function Top(): int
      requires states != []
    {
      states[|states| - 1]
    }

    function Look(): int { if rest == [] then EOF_CODE else rest[0].code }
  }

  ghost predicate Input<V>(w: seq<Token<V>>)
  {
    forall i :: 0 <= i < |w| ==> w[i].code > ERR_CODE
  }

  /** What every decision of the engine keeps: the stack spells a viable prefix. */
  ghost predicate Inv<V>(g: Lr, c: Config<V>)
  {
    && g.GrammarShaped()
    && |c.states| == |c.trees| + 1 && c.states[0] == 0
    && Input(c.rest)
    && forall i :: 0 <= i < |c.trees| ==>
         && Linked(g, c.states, i)
         && Derivation(g, c.trees[i]) && Root(g.t, c.trees[i]) == g.t.chk[c.states[i + 1]]
  }

  ghost predicate Linked(g: Lr, states: seq<int>, i: nat)
    requires g.GrammarShaped() && i + 1 < |states|
  {
    g.t.IsState(states[i]) && g.Link(states[i], states[i + 1])
  }

  function Push<V>(c: Config<V>, s: int, d: Tree<V>): Config<V>
  {
    Config(c.states + [s], c.trees + [d], c.rest)
  }

  /** The stack is high enough for production n, above a state. */
  ghost predicate MayPop<V>(t: Tables, c: Config<V>, n: int)
  {
    && t.Shaped() && 0 <= n < |t.r1| && |c.states| == |c.trees| + 1 && t.r2[n] <= |c.trees|
    && t.IsState(c.states[|c.trees| - t.r2[n]])
  }

  /** Pops the right-hand side of production n and pushes its left-hand side. */
  function Reduce<V>(t: Tables, c: Config<V>, n: int): Config<V>
    requires MayPop(t, c, n)
  {
    var k := |c.trees| - t.r2[n];
    Push(Config(c.states[..k + 1], c.trees[..k], c.rest), t.Goto(c.states[k], t.r1[n]), Node(n, Last(c.trees, t.r2[n])))
  }

  lemma TopIsState<V>(g: Lr, c: Config<V>)
    requires Inv(g, c)
    ensures g.t.IsState(c.Top())
  {
    if c.trees != [] {
      assert Linked(g, c.states, |c.trees| - 1);
    }
  }

  lemma StackState<V>(g: Lr, c: Config<V>, i: nat)
    requires Inv(g, c) && i < |c.states|
    ensures g.t.IsState(c.states[i])
  {
    if i < |c.trees| {
      assert Linked(g, c.states, i);
    } else {
      TopIsState(g, c);
    }
  }

  /** Items trace down the stack: the symbols before a dot are the roots of the trees on top. */
  lemma {:induction false} ItemBelow<V>(g: Lr, c: Config<V>, i: nat, n: int, d: int)
    requires Inv(g, c) && g.Certified() && i < |c.states| && g.Item(c.states[i], n, d)
    ensures d <= i && g.Item(c.states[i - d], n, 0)
    ensures forall k :: 0 <= k < d ==> Root(g.t, c.trees[i - d + k]) == g.rhs[n][k]
    decreases d
  {
    if d > 0 {
      assert g.NoKernel(n, d);
      assert Linked(g, c.states, i - 1);
      assert g.ItemBack(c.states[i - 1], c.states[i], n, d);
      ItemBelow(g, c, i - 1, n, d - 1);
    }
  }

  ghost function Weight<V>(g: Lr, c: Config<V>): int
    requires Inv(g, c) && g.Certified()
    ensures Weight(g, c) >= 0
  {
    TopIsState(g, c);
    assert g.RankNatural(g.t.chk[c.Top()]);
    100 * |c.states| + g.Rank(g.t.chk[c.Top()])
  }

  lemma TopSymbol<V>(g: Lr, c: Config<V>, n: int)
    requires Inv(g, c) && g.Certified() && 0 < n < |g.rhs| && g.rhs[n] != [] && g.Item(c.Top(), n, |g.rhs[n]|)
    ensures g.t.IsState(c.Top()) && c.trees != []
    ensures g.t.chk[c.Top()] == g.rhs[n][|g.rhs[n]| - 1]
  {
    TopIsState(g, c);
    assert g.NoKernel(n, |g.rhs[n]|);
    assert Linked(g, c.states, |c.trees| - 1);
    assert g.ItemBack(c.states[|c.trees| - 1], c.Top(), n, |g.rhs[n]|);
  }

  lemma PrefixKeeps<V>(g: Lr, c: Config<V>, k: nat)
    requires Inv(g, c) && k <= |c.trees|
    ensures Inv(g, Config(c.states[..k + 1], c.trees[..k], c.rest))
  {
    var states := c.states[..k + 1];
    forall i | 0 <= i < k
      ensures Linked(g, states, i)
    {
      assert Linked(g, c.states, i);
    }
  }

  lemma PushKeeps<V>(g: Lr, c: Config<V>, u: int, d: Tree<V>)
    requires Inv(g, c) && g.Link(c.Top(), u)
    requires Derivation(g, d) && Root(g.t, d) == g.t.chk[u]
    ensures Inv(g, Push(c, u, d))
    ensures Yields(Push(c, u, d).trees) == Yields(c.trees) + Yield(d)
  {
    TopIsState(g, c);
    var c' := Push(c, u, d);
    forall i | 0 <= i < |c'.trees|
      ensures Linked(g, c'.states, i)
    {
      if i < |c.trees| {
        assert Linked(g, c.states, i);
      }
    }
    YieldsConcat(c.trees, [d]);
    YieldsOne(d);
  }

  /** Each reduction pops exactly the right-hand side of its production. */
  lemma PopsRightSide<V>(g: Lr, c: Config<V>, n: int)
    requires Inv(g, c) && g.Certified()
    requires 0 < n < |g.rhs| && g.Item(c.Top(), n, |g.rhs[n]|)
    ensures MayPop(g.t, c, n)
    ensures g.Begins(c.states[|c.trees| - g.t.r2[n]], g.t.r1[n])
    ensures Derivation(g, Node(n, Last(c.trees, g.t.r2[n])))
  {
    ItemBelow(g, c, |c.trees|, n, |g.rhs[n]|);
    var k := |c.trees| - |g.rhs[n]|;
    StackState(g, c, k);
    var kids := Last(c.trees, |g.rhs[n]|);
    forall i | 0 <= i < |kids|
      ensures Derivation(g, kids[i]) && Root(g.t, kids[i]) == g.rhs[n][i]
    {
      assert kids[i] == c.trees[k + i];
    }
  }

  lemma {:induction false} ReduceKeeps<V>(g: Lr, c: Config<V>, n: int)
    requires Inv(g, c) && g.Certified()
    requires 0 < n < |g.rhs| && g.Item(c.Top(), n, |g.rhs[n]|)
    ensures MayPop(g.t, c, n)
    ensures Inv(g, Reduce(g.t, c, n))
    ensures g.t.chk[Reduce(g.t, c, n).Top()] == -g.t.r1[n]
    ensures Yields(Reduce(g.t, c, n).trees) == Yields(c.trees)
  {
    PopsRightSide(g, c, n);
    var k := |c.trees| - g.t.r2[n];
    var below := Config(c.states[..k + 1], c.trees[..k], c.rest);
    var d := Node(n, Last(c.trees, g.t.r2[n]));
    var u := g.t.Goto(c.states[k], g.t.r1[n]);
    assert g.GotoLinks(c.states[k], g.t.r1[n]);
    PrefixKeeps(g, c, k);
    PushKeeps(g, below, u, d);
    assert Yields(below.trees) + Yields(d.kids) == Yields(c.trees) by {
      FrontAndLast(c.trees, g.t.r2[n]);
      YieldsConcat(c.trees[..k], d.kids);
    }
  }

  lemma ReduceLightens<V>(g: Lr, c: Config<V>, n: int)
    requires Inv(g, c) && g.Certified()
    requires 0 < n < |g.rhs| && g.Item(c.Top(), n, |g.rhs[n]|)
    requires MayPop(g.t, c, n)
    requires Inv(g, Reduce(g.t, c, n))
    requires g.t.chk[Reduce(g.t, c, n).Top()] == -g.t.r1[n]
    ensures Weight(g, Reduce(g.t, c, n)) < Weight(g, c)
  {
    assert g.Ranked(n);
    if g.rhs[n] != [] {
      TopSymbol(g, c, n);
    } else {
      TopIsState(g, c);
      assert g.BottomOnly(c.Top());
    }
  }

  ghost function Shifted<V>(c: Config<V>, u: int): Config<V>
    requires c.rest != []
  {
    Push(c.(rest := c.rest[1..]), u, Leaf(c.rest[0]))
  }

  lemma {:induction false} ShiftKeeps<V>(g: Lr, c: Config<V>, u: int)
    requires Inv(g, c) && g.Certified()
    requires g.t.IsState(c.Top()) && g.t.Shift(c.Top(), c.Look()) == u != NO_STATE
    ensures c.rest != [] && Inv(g, Shifted(c, u))
    ensures Yields(Shifted(c, u).trees) + Shifted(c, u).rest == Yields(c.trees) + c.rest
  {
    assert c.Look() > 0;
    assert g.ShiftLinks(c.Top(), c.Look());
    PushKeeps(g, c.(rest := c.rest[1..]), u, Leaf(c.rest[0]));
    assert [c.rest[0]] + c.rest[1..] == c.rest;
  }

  datatype Outcome<V> = Accepted(tree: Tree<V>) | Rejected

  /** The whole run of the engine from a configuration; it ends on every token sequence. */
  ghost function Run<V>(g: Lr, c: Config<V>): Outcome<V>
    requires Inv(g, c) && g.Certified()
    decreases |c.rest|, Weight(g, c)
  {
    TopIsState(g, c);
    assert g.ActsOnItem(c.Top(), c.Look());
    match Decide(g.t, c.Top(), c.Look())
    case Shifts(u) =>
      ShiftKeeps(g, c, u);
      Run(g, Shifted(c, u))
    case Reduces(n) =>
      ReduceKeeps(g, c, n);
      ReduceLightens(g, c, n);
      Run(g, Reduce(g.t, c, n))
    case Accepts => if c.trees == [] then Rejected else Accepted(c.trees[0])
    case Fails => Rejected
  }

  function Init<V>(w: seq<Token<V>>): Config<V> { Config([0], [], w) }

  ghost predicate Parses<V>(g: Lr, d: Tree<V>, w: seq<Token<V>>)
  {
    Derivation(g, d) && Root(g.t, d) == -g.Start() && Yield(d) == w
  }

  /** Soundness: what the engine accepts derives exactly the tokens it read. */
  lemma {:induction false} RunSound<V>(g: Lr, c: Config<V>)
    requires Inv(g, c) && g.Certified() && Run(g, c).Accepted?
    ensures Parses(g, Run(g, c).tree, Yields(c.trees) + c.rest)
    decreases |c.rest|, Weight(g, c)
  {
    TopIsState(g, c);
    assert g.ActsOnItem(c.Top(), c.Look());
    match Decide(g.t, c.Top(), c.Look())
    case Shifts(u) =>
      ShiftKeeps(g, c, u);
      RunSound(g, Shifted(c, u));
    case Reduces(n) =>
      ReduceKeeps(g, c, n);
      ReduceLightens(g, c, n);
      RunSound(g, Reduce(g.t, c, n));
    case Accepts =>
      ItemBelow(g, c, |c.trees|, 0, 1);
      AcceptingStack(g, c);
    case Fails =>
  }

  /** The engine accepts with one tree on the stack and no input left. */
  lemma AcceptingStack<V>(g: Lr, c: Config<V>)
    requires Inv(g, c) && g.Certified() && c.Look() == EOF_CODE && g.Kernel(c.Top(), 0, 1)
    ensures |c.trees| == 1 && c.rest == [] && Root(g.t, c.trees[0]) == -g.Start()
    ensures Yields(c.trees) == Yield(c.trees[0])
  {
    ItemBelow(g, c, |c.trees|, 0, 1);
    var k := |c.trees| - 1;
    assert Linked(g, c.states, k);
    assert g.BottomOnly(c.states[k]);
    assert k > 0 ==> Linked(g, c.states, k - 1);
    assert c.trees == [c.trees[0]];
    YieldsOne(c.trees[0]);
  }

  lemma {:induction false} FirstToken<V>(g: Lr, d: Tree<V>)
    requires g.Certified() && Derivation(g, d)
    requires Root(g.t, d) < 0 ==> !g.Nullable(-Root(g.t, d))
    ensures Yield(d) != [] && g.FirstOf(Root(g.t, d), Yield(d)[0].code)
  {
    match d
    case Leaf(tok) =>
    case Node(n, kids) =>
      assert g.ProdStarts(n);
      assert Root(g.t, kids[0]) == g.rhs[n][0];
      assert g.ProdStarts(n) && g.ProdFollows(n, 0);
      FirstToken(g, kids[0]);
  }

  function Look<V>(w: seq<Token<V>>): int { if w == [] then EOF_CODE else w[0].code }

  /** The token after child i of a node may follow the child's symbol. */
  lemma NextMayFollow<V>(g: Lr, d: Tree<V>, i: nat, rest: seq<Token<V>>)
    requires g.Certified() && d.Node? && Derivation(g, d) && i < |d.kids|
    requires g.Follow(-Root(g.t, d), Look(rest))
    ensures Root(g.t, d.kids[i]) < 0 ==> g.Follow(-Root(g.t, d.kids[i]), Look(Yields(d.kids[i + 1..]) + rest))
  {
    var x := Root(g.t, d.kids[i]);
    assert x == g.rhs[d.prod][i];
    assert g.ProdFollows(d.prod, i);
    if x < 0 {
      if i + 1 < |d.kids| {
        var y := Root(g.t, d.kids[i + 1]);
        assert y == g.rhs[d.prod][i + 1];
        assert g.ProdFollows(d.prod, i + 1);
        FirstToken(g, d.kids[i + 1]);
        assert g.Before(-x, y);
      } else {
        assert g.EndsWith(g.t.r1[d.prod], -x);
      }
    }
  }

  function Trans(t: Tables, s: int, x: int): int
    requires t.Shaped() && t.IsState(s) && -|t.pgo| < x
  {
    if x > 0 then t.Shift(s, x) else t.Goto(s, -x)
  }

  ghost predicate Expects<V>(g: Lr, c: Config<V>, n: int, i: int, x: int)
    requires Inv(g, c)
  {
    g.Item(c.Top(), n, i) && i < |g.rhs[n]| && g.rhs[n][i] == x
  }

  /** From a state that expects the root of d, the engine reads the tokens of d and pushes d. */
  lemma {:induction false} ReadsTree<V>(g: Lr, c: Config<V>, d: Tree<V>, rest: seq<Token<V>>, n: int, i: int)
    requires Inv(g, c) && g.Certified() && Derivation(g, d)
    requires Expects(g, c, n, i, Root(g.t, d)) && c.rest == Yield(d) + rest && Input(rest)
    requires Root(g.t, d) < 0 ==> g.Follow(-Root(g.t, d), Look(rest))
    ensures g.t.IsState(c.Top()) && -|g.t.pgo| < Root(g.t, d)
    ensures Inv(g, Push(c.(rest := rest), Trans(g.t, c.Top(), Root(g.t, d)), d))
    ensures Run(g, c) == Run(g, Push(c.(rest := rest), Trans(g.t, c.Top(), Root(g.t, d)), d))
    ensures g.Item(Trans(g.t, c.Top(), Root(g.t, d)), n, i + 1)
    decreases d, 1, 0
  {
    TopIsState(g, c);
    assert g.ItemForward(c.Top(), n, i);
    match d
    case Leaf(tok) =>
      assert c.rest[0] == tok && c.rest[1..] == rest;
      ShiftKeeps(g, c, g.t.Shift(c.Top(), tok.code));
    case Node(m, kids) =>
      var c' := ReadsKids(g, c, d, 0, rest);
      assert Yields(d.kids[|kids|..]) + rest == rest;
      TopIsState(g, c');
      assert g.ActsOnFollow(c'.Top(), m, c'.Look());
      ReduceKeeps(g, c', m);
      assert Reduce(g.t, c', m) == Push(c.(rest := rest), g.t.Goto(c.Top(), g.t.r1[m]), d);
  }

  /** The engine has read the first i children of the node d, and the others come next. */
  ghost predicate Reading<V>(g: Lr, c: Config<V>, d: Tree<V>, i: nat, rest: seq<Token<V>>)
  {
    && g.Certified() && Inv(g, c) && Derivation(g, d) && d.Node? && i <= |d.kids|
    && g.Item(c.Top(), d.prod, i) && c.rest == Yields(d.kids[i..]) + rest
    && Input(rest) && g.Follow(-Root(g.t, d), Look(rest))
  }

  lemma {:induction false} ReadsKids<V>(g: Lr, c: Config<V>, d: Tree<V>, i: nat, rest: seq<Token<V>>)
    returns (c': Config<V>)
    requires Reading(g, c, d, i, rest)
    ensures Reading(g, c', d, |d.kids|, rest)
    ensures c'.trees == c.trees + d.kids[i..] && |c.states| <= |c'.states| && c'.states[..|c.states|] == c.states
    ensures Run(g, c) == Run(g, c')
    decreases d, 0, |d.kids| - i
  {
    if i == |d.kids| {
      c' := c;
    } else {
      var next := ReadsKid(g, c, d, i, rest);
      c' := ReadsKids(g, next, d, i + 1, rest);
      JoinsKids(c, next, c', d.kids, i);
    }
  }

  lemma {:induction false} ReadsKid<V>(g: Lr, c: Config<V>, d: Tree<V>, i: nat, rest: seq<Token<V>>)
    returns (next: Config<V>)
    requires Reading(g, c, d, i, rest) && i < |d.kids|
    ensures Reading(g, next, d, i + 1, rest)
    ensures next.trees == c.trees + [d.kids[i]] && |c.states| <= |next.states| && next.states[..|c.states|] == c.states
    ensures Run(g, c) == Run(g, next)
    decreases d, 0, 0
  {
    var kid, after := d.kids[i], Yields(d.kids[i + 1..]) + rest;
    SplitKids(d.kids, i, rest);
    InputSuffix(Yield(kid), after);
    NextMayFollow(g, d, i, rest);
    assert Expects(g, c, d.prod, i, Root(g.t, kid));
    ReadsTree(g, c, kid, after, d.prod, i);
    next := Push(c.(rest := after), Trans(g.t, c.Top(), Root(g.t, kid)), kid);
  }

  lemma JoinsKids<V>(c: Config<V>, next: Config<V>, c': Config<V>, kids: seq<Tree<V>>, i: nat)
    requires i < |kids| && next.trees == c.trees + [kids[i]] && c'.trees == next.trees + kids[i + 1..]
    requires |c.states| <= |next.states| <= |c'.states|
    requires next.states[..|c.states|] == c.states && c'.states[..|next.states|] == next.states
    ensures c'.trees == c.trees + kids[i..] && c'.states[..|c.states|] == c.states
  {
    assert c'.states[..|c.states|] == next.states[..|c.states|];
  }

  lemma InputSuffix<V>(a: seq<Token<V>>, b: seq<Token<V>>)
    requires Input(a + b)
    ensures Input(b)
  {
    forall i | 0 <= i < |b|
      ensures b[i].code > ERR_CODE
    {
      assert (a + b)[|a| + i] == b[i];
    }
  }

  lemma SplitKids<V>(kids: seq<Tree<V>>, i: nat, rest: seq<Token<V>>)
    requires i < |kids|
    ensures Yields(kids[i..]) + rest == Yield(kids[i]) + (Yields(kids[i + 1..]) + rest)
    ensures kids[i..] == [kids[i]] + kids[i + 1..]
  {
    assert kids[i..][1..] == kids[i + 1..];
  }

  /** The leaves of a derivation can be the input. */
  lemma {:induction false} YieldIsInput<V>(g: Lr, d: Tree<V>)
    requires Derivation(g, d)
    ensures Input(Yield(d))
    decreases d, 0
  {
    if d.Node? {
      YieldsAreInput(g, d.kids);
    }
  }

  lemma {:induction false} YieldsAreInput<V>(g: Lr, ds: seq<Tree<V>>)
    requires forall i :: 0 <= i < |ds| ==> Derivation(g, ds[i])
    ensures Input(Yields(ds))
    decreases ds, 1
  {
    if ds != [] {
      YieldIsInput(g, ds[0]);
      YieldsAreInput(g, ds[1..]);
    }
  }

  /** Completeness: every derivable token sequence is accepted, with its own derivation. */
  lemma RunComplete<V>(g: Lr, d: Tree<V>, w: seq<Token<V>>)
    requires g.Certified() && Input(w) && Parses(g, d, w)
    ensures Inv(g, Init(w)) && Run(g, Init(w)) == Accepted(d)
  {
    var c := Init(w);
    assert Inv(g, c);
    assert Yield(d) + [] == w;
    assert Expects(g, c, 0, 0, Root(g.t, d));
    assert g.ProdFollows(0, 0);
    assert g.EndsWith(0, g.Start());
    ReadsTree(g, c, d, [], 0, 0);
    var end := Push(c.(rest := []), Trans(g.t, c.Top(), Root(g.t, d)), d);
    TopIsState(g, end);
    assert g.ActsOnFollow(end.Top(), 0, EOF_CODE);
  }

  /** The engine accepts a token sequence exactly when the grammar derives it. */
  lemma AcceptsExactly<V>(g: Lr, w: seq<Token<V>>)
    requires g.Certified() && Input(w)
    ensures Inv(g, Init(w))
    ensures forall d :: Run(g, Init(w)) == Accepted(d) <==> Parses(g, d, w)
  {
    assert Inv(g, Init(w));
    forall d
      ensures Run(g, Init(w)) == Accepted(d) <==> Parses(g, d, w)
    {
      if Parses(g, d, w) {
        RunComplete(g, d, w);
      }
      if Run(g, Init(w)) == Accepted(d) {
        RunSound(g, Init(w));
        assert Yields(Init<V>(w).trees) + w == w;
      }
    }
  }

  /** The grammar of certified tables is unambiguous. */
  lemma Unambiguous<V>(g: Lr, d: Tree<V>, e: Tree<V>)
    requires g.Certified() && Input(Yield(d)) && Parses(g, d, Yield(e)) && Parses(g, e, Yield(e))
    ensures d == e
  {
    RunComplete(g, d, Yield(e));
    RunComplete(g, e, Yield(e));
  }
}
