/**
 How printed tables are shown to fit a grammar: their entries and the automaton they pack are
 given as functions, and what these have to satisfy is checked entry by entry, state by state and
 production by production.
 */
module Evidence {
  import opened Lalr

  /**
   The entries of the printed tables of g as functions, the symbols of its productions, and the
   automaton the tables pack: the state a shift or goto leads to, and the action taken otherwise.
   */
  datatype Evidence = Evidence(g: Lr, act: int -> int, pact: int -> int, pgo: int -> int, def: int -> int,
                               symbol: int -> int, left: int -> int, length: int -> int, right: (int, int) -> int,
                               shift: (int, int) -> int, goto: (int, int) -> int, default: (int, int) -> int)
  {
    predicate IsProd(n: int) { 0 <= n < |g.rhs| }

    predicate IsState(s: int) { 0 <= s < |g.t.chk| }

    predicate IsNonterminal(a: int) { 0 < a < |g.t.pgo| }

    /** Production 0 has no length in the tables. */
    function Size(n: int): int { if n == 0 then 1 else length(n) }

    predicate Item(s: int, n: int, d: int)
    {
      IsProd(n) && 0 <= d <= Size(n) && if d == 0 then g.Begins(s, left(n)) else g.Kernel(s, n, d)
    }

    predicate FirstOf(x: int, tok: int) { if x > 0 then x == tok else g.First(-x, tok) }

    // The printed tables.

    predicate Sized()
    {
      && 0 < |g.t.chk| == |g.t.pact| == |g.t.def| && |g.t.r1| == |g.t.r2| == |g.rhs| > 0
      && g.rhs[0] == [-g.Start()] && 0 < g.Start() < |g.t.pgo|
    }

    /** Entry i of each table. */
    predicate Prints(i: int)
    {
      && (0 <= i < |g.t.act| ==> g.t.act[i] == act(i))
      && (0 <= i < |g.t.pact| ==> g.t.pact[i] == pact(i))
      && (0 <= i < |g.t.pgo| ==> g.t.pgo[i] == pgo(i))
      && (0 <= i < |g.t.def| ==> g.t.def[i] == def(i))
      && (0 <= i < |g.t.chk| ==> g.t.chk[i] == symbol(i))
      && (0 <= i < |g.t.r1| ==> g.t.r1[i] == left(i))
      && (0 <= i < |g.t.r2| ==> g.t.r2[i] == length(i))
    }

    /** Entries that are used as an index are one. */
    predicate InRange(i: int)
    {
      && (0 <= i < |g.t.act| ==> 0 <= act(i) < |g.t.chk|)
      && (0 <= i < |g.t.pgo| ==> 0 <= pgo(i) < |g.t.act|)
      && (0 <= i < |g.t.r1| ==> 0 <= left(i) < |g.t.pgo| && 0 <= length(i) && (left(i) == 0 <==> i == 0))
      && (0 <= i < |g.t.def| ==> -2 <= def(i) < |g.t.r1| && def(i) != -1)
      && (0 <= i < |g.t.chk| ==> symbol(i) != ERR_CODE && (i == 0 ==> symbol(i) == FLAG))
    }

    ghost predicate HasException(s: int)
    {
      0 <= s < |g.t.def| && g.t.def[s] == -2 ==> g.t.FindState(s, 0) != NO_STATE && g.t.Ends(g.t.FindState(s, 0))
    }

    predicate Lists(n: int)
    {
      IsProd(n) ==> |g.rhs[n]| == Size(n) && forall d :: 0 <= d < |g.rhs[n]| ==> g.rhs[n][d] == right(n, d)
    }

    predicate SideInRange(n: int, d: int)
    {
      IsProd(n) && 0 <= d < Size(n) ==> right(n, d) > ERR_CODE || IsNonterminal(-right(n, d))
    }

    // The automaton they pack.

    predicate PacksShift(s: int, x: int)
    {
      IsState(s) && x > 0 ==>
        var n := pact(s) + x;
        shift(s, x) == if pact(s) <= FLAG || n < 0 || n >= |g.t.act| || symbol(act(n)) != x then NO_STATE else act(n)
    }

    predicate PacksGoto(s: int, a: int)
    {
      IsState(s) && IsNonterminal(a) && g.Begins(s, a) ==>
        var j := pgo(a) + s + 1;
        goto(s, a) == if j >= |g.t.act| || symbol(act(j)) != -a then act(pgo(a)) else act(j)
    }

    ghost predicate PacksDefault(s: int, tok: int)
      requires g.t.Shaped()
    {
      g.t.IsState(s) ==> g.t.Default(s, tok) == default(s, tok)
    }

    // Its moves.

    predicate TokenStarts(s: int, n: int)
    {
      IsProd(n) && g.Begins(s, left(n)) && Size(n) > 0 && right(n, 0) > 0 ==> g.Kernel(shift(s, right(n, 0)), n, 1)
    }

    predicate TokenMoves(s: int, n: int, d: int)
    {
      g.Kernel(s, n, d) && d < Size(n) && right(n, d) > 0 ==> g.Kernel(shift(s, right(n, d)), n, d + 1)
    }

    predicate NonterminalStarts(s: int, n: int)
    {
      IsProd(n) && g.Begins(s, left(n)) && Size(n) > 0 && right(n, 0) <= 0 ==>
        g.Begins(s, -right(n, 0)) && g.Kernel(goto(s, -right(n, 0)), n, 1)
    }

    predicate Awaits(s: int, n: int, d: int)
    {
      g.Kernel(s, n, d) && d < Size(n) && right(n, d) <= 0 ==> g.Begins(s, -right(n, d))
    }

    predicate NonterminalMoves(s: int, n: int, d: int)
    {
      g.Kernel(s, n, d) && d < Size(n) && right(n, d) <= 0 ==> g.Kernel(goto(s, -right(n, d)), n, d + 1)
    }

    /** Only states have kernel items, and a state is entered by the symbol before their dots. */
    predicate Enters(u: int, n: int, d: int)
    {
      g.Kernel(u, n, d) ==>
        0 < u < |g.t.chk| && IsProd(n) && 1 <= d <= Size(n) && right(n, d - 1) == symbol(u)
    }

    predicate ShiftEnters(s: int, tok: int)
    {
      tok > 0 && shift(s, tok) != NO_STATE ==>
        tok > ERR_CODE && 0 < shift(s, tok) < |g.t.chk| && symbol(shift(s, tok)) == tok
    }

    predicate GotoEnters(s: int, a: int)
    {
      IsNonterminal(a) && g.Begins(s, a) ==> 0 < goto(s, a) < |g.t.chk| && symbol(goto(s, a)) == -a
    }

    predicate ShiftBackFirst(s: int, tok: int, n: int)
    {
      shift(s, tok) != NO_STATE && g.Kernel(shift(s, tok), n, 1) ==> g.Begins(s, left(n))
    }

    predicate ShiftBackLater(s: int, tok: int, n: int, d: int)
    {
      shift(s, tok) != NO_STATE && g.Kernel(shift(s, tok), n, d) && d != 1 ==> g.Kernel(s, n, d - 1)
    }

    predicate GotoBack(s: int, a: int, n: int, d: int)
    {
      IsNonterminal(a) && g.Begins(s, a) && g.Kernel(goto(s, a), n, d) ==>
        if d == 1 then g.Begins(s, left(n)) else g.Kernel(s, n, d - 1)
    }

    // Its actions.

    predicate Reduces(s: int, tok: int)
    {
      var n := default(s, tok);
      IsState(s) && tok > 0 && shift(s, tok) == NO_STATE && n != 0 ==>
        if n < 0 then tok == EOF_CODE && g.Kernel(s, 0, 1) else Item(s, n, Size(n))
    }

    predicate Unshifted(s: int, n: int, tok: int)
    {
      IsState(s) && tok > 0 && Item(s, n, Size(n)) && g.Follow(left(n), tok) ==> shift(s, tok) == NO_STATE
    }

    predicate Finishes(s: int, n: int, tok: int)
    {
      IsState(s) && tok > 0 && Item(s, n, Size(n)) && g.Follow(left(n), tok) ==>
        if n == 0 then default(s, tok) < 0 else default(s, tok) == n
    }

    // Its grammar.

    predicate StartsLeft(n: int, tok: int)
    {
      0 < n < |g.rhs| && Size(n) > 0 && FirstOf(right(n, 0), tok) ==> g.First(left(n), tok)
    }

    predicate FollowsRight(n: int, d: int, tok: int)
    {
      IsProd(n) && 0 <= d < Size(n) && right(n, d) < 0 ==>
        && (n > 0 ==> !g.Nullable(-right(n, d)))
        && ((if d + 1 < Size(n) then FirstOf(right(n, d + 1), tok) else g.Follow(left(n), tok))
            ==> g.Follow(-right(n, d), tok))
    }

    predicate Lightens(n: int)
    {
      0 < n < |g.rhs| ==>
        var cost := 100 + g.Rank(-left(n));
        if Size(n) == 0 then left(n) == g.Start() && g.Nullable(left(n)) && cost < g.Rank(FLAG)
        else cost < 100 * Size(n) + g.Rank(right(n, Size(n) - 1))
    }

    predicate Bottom(s: int, n: int, d: int)
    {
      && ((g.Begins(s, 0) || g.Begins(s, g.Start())) ==> s == 0) && !g.Kernel(0, n, d) && 0 <= g.Rank(s)
      && g.Begins(0, 0) && g.Follow(0, EOF_CODE)
    }

    ghost predicate Printed()
    {
      && Sized() && (forall i :: Prints(i)) && (forall i :: InRange(i)) && (forall s :: HasException(s))
      && (forall n :: Lists(n)) && forall n, d :: SideInRange(n, d)
    }

    ghost predicate Packed()
      requires g.t.Shaped()
    {
      && (forall s, x :: PacksShift(s, x)) && (forall s, a :: PacksGoto(s, a))
      && forall s, tok :: PacksDefault(s, tok)
    }

    ghost predicate Moves()
    {
      && (forall s, n :: TokenStarts(s, n)) && (forall s, n, d :: TokenMoves(s, n, d))
      && (forall s, n :: NonterminalStarts(s, n)) && (forall s, n, d :: NonterminalMoves(s, n, d))
      && (forall s, n, d :: Awaits(s, n, d))
      && (forall u, n, d :: Enters(u, n, d))
      && (forall s, tok :: ShiftEnters(s, tok)) && (forall s, a :: GotoEnters(s, a))
      && (forall s, tok, n :: ShiftBackFirst(s, tok, n)) && (forall s, tok, n, d :: ShiftBackLater(s, tok, n, d))
      && forall s, a, n, d :: GotoBack(s, a, n, d)
    }

    ghost predicate Acts()
    {
      && (forall s, tok :: Reduces(s, tok)) && (forall s, n, tok :: Unshifted(s, n, tok))
      && forall s, n, tok :: Finishes(s, n, tok)
    }

    ghost predicate Derives()
    {
      && (forall n, tok :: StartsLeft(n, tok)) && (forall n, d, tok :: FollowsRight(n, d, tok))
      && (forall n :: Lightens(n)) && forall s, n, d :: Bottom(s, n, d)
    }

    ghost predicate Unpacked() { Printed() && g.GrammarShaped() && Packed() }

    ghost predicate Fits() { Unpacked() && Moves() && Acts() && Derives() }
  }

  lemma PrintsShaped(e: Evidence)
    requires e.Printed()
    ensures e.g.GrammarShaped()
  {
    forall i
      ensures e.Prints(i) && e.InRange(i) && e.HasException(i) && e.Lists(i)
    {
    }
    assert e.Prints(0) && e.InRange(0);
    forall n, d | 0 <= n < |e.g.rhs| && 0 <= d < |e.g.rhs[n]|
      ensures e.g.rhs[n][d] > ERR_CODE || 0 < -e.g.rhs[n][d] < |e.g.t.pgo|
    {
      assert e.Lists(n) && e.SideInRange(n, d);
    }
    ShapedEntries(e);
  }

  lemma ShapedEntries(e: Evidence)
    requires e.Printed()
    ensures e.g.t.Shaped() && forall s :: 0 <= s < |e.g.t.chk| ==> e.g.t.chk[s] != ERR_CODE
    ensures forall n :: 0 < n < |e.g.rhs| ==> e.g.t.r1[n] > 0 && e.g.t.r2[n] == |e.g.rhs[n]|
    ensures e.g.t.r1[0] == 0 && e.g.t.chk[0] == FLAG
  {
    forall i
      ensures 0 <= i < |e.g.t.act| ==> 0 <= e.g.t.act[i] < |e.g.t.chk|
      ensures 0 <= i < |e.g.t.pgo| ==> 0 <= e.g.t.pgo[i] < |e.g.t.act|
      ensures 0 <= i < |e.g.t.def| ==> -2 <= e.g.t.def[i] < |e.g.t.r1| && e.g.t.def[i] != -1
      ensures 0 <= i < |e.g.t.chk| ==> e.g.t.chk[i] != ERR_CODE && (i == 0 ==> e.g.t.chk[i] == FLAG)
      ensures e.HasException(i)
    {
      assert e.Prints(i) && e.InRange(i);
    }
    forall n | 0 <= n < |e.g.rhs|
      ensures 0 <= e.g.t.r1[n] < |e.g.t.pgo| && 0 <= e.g.t.r2[n] && (e.g.t.r1[n] == 0 <==> n == 0)
      ensures n > 0 ==> e.g.t.r2[n] == |e.g.rhs[n]|
    {
      assert e.Prints(n) && e.InRange(n) && e.Lists(n);
    }
  }

  lemma SidesAre(e: Evidence, n: int)
    requires e.Printed() && e.IsProd(n)
    ensures e.g.t.r1[n] == e.left(n) && |e.g.rhs[n]| == e.Size(n)
    ensures forall d :: 0 <= d < e.Size(n) ==> e.g.rhs[n][d] == e.right(n, d)
  {
    assert e.Prints(n) && e.Lists(n);
  }

  lemma ItemIs(e: Evidence, s: int, n: int, d: int)
    requires e.Printed() && e.g.GrammarShaped()
    ensures e.g.Item(s, n, d) <==> e.Item(s, n, d)
  {
    if e.IsProd(n) {
      SidesAre(e, n);
    }
  }

  lemma ShiftIs(e: Evidence, s: int, x: int)
    requires e.Unpacked() && e.IsState(s) && x > 0
    ensures e.g.t.Shift(s, x) == e.shift(s, x)
  {
    var n := e.pact(s) + x;
    assert e.Prints(s) && e.PacksShift(s, x);
    if 0 <= n < |e.g.t.act| {
      assert e.Prints(n) && e.Prints(e.act(n));
    }
  }

  lemma GotoIs(e: Evidence, s: int, a: int)
    requires e.Unpacked() && e.IsState(s) && e.IsNonterminal(a) && e.g.Begins(s, a)
    ensures e.g.t.Goto(s, a) == e.goto(s, a)
  {
    var j := e.pgo(a) + s + 1;
    assert e.Prints(a) && e.InRange(a) && e.PacksGoto(s, a);
    assert e.Prints(e.pgo(a));
    if j < |e.g.t.act| {
      assert e.Prints(j) && e.Prints(e.act(j));
    }
  }

  lemma ForwardFits(e: Evidence, s: int, n: int, d: int)
    requires e.Unpacked() && e.Moves() && e.IsState(s)
    ensures e.g.ItemForward(s, n, d)
  {
    ItemIs(e, s, n, d);
    if e.IsProd(n) {
      SidesAre(e, n);
    }
    if e.Item(s, n, d) && d < e.Size(n) {
      assert e.SideInRange(n, d) && e.g.rhs[n][d] == e.right(n, d);
      if e.right(n, d) > 0 {
        TokenForward(e, s, n, d);
      } else {
        NonterminalForward(e, s, n, d);
      }
    }
  }

  lemma TokenForward(e: Evidence, s: int, n: int, d: int)
    requires e.Unpacked() && e.Moves() && e.IsState(s)
    requires e.Item(s, n, d) && d < e.Size(n) && e.right(n, d) > 0
    ensures e.g.t.Shift(s, e.right(n, d)) != NO_STATE && e.g.Item(e.g.t.Shift(s, e.right(n, d)), n, d + 1)
  {
    var u := e.shift(s, e.right(n, d));
    assert d == 0 ==> e.TokenStarts(s, n);
    assert d > 0 ==> e.TokenMoves(s, n, d);
    assert e.Enters(u, n, d + 1);
    ShiftIs(e, s, e.right(n, d));
    ItemIs(e, u, n, d + 1);
  }

  lemma NonterminalForward(e: Evidence, s: int, n: int, d: int)
    requires e.Unpacked() && e.Moves() && e.IsState(s)
    requires e.Item(s, n, d) && d < e.Size(n) && e.right(n, d) <= 0 && e.IsNonterminal(-e.right(n, d))
    ensures e.g.Begins(s, -e.right(n, d)) && e.g.Item(e.g.t.Goto(s, -e.right(n, d)), n, d + 1)
  {
    var a := -e.right(n, d);
    assert d == 0 ==> e.NonterminalStarts(s, n);
    assert d > 0 ==> e.NonterminalMoves(s, n, d) && e.Awaits(s, n, d);
    GotoIs(e, s, a);
    ItemIs(e, e.goto(s, a), n, d + 1);
  }

  lemma LinkFits(e: Evidence, s: int, u: int)
    requires e.Unpacked() && e.Moves() && e.IsState(s) && 0 < u < |e.g.t.chk|
    requires forall n, d :: e.g.Kernel(u, n, d) ==> if d == 1 then e.g.Begins(s, e.left(n)) else e.g.Kernel(s, n, d - 1)
    ensures e.g.Link(s, u) && e.g.t.chk[u] == e.symbol(u)
  {
    assert e.Prints(u);
    forall n, d
      ensures e.g.ItemBack(s, u, n, d)
    {
      assert e.Enters(u, n, d);
      ItemIs(e, s, n, d - 1);
      if e.g.Kernel(u, n, d) {
        SidesAre(e, n);
      }
    }
  }

  lemma ShiftFits(e: Evidence, s: int, tok: int)
    requires e.Unpacked() && e.Moves() && e.IsState(s)
    ensures e.g.ShiftLinks(s, tok)
  {
    if tok > 0 {
      var u := e.shift(s, tok);
      ShiftIs(e, s, tok);
      if u != NO_STATE {
        assert e.ShiftEnters(s, tok);
        forall n, d | e.g.Kernel(u, n, d)
          ensures if d == 1 then e.g.Begins(s, e.left(n)) else e.g.Kernel(s, n, d - 1)
        {
          assert e.ShiftBackFirst(s, tok, n) && e.ShiftBackLater(s, tok, n, d);
        }
        LinkFits(e, s, u);
      }
    }
  }

  lemma GotoFits(e: Evidence, s: int, a: int)
    requires e.Unpacked() && e.Moves() && e.IsState(s)
    ensures e.g.GotoLinks(s, a)
  {
    if e.IsNonterminal(a) && e.g.Begins(s, a) {
      var u := e.goto(s, a);
      GotoIs(e, s, a);
      assert e.GotoEnters(s, a);
      forall n, d | e.g.Kernel(u, n, d)
        ensures if d == 1 then e.g.Begins(s, e.left(n)) else e.g.Kernel(s, n, d - 1)
      {
        assert e.GotoBack(s, a, n, d);
      }
      LinkFits(e, s, u);
    }
  }

  lemma DecideIs(e: Evidence, s: int, tok: int)
    requires e.Unpacked() && e.IsState(s) && tok > 0
    ensures Decide(e.g.t, s, tok) ==
            if e.shift(s, tok) != NO_STATE then Shifts(e.shift(s, tok))
            else if e.default(s, tok) < 0 then Accepts else if e.default(s, tok) == 0 then Fails
            else Action.Reduces(e.default(s, tok))
  {
    ShiftIs(e, s, tok);
    assert e.PacksDefault(s, tok);
  }

  lemma ItemActionFits(e: Evidence, s: int, tok: int)
    requires e.Unpacked() && e.Acts() && e.IsState(s)
    ensures e.g.ActsOnItem(s, tok)
  {
    if tok > 0 {
      var n := e.default(s, tok);
      DecideIs(e, s, tok);
      assert e.Reduces(s, tok);
      ItemIs(e, s, n, e.Size(n));
      if e.IsProd(n) {
        SidesAre(e, n);
      }
    }
  }

  lemma FollowActionFits(e: Evidence, s: int, n: int, tok: int)
    requires e.Unpacked() && e.Acts() && e.IsState(s)
    ensures e.g.ActsOnFollow(s, n, tok)
  {
    if e.IsProd(n) && tok > 0 {
      DecideIs(e, s, tok);
      assert e.Unshifted(s, n, tok) && e.Finishes(s, n, tok);
      SidesAre(e, n);
      ItemIs(e, s, n, e.Size(n));
    }
  }

  lemma StartFits(e: Evidence, n: int)
    requires e.Unpacked() && e.Derives()
    ensures e.g.ProdStarts(n)
  {
    if 0 < n < |e.g.rhs| {
      assert e.Lightens(n);
      SidesAre(e, n);
      var x := e.right(n, 0);
      forall tok | e.Size(n) > 0 && e.g.FirstOf(x, tok)
        ensures e.g.First(e.left(n), tok)
      {
        assert e.StartsLeft(n, tok);
      }
    }
  }

  lemma RankFits(e: Evidence, n: int)
    requires e.Unpacked() && e.Derives()
    ensures e.g.Ranked(n)
  {
    if 0 < n < |e.g.rhs| {
      assert e.Lightens(n);
      SidesAre(e, n);
    }
  }

  lemma FollowFits(e: Evidence, n: int, d: int)
    requires e.Unpacked() && e.Derives()
    ensures e.g.ProdFollows(n, d)
  {
    if e.IsProd(n) {
      SidesAre(e, n);
      if 0 <= d < e.Size(n) && e.right(n, d) < 0 {
        assert e.FollowsRight(n, d, EOF_CODE);
        var y := e.right(n, d + 1);
        forall tok | d + 1 < e.Size(n) && e.g.FirstOf(y, tok)
          ensures e.g.Follow(-e.right(n, d), tok)
        {
          assert e.FollowsRight(n, d, tok);
        }
        forall tok | d + 1 == e.Size(n) && e.g.Follow(e.left(n), tok)
          ensures e.g.Follow(-e.right(n, d), tok)
        {
          assert e.FollowsRight(n, d, tok);
        }
      }
    }
  }

  lemma BottomFits(e: Evidence)
    requires e.Derives()
    ensures forall s :: e.g.BottomOnly(s) && e.g.RankNatural(s)
    ensures e.g.Begins(0, 0) && e.g.Follow(0, EOF_CODE) && forall n, d :: e.g.NoKernel(n, d)
  {
    assert e.Bottom(0, 0, 0);
    forall s
      ensures e.g.BottomOnly(s) && e.g.RankNatural(s)
    {
      assert e.Bottom(s, 0, 0);
    }
    forall n, d
      ensures e.g.NoKernel(n, d)
    {
      assert e.Bottom(0, n, d);
    }
  }

  /** Tables that pass all checks fit their grammar. */
  lemma Certifies(e: Evidence)
    requires e.Fits()
    ensures e.g.Certified()
  {
    forall s, n, d | e.g.t.IsState(s)
      ensures e.g.ItemForward(s, n, d)
    {
      ForwardFits(e, s, n, d);
    }
    forall s, x | e.g.t.IsState(s)
      ensures e.g.ShiftLinks(s, x) && e.g.GotoLinks(s, x) && e.g.ActsOnItem(s, x)
    {
      ShiftFits(e, s, x);
      GotoFits(e, s, x);
      ItemActionFits(e, s, x);
    }
    forall s, n, tok | e.g.t.IsState(s)
      ensures e.g.ActsOnFollow(s, n, tok)
    {
      FollowActionFits(e, s, n, tok);
    }
    forall n
      ensures e.g.ProdStarts(n) && e.g.Ranked(n)
    {
      StartFits(e, n);
      RankFits(e, n);
    }
    forall n, d
      ensures e.g.ProdFollows(n, d)
    {
      FollowFits(e, n, d);
    }
    BottomFits(e);
  }
}
