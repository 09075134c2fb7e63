/**
 The loop of a goyacc parser over its growing stack array, proved against the automaton
 of Lalr, and the values its actions compute, as an evaluation of the derivation tree.
 */
module Engine {
  import opened Lalr
  import opened Wrappers

  const PRIVATE := 57344
  const MAX_DEPTH := 200

  /**
   The code of a parser's actions. Act is given the production, the default value $$ = $1
   and the values $1, $2, ..; it gives the new $$ and what it stores into the global result.
   */
  datatype Actions<!V, !R> = Actions(zero: V, act: (int, V, seq<V>) -> (V, Option<R>))

  function Default<V, R>(a: Actions<V, R>, vals: seq<V>): V { if vals == [] then a.zero else vals[0] }

  function Eval<V, R>(a: Actions<V, R>, d: Tree<V>): V
    decreases d, 0
  {
    match d
    case Leaf(tok) => tok.val
    case Node(n, kids) =>
      var vals := Evals(a, kids);
      a.act(n, Default(a, vals), vals).0
  }

  function Evals<V, R>(a: Actions<V, R>, ds: seq<Tree<V>>): (vals: seq<V>)
    ensures |vals| == |ds| && forall i :: 0 <= i < |ds| ==> vals[i] == Eval(a, ds[i])
    decreases ds, 1
  {
    if ds == [] then [] else [Eval(a, ds[0])] + Evals(a, ds[1..])
  }

  /** What the action at the root of d stores into the global result. */
  function ResultOf<V, R>(a: Actions<V, R>, d: Tree<V>): Option<R>
  {
    match d
    case Leaf(_) => None
    case Node(n, kids) =>
      var vals := Evals(a, kids);
      a.act(n, Default(a, vals), vals).1
  }

  /** Only the productions of the start symbol store a result. */
  ghost predicate StoresAtStart<V(!new), R(!new)>(g: Lr, a: Actions<V, R>)
    requires g.GrammarShaped()
  {
    forall n, v, vals :: 0 < n < |g.rhs| && |vals| == |g.rhs[n]|
        ==> (a.act(n, v, vals).1.Some? <==> g.t.r1[n] == g.Start())
  }

  /** What the lexer returns: an external token code, 0 at the end of input, and the value record. */
  datatype Lexeme<V> = Lexeme(ch: int, val: V)

  /** The internal code of an external one; tok2 is the translation table. */
  function Code(tok2: seq<int>, ch: int): int
    requires |tok2| > 1
  {
    if ch <= 0 then EOF_CODE
    else
      var tok := if PRIVATE <= ch < PRIVATE + |tok2| then tok2[ch - PRIVATE] else 0;
      if tok == 0 then tok2[1] else tok
  }

  function Tokens<V>(tok2: seq<int>, input: seq<Lexeme<V>>): (w: seq<Token<V>>)
    requires |tok2| > 1
    ensures |w| == |input|
  {
    seq(|input|, i requires 0 <= i < |input| => Token(Code(tok2, input[i].ch), input[i].val))
  }

  datatype Cell<V> = Cell(yys: int, val: V)

  method Grow<V>(S: array<Cell<V>>, zero: V) returns (T: array<Cell<V>>)
    requires S.Length > 0
    ensures fresh(T) && T.Length == 2 * S.Length
    ensures T[..S.Length] == S[..] && forall k :: S.Length <= k < T.Length ==> T[k] == Cell(0, zero)
  {
    T := new Cell<V>[2 * S.Length](_ => Cell(0, zero));
    forall k | 0 <= k < S.Length {
      T[k] := S[k];
    }
  }

  /** Cells 0 to p hold a configuration; while only state 0 was pushed, no value was. */
  ghost predicate HoldsAll<V, R>(a: Actions<V, R>, c: Config<V>, S: array<Cell<V>>, p: int)
    reads S
  {
    && |c.states| == |c.trees| + 1 && p == |c.trees| && p < S.Length
    && (forall i :: 0 <= i <= p ==> S[i].yys == c.states[i])
    && (forall i :: 1 <= i <= p ==> S[i].val == Eval(a, c.trees[i - 1]))
    && (p == 0 ==> forall k :: 0 <= k < S.Length ==> S[k].val == a.zero)
  }

  /** The same without the top state, which is still to be pushed. */
  ghost predicate Holds<V, R>(a: Actions<V, R>, c: Config<V>, S: array<Cell<V>>, p: int)
    reads S
  {
    && |c.states| == |c.trees| + 1 && p + 1 == |c.trees| && p < S.Length
    && (forall i :: 0 <= i <= p ==> S[i].yys == c.states[i])
    && (forall i :: 1 <= i <= p ==> S[i].val == Eval(a, c.trees[i - 1]))
    && (p < 0 ==> forall k :: 0 <= k < S.Length ==> S[k].val == a.zero)
  }

  /** What the lookahead variables hold: nothing, or the first of the tokens left. */
  ghost predicate Looking<V>(tok2: seq<int>, input: seq<Lexeme<V>>, c: Config<V>, pos: nat, ch: int, tok: int, lval: V)
    requires |tok2| > 1
  {
    pos <= |input| &&
    if ch < 0 then c.rest == Tokens(tok2, input)[pos..]
    else
      && tok == c.Look()
      && if c.rest == [] then pos == |input|
         else 0 < pos && c.rest == Tokens(tok2, input)[pos - 1..] && lval == c.rest[0].val
  }

  /** Reads one token, as the generated lex1 function does. */
  method Lex1<V>(tok2: seq<int>, input: seq<Lexeme<V>>, pos: nat, old_lval: V)
    returns (ch: int, tok: int, lval: V, pos': nat)
    requires |tok2| > 1 && pos <= |input| && forall i :: 0 <= i < |input| ==> input[i].ch > 0
    ensures ch >= 0 && pos <= pos' <= |input|
    ensures if pos == |input| then pos' == pos && tok == EOF_CODE
            else pos' == pos + 1 && tok == Code(tok2, input[pos].ch) && lval == input[pos].val
  {
    if pos == |input| {
      ch, lval, pos' := 0, old_lval, pos;
    } else {
      ch, lval, pos' := input[pos].ch, input[pos].val, pos + 1;
    }
    tok := 0;
    if ch <= 0 {
      tok := EOF_CODE;
    } else if ch >= PRIVATE && ch < PRIVATE + |tok2| {
      tok := tok2[ch - PRIVATE];
    }
    if tok == 0 {
      tok := tok2[1];
    }
  }

  /** The scan of the exception table for the action of state s on the token. */
  method Exception(t: Tables, s: int, tok: int) returns (n: int)
    requires t.Shaped() && t.IsState(s) && t.def[s] == -2
    ensures n == t.FindToken(tok, t.FindState(s, 0))
  {
    var xi := 0;
    while !(t.exca[xi] == -1 && t.exca[xi + 1] == s)
      invariant 0 <= xi && t.FindState(s, xi) == t.FindState(s, 0) != NO_STATE
      decreases |t.exca| - xi
    {
      xi := xi + 2;
    }
    xi := xi + 2;
    ghost var y := t.FindState(s, 0);
    while !(t.exca[xi] < 0 || t.exca[xi] == tok)
      invariant 0 <= xi && t.Ends(xi) && t.FindToken(tok, xi) == t.FindToken(tok, y)
      decreases |t.exca| - xi
    {
      xi := xi + 2;
    }
    n := t.exca[xi + 1];
  }

  /** The values of the k cells above cell p. */
  method Dollars<V>(S: array<Cell<V>>, p: int, k: nat) returns (vals: seq<V>)
    requires -1 <= p && p + k < S.Length
    ensures |vals| == k && forall i :: 0 <= i < k ==> vals[i] == S[p + 1 + i].val
  {
    vals := [];
    for i := 0 to k
      invariant |vals| == i && forall j :: 0 <= j < i ==> vals[j] == S[p + 1 + j].val
    {
      vals := vals + [S[p + 1 + i].val];
    }
  }

  /** The stored result belongs to the derivation at the bottom of the stack. */
  ghost predicate Stored<V, R>(g: Lr, a: Actions<V, R>, c: Config<V>, result: Option<R>)
  {
    c.trees != [] && Root(g.t, c.trees[0]) == -g.Start() ==> result == ResultOf(a, c.trees[0])
  }

  lemma ReduceStores<V(!new), R(!new)>(g: Lr, a: Actions<V, R>, c: Config<V>, n: int, result: Option<R>,
                                       result': Option<R>)
    requires Inv(g, c) && g.Certified() && StoresAtStart(g, a) && Stored(g, a, c, result)
    requires 0 < n < |g.rhs| && g.Item(c.Top(), n, |g.rhs[n]|)
    requires MayPop(g.t, c, n)
    requires var stored := ResultOf(a, Node(n, Last(c.trees, g.t.r2[n])));
             result' == if stored.Some? then stored else result
    ensures Stored(g, a, Reduce(g.t, c, n), result')
  {
    PopsRightSide(g, c, n);
    var k := |c.trees| - g.t.r2[n];
    assert g.BottomOnly(c.states[k]);
    assert k > 0 ==> Linked(g, c.states, k - 1);
  }

  /** Puts the state and its value onto the stack. */
  method PushCell<V, R>(a: Actions<V, R>, ghost c: Config<V>, S0: array<Cell<V>>, p0: int, state: int, val: V)
    returns (S: array<Cell<V>>, p: int)
    requires Holds(a, c, S0, p0) && S0.Length > 0 && state == c.Top() && val == TopValue(a, c)
    modifies S0
    ensures HoldsAll(a, c, S, p) && (S == S0 || fresh(S)) && S.Length > 0
  {
    S, p := S0, p0 + 1;
    if p >= S.Length {
      S := Grow(S, a.zero);
    }
    S[p] := Cell(state, val);
  }

  /** One round of the tables: the shift lookup, then the default action. */
  method Lookup<V>(t: Tables, tok2: seq<int>, input: seq<Lexeme<V>>, ghost c: Config<V>, state: int,
                   pos0: nat, ch0: int, tok0: int, lval0: V)
    returns (action: Action, pos: nat, ch: int, tok: int, lval: V)
    requires t.Shaped() && t.IsState(state) && |tok2| > 1
    requires forall i :: 0 <= i < |input| ==> input[i].ch > 0
    requires Looking(tok2, input, c, pos0, ch0, tok0, lval0)
    ensures Looking(tok2, input, c, pos, ch, tok, lval)
    ensures action == Decide(t, state, c.Look())
    ensures action.Shifts? ==> ch >= 0
  {
    pos, ch, tok, lval := pos0, ch0, tok0, lval0;
    var n := t.pact[state];
    if n > FLAG {
      if ch < 0 {
        ch, tok, lval, pos := Lex1(tok2, input, pos, lval);
      }
      n := n + tok;
      if 0 <= n < |t.act| && t.chk[t.act[n]] == tok {
        action := Shifts(t.act[n]);
        return;
      }
    }
    n := t.def[state];
    if n == -2 {
      if ch < 0 {
        ch, tok, lval, pos := Lex1(tok2, input, pos, lval);
      }
      n := Exception(t, state, tok);
    }
    action := if n < 0 then Accepts else if n == 0 then Fails else Reduces(n);
  }

  /** The engine's variables between two pushes, for the configuration c. */
  ghost predicate Running<V(!new), R(!new)>(g: Lr, a: Actions<V, R>, c: Config<V>,
                                            state: int, val: V, result: Option<R>, out: Outcome<V>)
  {
    && Inv(g, c) && g.Certified() && StoresAtStart(g, a) && Run(g, c) == out
    && state == c.Top() && val == TopValue(a, c) && Stored(g, a, c, result)
  }

  lemma ShiftRuns<V(!new), R(!new)>(g: Lr, a: Actions<V, R>, c: Config<V>, state: int, val: V, result: Option<R>,
                                    out: Outcome<V>, u: int)
    requires Running(g, a, c, state, val, result, out)
    requires g.t.IsState(state) && Decide(g.t, state, c.Look()) == Shifts(u)
    ensures c.rest != []
    ensures Running(g, a, Shifted(c, u), u, c.rest[0].val, result, out)
  {
    ShiftKeeps(g, c, u);
  }

  lemma ShiftLooks<V, R>(a: Actions<V, R>, tok2: seq<int>, input: seq<Lexeme<V>>, c: Config<V>, u: int,
                         S: array<Cell<V>>, p: int, pos: nat, ch: int, tok: int, lval: V)
    requires |tok2| > 1 && Looking(tok2, input, c, pos, ch, tok, lval) && ch >= 0 && c.rest != []
    requires HoldsAll(a, c, S, p)
    ensures Looking(tok2, input, Shifted(c, u), pos, -1, -1, lval) && lval == c.rest[0].val
    ensures Holds(a, Shifted(c, u), S, p) && |Shifted(c, u).rest| < |c.rest|
  {
  }

  lemma ReduceRuns<V(!new), R(!new)>(g: Lr, a: Actions<V, R>, c: Config<V>,
                                     state: int, val: V, result: Option<R>, out: Outcome<V>, n: int)
    requires Running(g, a, c, state, val, result, out)
    requires g.t.IsState(state) && Decide(g.t, state, c.Look()) == Reduces(n)
    ensures MayPop(g.t, c, n) && n > 0 && (g.t.r2[n] == 0 ==> c.trees == [])
    ensures var c' := Reduce(g.t, c, n);
            var stored := ResultOf(a, Node(n, Last(c.trees, g.t.r2[n])));
            && Running(g, a, c', c'.Top(), TopValue(a, c'), if stored.Some? then stored else result, out)
            && Weight(g, c') < Weight(g, c)
  {
    assert g.ActsOnItem(c.Top(), c.Look());
    Reducible(g, c, n);
    var stored := ResultOf(a, Node(n, Last(c.trees, g.t.r2[n])));
    ReduceStores(g, a, c, n, result, if stored.Some? then stored else result);
  }

  lemma MayReduce<V(!new), R(!new)>(g: Lr, a: Actions<V, R>, c: Config<V>,
                                    state: int, val: V, result: Option<R>, out: Outcome<V>, n: int)
    requires Running(g, a, c, state, val, result, out)
    requires g.t.IsState(state) && Decide(g.t, state, c.Look()) == Reduces(n)
    ensures MayPop(g.t, c, n) && n > 0 && (g.t.r2[n] == 0 ==> c.trees == [])
  {
    ReduceRuns(g, a, c, state, val, result, out, n);
  }

  lemma ReduceRunsAs<V(!new), R(!new)>(g: Lr, a: Actions<V, R>, c: Config<V>,
                                       state: int, val: V, result: Option<R>, out: Outcome<V>, n: int,
                                       state': int, val': V, stored: Option<R>)
    requires Running(g, a, c, state, val, result, out)
    requires g.t.IsState(state) && Decide(g.t, state, c.Look()) == Reduces(n)
    requires MayPop(g.t, c, n) && n > 0 && (g.t.r2[n] == 0 ==> c.trees == [])
    requires state' == Reduce(g.t, c, n).Top() && val' == TopValue(a, Reduce(g.t, c, n))
    requires stored == ResultOf(a, Node(n, Last(c.trees, g.t.r2[n])))
    ensures var c' := Reduce(g.t, c, n);
            && Running(g, a, c', state', val', if stored.Some? then stored else result, out)
            && Weight(g, c') < Weight(g, c) && c'.rest == c.rest
  {
    ReduceRuns(g, a, c, state, val, result, out, n);
  }

  lemma StopRuns<V(!new), R(!new)>(g: Lr, a: Actions<V, R>, c: Config<V>,
                                   state: int, val: V, result: Option<R>, out: Outcome<V>)
    requires Running(g, a, c, state, val, result, out)
    requires g.t.IsState(state)
    ensures Decide(g.t, state, c.Look()) == Accepts ==> out.Accepted? && result == ResultOf(a, out.tree)
    ensures Decide(g.t, state, c.Look()) == Fails ==> out.Rejected?
  {
    assert g.ActsOnItem(c.Top(), c.Look());
    if Decide(g.t, state, c.Look()) == Accepts {
      AcceptingStack(g, c);
    }
  }

  method DoReduce<V(!new), R(!new)>(g: Lr, a: Actions<V, R>, ghost c: Config<V>,
                                    S0: array<Cell<V>>, p0: int, state0: int, val0: V, result0: Option<R>,
                                    ghost out: Outcome<V>, n: int)
    returns (S: array<Cell<V>>, p: int, state: int, val: V, result: Option<R>, ghost c': Config<V>)
    requires Running(g, a, c, state0, val0, result0, out)
    requires HoldsAll(a, c, S0, p0) && S0.Length > 0
    requires g.t.IsState(state0) && Decide(g.t, state0, c.Look()) == Reduces(n)
    ensures Running(g, a, c', state, val, result, out)
    ensures Holds(a, c', S, p) && (S == S0 || fresh(S)) && S.Length > 0
    ensures c'.rest == c.rest && Weight(g, c') < Weight(g, c)
  {
    MayReduce(g, a, c, state0, val0, result0, out, n);
    c' := Reduce(g.t, c, n);
    var stored: Option<R>;
    S, p, state, val, stored := PopAndAct(g.t, a, c, S0, p0, n);
    result := if stored.Some? then stored else result0;
    ReduceRunsAs(g, a, c, state0, val0, result0, out, n, state, val, stored);
  }

  /**
   The generated parse function. It returns 0 exactly when the automaton accepts the tokens,
   and has then stored the value of their derivation.
   */
  method Parse<V(!new), R(!new)>(g: Lr, a: Actions<V, R>, tok2: seq<int>, input: seq<Lexeme<V>>)
    returns (code: int, result: Option<R>)
    requires g.Certified() && StoresAtStart(g, a) && |tok2| > 1
    requires forall i :: 0 <= i < |input| ==> input[i].ch > 0 && Code(tok2, input[i].ch) > ERR_CODE
    ensures Inv(g, Init(Tokens(tok2, input)))
    ensures match Run(g, Init(Tokens(tok2, input)))
            case Accepted(d) => code == 0 && result == ResultOf(a, d)
            case Rejected => code == 1
  {
    var S := new Cell<V>[MAX_DEPTH](_ => Cell(0, a.zero));
    var p, state, ch, tok, errflag := -1, 0, -1, -1, 0;
    var val, lval, pos := a.zero, a.zero, 0;
    result := None;
    ghost var c := Init(Tokens(tok2, input));
    assert Inv(g, c);
    ghost var out := Run(g, c);
    while true
      invariant Running(g, a, c, state, val, result, out)
      invariant Holds(a, c, S, p) && S.Length > 0 && fresh(S)
      invariant Looking(tok2, input, c, pos, ch, tok, lval)
      invariant errflag == 0
      decreases |c.rest|, Weight(g, c)
    {
      S, p := PushCell(a, c, S, p, state, val);
      TopIsState(g, c);
      var action: Action;
      action, pos, ch, tok, lval := Lookup(g.t, tok2, input, c, state, pos, ch, tok, lval);
      StopRuns(g, a, c, state, val, result, out);
      match action
      case Shifts(u) =>
        ShiftRuns(g, a, c, state, val, result, out, u);
        ShiftLooks(a, tok2, input, c, u, S, p, pos, ch, tok, lval);
        ch, tok, val, state := -1, -1, lval, u;
        if errflag > 0 {
          errflag := errflag - 1;
        }
        c := Shifted(c, u);
      case Accepts =>
        return 0, result;
      case Fails =>
        if errflag < 3 {
          errflag := 3;
          var found := Recover(g, c, S, p);
          if !found {
            return 1, result;
          }
        }
        assert false;
      case Reduces(n) =>
        S, p, state, val, result, c := DoReduce(g, a, c, S, p, state, val, result, out, n);
    }
  }

  ghost function TopValue<V, R>(a: Actions<V, R>, c: Config<V>): V
  {
    if c.trees == [] then a.zero else Eval(a, c.trees[|c.trees| - 1])
  }

  /** The search for a state that shifts the error token: it pops the whole stack. */
  method Recover<V>(g: Lr, ghost c: Config<V>, S: array<Cell<V>>, p0: int) returns (found: bool)
    requires Inv(g, c) && -1 <= p0 < |c.states| && p0 < S.Length
    requires forall i :: 0 <= i <= p0 ==> S[i].yys == c.states[i]
    ensures !found
  {
    var t, p := g.t, p0;
    found := false;
    while p >= 0 && !found
      invariant -1 <= p <= p0 && !found
    {
      StackState(g, c, p);
      var n := t.pact[S[p].yys] + ERR_CODE;
      found := 0 <= n < |t.act| && t.chk[t.act[n]] == ERR_CODE;
      p := p - 1;
    }
  }

  /** A reduction: pops the right-hand side, runs the action and looks up the next state. */
  method PopAndAct<V, R>(t: Tables, a: Actions<V, R>, ghost c: Config<V>, S0: array<Cell<V>>, p0: int, n: int)
    returns (S: array<Cell<V>>, p: int, state: int, val: V, stored: Option<R>)
    requires HoldsAll(a, c, S0, p0) && S0.Length > 0
    requires MayPop(t, c, n) && (t.r2[n] == 0 ==> c.trees == [])
    ensures Holds(a, Reduce(t, c, n), S, p) && (S == S0 || fresh(S)) && S.Length > 0
    ensures state == Reduce(t, c, n).Top() && val == TopValue(a, Reduce(t, c, n))
    ensures stored == ResultOf(a, Node(n, Last(c.trees, t.r2[n])))
  {
    var vals;
    S, p, val, vals := PopValues(a, c, S0, p0, t.r2[n]);
    TopReduced(t, a, c, n);
    BelowReduced(t, a, c, n, S, p);
    var both := a.act(n, val, vals);
    val, stored := both.0, both.1;
    state := Next(t, S[p].yys, t.r1[n]);
  }

  /** Cells 0 to p hold the lower part of a configuration. */
  ghost predicate HoldsBelow<V, R>(a: Actions<V, R>, c: Config<V>, S: array<Cell<V>>, p: int)
    reads S
  {
    && |c.states| == |c.trees| + 1 && 0 <= p <= |c.trees| && p < S.Length
    && (forall i :: 0 <= i <= p ==> S[i].yys == c.states[i])
    && (forall i :: 1 <= i <= p ==> S[i].val == Eval(a, c.trees[i - 1]))
  }

  /** Takes the values of k symbols off the stack, and the first of them, or the zero value, as the default. */
  method PopValues<V, R>(a: Actions<V, R>, ghost c: Config<V>, S0: array<Cell<V>>, p0: int, k: nat)
    returns (S: array<Cell<V>>, p: int, val: V, vals: seq<V>)
    requires HoldsAll(a, c, S0, p0) && S0.Length > 0 && k <= |c.trees| && (k == 0 ==> c.trees == [])
    ensures p == |c.trees| - k && HoldsBelow(a, c, S, p) && (S == S0 || fresh(S)) && S.Length > 0
    ensures vals == Evals(a, Last(c.trees, k)) && val == Default(a, vals)
  {
    S, p := S0, p0 - k;
    if p + 1 >= S.Length {
      S := Grow(S, a.zero);
    }
    val := S[p + 1].val;
    vals := Dollars(S, p, k);
    assert vals == Evals(a, Last(c.trees, k));
  }

  lemma TopReduced<V, R>(t: Tables, a: Actions<V, R>, c: Config<V>, n: int)
    requires MayPop(t, c, n)
    ensures var vals := Evals(a, Last(c.trees, t.r2[n]));
            && TopValue(a, Reduce(t, c, n)) == a.act(n, Default(a, vals), vals).0
            && ResultOf(a, Node(n, Last(c.trees, t.r2[n]))) == a.act(n, Default(a, vals), vals).1
            && Reduce(t, c, n).Top() == t.Goto(c.states[|c.trees| - t.r2[n]], t.r1[n])
  {
  }

  lemma BelowReduced<V, R>(t: Tables, a: Actions<V, R>, c: Config<V>, n: int, S: array<Cell<V>>, p: int)
    requires t.Shaped() && 0 <= n < |t.r1| && HoldsBelow(a, c, S, p) && p == |c.trees| - t.r2[n]
    requires t.IsState(c.states[p])
    ensures Holds(a, Reduce(t, c, n), S, p)
  {
  }

  lemma Reducible<V>(g: Lr, c: Config<V>, n: int)
    requires Inv(g, c) && g.Certified() && 0 < n < |g.rhs| && g.Item(c.Top(), n, |g.rhs[n]|)
    ensures MayPop(g.t, c, n) && (g.t.r2[n] == 0 ==> c.trees == [])
    ensures Inv(g, Reduce(g.t, c, n)) && Weight(g, Reduce(g.t, c, n)) < Weight(g, c)
  {
    ReduceKeeps(g, c, n);
    ReduceLightens(g, c, n);
    if g.t.r2[n] == 0 {
      EmptyAtBottom(g, c, n);
    }
  }

  /** An empty right-hand side is reduced only before anything was pushed. */
  lemma EmptyAtBottom<V>(g: Lr, c: Config<V>, n: int)
    requires Inv(g, c) && g.Certified() && 0 < n < |g.rhs| && g.Item(c.Top(), n, |g.rhs[n]|) && g.t.r2[n] == 0
    ensures c.trees == []
  {
    assert g.Ranked(n);
    assert g.BottomOnly(c.Top());
    assert c.trees != [] ==> Linked(g, c.states, |c.trees| - 1);
  }

  /** The goto table lookup. */
  method Next(t: Tables, s: int, a: int) returns (state: int)
    requires t.Shaped() && t.IsState(s) && 0 <= a < |t.pgo|
    ensures state == t.Goto(s, a)
  {
    var g := t.pgo[a];
    var j := g + s + 1;
    if j >= |t.act| {
      state := t.act[g];
    } else {
      state := t.act[j];
      if t.chk[state] != -a {
        state := t.act[g];
      }
    }
  }
}
