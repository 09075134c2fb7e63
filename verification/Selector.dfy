/** Picking a node of a group: filtering out the dead ones, then taking turns. */
module Selector {
  import opened Wrappers

  const TWO64 := 0x1_0000_0000_0000_0000
  const TWO32 := 0x1_0000_0000
  const DEFAULT_MAX_FAILS := 1
  const DEFAULT_FAIL_TIMEOUT := 30

  /** A node with its fail marker, if it has one. */
  class Node {
    const id: int
    const marked: bool
    var failTime: int
    var failCount: nat

    constructor (id: int, marked: bool)
      ensures this.id == id && this.marked == marked && failTime == 0 && failCount == 0
    {
      this.id, this.marked, failTime, failCount := id, marked, 0, 0;
    }

    function FailTime(): int
      reads this
    {
      if marked then failTime else 0
    }

    function FailCount(): nat
      reads this
    {
      if marked then failCount else 0
    }

    method Mark(now: int)
      modifies this
      ensures failTime == (if marked then now else old(failTime))
      ensures failCount == if marked then (old(failCount) + 1) % TWO32 else old(failCount)
    {
      if marked {
        failTime, failCount := now, (failCount + 1) % TWO32;
      }
    }

    method Reset()
      modifies this
      ensures marked ==> failTime == 0 && failCount == 0
      ensures !marked ==> failTime == old(failTime) && failCount == old(failCount)
    {
      if marked {
        failTime, failCount := 0, 0;
      }
    }
  }

  /** Not marked often enough to be dead, or not lately. */
  predicate Alive(n: Node, maxFails: nat, timeout: int, now: int)
    reads n
  {
    n.FailCount() < maxFails || now - n.FailTime() >= timeout
  }

  /** The nodes that are alive, in order. */
  ghost function AliveOf(nodes: seq<Node>, maxFails: nat, timeout: int, now: int): (alive: seq<Node>)
    reads nodes
    ensures forall i :: 0 <= i < |alive| ==> alive[i] in nodes && Alive(alive[i], maxFails, timeout, now)
    ensures forall i :: 0 <= i < |nodes| && Alive(nodes[i], maxFails, timeout, now) ==> nodes[i] in alive
  {
    if nodes == [] then []
    else
      AliveOf(nodes[..|nodes| - 1], maxFails, timeout, now)
      + if Alive(nodes[|nodes| - 1], maxFails, timeout, now) then [nodes[|nodes| - 1]] else []
  }

  datatype FailFilter = FailFilter(maxFails: int, failTimeout: int)
  {
    function MaxFails(): int { if maxFails == 0 then DEFAULT_MAX_FAILS else maxFails }

    function Timeout(): int { if failTimeout == 0 then DEFAULT_FAIL_TIMEOUT else failTimeout }

    function Limit(): nat { MaxFails() % TWO32 }

    predicate Filters(nodes: seq<Node>) { |nodes| > 1 && MaxFails() >= 0 }

    ghost function Kept(nodes: seq<Node>, now: int): seq<Node>
      reads nodes
    {
      if Filters(nodes) then AliveOf(nodes, Limit(), Timeout(), now) else nodes
    }

    /** A group of one keeps its node, dead or not, and so does every group with a negative limit. */
    method Filter(nodes: seq<Node>, now: int) returns (nl: seq<Node>)
      ensures nl == Kept(nodes, now)
    {
      if |nodes| <= 1 || MaxFails() < 0 {
        return nodes;
      }
      nl := [];
      for i := 0 to |nodes|
        invariant nl == AliveOf(nodes[..i], Limit(), Timeout(), now)
      {
        assert nodes[..i + 1][..i] == nodes[..i];
        if nodes[i].FailCount() < MaxFails() % TWO32 || now - nodes[i].FailTime() >= Timeout() {
          nl := nl + [nodes[i]];
        }
      }
      assert nodes[..|nodes|] == nodes;
    }
  }

  /** Whose turn it is after a number of calls: the counter has 64 bits. */
  function Turn(calls: nat, n: nat): (i: nat)
    requires n > 0
    ensures i < n
  {
    calls % TWO64 % n
  }

  class RoundStrategy {
    var counter: nat

    constructor ()
      ensures counter == 0
    {
      counter := 0;
    }

    method Apply(nodes: seq<Node>) returns (node: Option<Node>)
      requires counter < TWO64
      modifies this
      ensures counter == if nodes == [] then old(counter) else (old(counter) + 1) % TWO64
      ensures node == if nodes == [] then None else Some(nodes[Turn(old(counter), |nodes|)])
    {
      if |nodes| == 0 {
        return None;
      }
      var n := counter;
      counter := (counter + 1) % TWO64;
      return Some(nodes[n % |nodes|]);
    }
  }

  /**
   defaultSelector.Select with a fail filter: a live node, or none if all are dead. Without a strategy
   of the group it makes one for the call, which picks the first.
   */
  method Select(nodes: seq<Node>, filter: FailFilter, round: RoundStrategy?, now: int) returns (node: Option<Node>)
    requires round != null ==> round.counter < TWO64
    modifies round
    ensures node.None? <==>
              || nodes == []
              || (filter.Filters(nodes) && forall n :: n in nodes ==> !Alive(n, filter.Limit(), filter.Timeout(), now))
    ensures node.Some? ==> node.value in nodes
    ensures node.Some? && filter.Filters(nodes) ==> Alive(node.value, filter.Limit(), filter.Timeout(), now)
    ensures node.Some? ==>
              var kept := filter.Kept(nodes, now);
              kept != [] && node.value == kept[if round == null then 0 else Turn(old(round.counter), |kept|)]
  {
    var nl := filter.Filter(nodes, now);
    if |nl| == 0 {
      return None;
    }
    assert nl[0] in nl;
    var strategy := round;
    if strategy == null {
      strategy := new RoundStrategy();
    }
    node := strategy.Apply(nl);
    assert node.value in nl;
  }

  /** How often the turn is j in the calls from one to another. */
  function Turns(from: nat, k: nat, n: nat, j: nat): nat
    requires n > 0
    decreases k
  {
    if k == 0 then 0 else (if Turn(from, n) == j then 1 else 0) + Turns(from + 1, k - 1, n, j)
  }

  lemma NextTurn(from: nat, n: nat)
    requires n > 0 && from + 1 < TWO64
    ensures Turn(from + 1, n) == Following(Turn(from, n), n)
  {
    var q, r := from / n, from % n;
    if r + 1 == n {
      assert from + 1 == (q + 1) * n;
      ModIs(from + 1, q + 1, n, 0);
    } else {
      ModIs(from + 1, q, n, r + 1);
    }
  }

  lemma ModIs(x: nat, q: nat, m: nat, r: nat)
    requires x == q * m + r && r < m
    ensures x % m == r && x / m == q
  {
    var d := x / m - q;
    assert d * m == x / m * m - q * m == r - x % m;
    MultipleIsFar(d, m);
  }

  lemma MultipleIsFar(d: int, m: int)
    requires m >= 0
    ensures (d > 0 ==> d * m >= m) && (d < 0 ==> d * m <= -m)
  {
  }

  /** The same count when turns go round from r. */
  function CountFrom(r: nat, k: nat, n: nat, j: nat): nat
    requires r < n
    decreases k
  {
    if k == 0 then 0 else (if r == j then 1 else 0) + CountFrom(Following(r, n), k - 1, n, j)
  }

  function Following(r: nat, n: nat): (s: nat)
    requires r < n
    ensures s < n
  {
    if r + 1 == n then 0 else r + 1
  }

  lemma {:induction false} TurnsGoRound(from: nat, k: nat, n: nat, j: nat)
    requires n > 0 && from + k <= TWO64
    ensures Turns(from, k, n, j) == CountFrom(Turn(from, n), k, n, j)
    decreases k
  {
    if k > 1 {
      NextTurn(from, n);
      TurnsGoRound(from + 1, k - 1, n, j);
    }
  }

  /** How many whole rounds of n fit. */
  function Rounds(x: nat, n: nat): nat
    requires n > 0
  {
    if x < n then 0 else 1 + Rounds(x - n, n)
  }

  lemma OneRound(x: nat, n: nat)
    requires 0 < n <= x
    ensures 1 + (x - n) / n == x / n
  {
    ModIs(x, (x - n) / n + 1, n, (x - n) % n);
  }

  lemma {:induction false} RoundsIs(x: nat, n: nat)
    requires n > 0
    ensures Rounds(x, n) == x / n
  {
    if x < n {
      ModIs(x, 0, n, x);
    } else {
      RoundsIs(x - n, n);
      OneRound(x, n);
    }
  }

  lemma {:induction false} RoundsGrow(x: nat, y: nat, n: nat)
    requires 0 < n && x <= y
    ensures Rounds(x, n) <= Rounds(y, n)
  {
    if x >= n {
      RoundsGrow(x - n, y - n, n);
    }
  }

  /** How far the turn is from j. */
  function Distance(r: nat, n: nat, j: nat): nat
    requires r < n && j < n
  {
    if j >= r then j - r else j + n - r
  }

  lemma {:induction false} CountIs(r: nat, k: nat, n: nat, j: nat)
    requires r < n && j < n
    ensures var d := Distance(r, n, j); CountFrom(r, k, n, j) == if k <= d then 0 else Rounds(k - 1 - d + n, n)
    decreases k
  {
    if k > 0 {
      CountIs(Following(r, n), k - 1, n, j);
    }
  }

  /** In any number of calls every node gets its turn equally often, but for one, while the counter does not wrap. */
  lemma TurnsAreFair(from: nat, k: nat, n: nat, j: nat)
    requires j < n && from + k <= TWO64
    ensures k / n <= Turns(from, k, n, j) <= (k + n - 1) / n
  {
    TurnsGoRound(from, k, n, j);
    CountIs(Turn(from, n), k, n, j);
    RoundsIs(k, n);
    RoundsIs(k + n - 1, n);
    var d := Distance(Turn(from, n), n, j);
    if k > d {
      RoundsGrow(k, k - 1 - d + n, n);
      RoundsGrow(k - 1 - d + n, k + n - 1, n);
    }
  }

  /** When the counter wraps the turns go on in order exactly if the number of nodes divides 2 to the power of 64. */
  lemma TurnsWrapExactly(n: nat)
    requires n > 0
    ensures Turn(TWO64, n) == Following(Turn(TWO64 - 1, n), n) <==> TWO64 % n == 0
  {
    var q, r := (TWO64 - 1) / n, (TWO64 - 1) % n;
    if r + 1 == n {
      ModIs(TWO64, q + 1, n, 0);
    } else {
      ModIs(TWO64, q, n, r + 1);
    }
  }
}
