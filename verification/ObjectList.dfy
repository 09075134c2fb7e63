/**
 The objects of the parser as linked heap nodes: Flat links the objects of a list that
 share a key into chains, and Elem, Len and Get read such chains back.
 */
module ObjectList {
  import opened Objects
  import opened Wrappers

  datatype Payload = NilPayload | Scalar(scalar: Value) | Items(items: seq<Node>)

  /** The Object of the source: Value is a scalar, a list of objects, or nil. */
  class Node {
    var Key: string
    var IsList: bool
    var IsObject: bool
    var Value: Payload
    var Next: Node?

    constructor (key: string, isList: bool, isObject: bool, value: Payload)
      ensures Key == key && IsList == isList && IsObject == isObject && Value == value && Next == null
    {
      Key, IsList, IsObject, Value, Next := key, isList, isObject, value, null;
    }

    /** The node has the content of o and stands alone. */
    ghost predicate CopyOf(o: Node)
      reads this, o
    {
      Key == o.Key && IsList == o.IsList && IsObject == o.IsObject && Value == o.Value && Next == null
    }
  }

  ghost function KeysOf(l: seq<Node>): seq<string>
    reads l
  {
    seq(|l|, i requires 0 <= i < |l| reads l => l[i].Key)
  }

  ghost predicate Distinct<T>(l: seq<T>) { forall i, j :: 0 <= i < j < |l| ==> l[i] != l[j] }

  /** The nodes of the chain are linked in order, and the last one ends it. */
  ghost predicate Linked(chain: seq<Node>)
    reads chain
  {
    forall j :: 0 <= j < |chain| ==> chain[j].Next == if j + 1 < |chain| then chain[j + 1] else null
  }

  ghost function Nexts(l: seq<Node>): seq<Node?>
    reads l
  {
    seq(|l|, i requires 0 <= i < |l| reads l => l[i].Next)
  }

  /** The node that follows member j of the group. */
  ghost function After(l: seq<Node>, group: seq<nat>, j: int): Node?
  {
    if 0 <= j + 1 < |group| && group[j + 1] < |l| then l[group[j + 1]] else null
  }

  /** The group's nodes, all among the first n, are linked in order and the last ends the chain. */
  ghost predicate ChainOf(l: seq<Node>, nexts: seq<Node?>, group: seq<nat>, n: nat)
    requires n <= |l| == |nexts|
  {
    && group != []
    && (forall j :: 0 <= j < |group| ==> group[j] < n)
    && (forall j :: 0 <= j < |group| ==> nexts[group[j]] == After(l, group, j))
  }

  /** With these Next pointers the first n nodes are linked into the chains of their groups. */
  ghost predicate Chained(l: seq<Node>, nexts: seq<Node?>, gs: seq<seq<nat>>, n: nat)
    requires n <= |l| == |nexts|
  {
    && (forall g :: 0 <= g < |gs| ==> ChainOf(l, nexts, gs[g], n))
    && (forall i :: n <= i < |l| ==> nexts[i] == null)
  }

  /** heads holds the first node of each group. */
  ghost predicate Heads(l: seq<Node>, gs: seq<seq<nat>>, heads: seq<Node>)
  {
    |heads| == |gs| && forall g :: 0 <= g < |gs| ==> gs[g] != [] && gs[g][0] < |l| && heads[g] == l[gs[g][0]]
  }

  /** The map of Flat sends each key seen to the head of its chain. */
  ghost predicate Indexed(m: map<string, Node>, keys: seq<string>, l: seq<Node>)
    requires |keys| <= |l|
  {
    && (forall i :: 0 <= i < |keys| ==> keys[i] in m)
    && (forall k :: k in m ==> IndexedKey(m[k], keys, l, k))
  }

  ghost predicate IndexedKey(head: Node, keys: seq<string>, l: seq<Node>, k: string)
    requires |keys| <= |l|
  {
    var gs := Groups(keys);
    var g := FindGroup(keys, gs, k);
    g < |gs| && head == l[gs[g][0]]
  }

  lemma KeepsKey(l: seq<Node>, keys: seq<string>, n: nat, m: map<string, Node>, k: string)
    requires n < |l| == |keys| && Indexed(m, keys[..n], l)
    requires k in m || (k == keys[n] && keys[n] !in m)
    ensures IndexedKey(if k in m then m[k] else l[n], keys[..n + 1], l, k)
  {
    NextGroups(keys, n);
    FoundIfPresent(l, keys[..n], m, keys[n]);
    assert k in m ==> IndexedKey(m[k], keys[..n], l, k);
    SameGroup(keys, n, k);
  }

  lemma FoundIfPresent(l: seq<Node>, keys: seq<string>, m: map<string, Node>, key: string)
    requires |keys| <= |l| && Indexed(m, keys, l)
    ensures key in m <==> FindGroup(keys, Groups(keys), key) < |Groups(keys)|
  {
    var gs := Groups(keys);
    var f := FindGroup(keys, gs, key);
    assert f < |gs| ==> keys[gs[f][0]] in m;
    assert key in m ==> IndexedKey(m[key], keys, l, key);
  }

  lemma KeepsIndex(l: seq<Node>, keys: seq<string>, n: nat, m: map<string, Node>)
    requires n < |l| == |keys| && Indexed(m, keys[..n], l)
    ensures Indexed(if keys[n] in m then m else m[keys[n] := l[n]], keys[..n + 1], l)
    ensures keys[n] in m <==> FindGroup(keys[..n], Groups(keys[..n]), keys[n]) < |Groups(keys[..n])|
  {
    FoundIfPresent(l, keys[..n], m, keys[n]);
    var m' := if keys[n] in m then m else m[keys[n] := l[n]];
    forall k | k in m'
      ensures IndexedKey(m'[k], keys[..n + 1], l, k)
    {
      KeepsKey(l, keys, n, m, k);
    }
    var ks := keys[..n + 1];
    forall i | 0 <= i < n + 1
      ensures ks[i] in m'
    {
      assert i < n ==> keys[..n][i] in m;
    }
  }

  lemma NewChain(l: seq<Node>, nexts: seq<Node?>, gs: seq<seq<nat>>, n: nat)
    requires n < |l| == |nexts| && Chained(l, nexts, gs, n)
    ensures Chained(l, nexts, gs + [[n]], n + 1)
  {
    forall g | 0 <= g < |gs + [[n]]|
      ensures ChainOf(l, nexts, (gs + [[n]])[g], n + 1)
    {
      if g < |gs| {
        assert ChainOf(l, nexts, gs[g], n);
      }
    }
  }

  /** The links of a group that does not hold the changed index stay as they are. */
  lemma ChainStays(l: seq<Node>, nexts: seq<Node?>, group: seq<nat>, n: nat, last: nat)
    requires n < |l| == |nexts| && ChainOf(l, nexts, group, n) && last < n
    requires forall j :: 0 <= j < |group| ==> group[j] != last
    ensures ChainOf(l, nexts[last := l[n]], group, n + 1)
  {
  }

  lemma ChainGrows(l: seq<Node>, nexts: seq<Node?>, group: seq<nat>, n: nat)
    requires n < |l| == |nexts| && ChainOf(l, nexts, group, n) && nexts[n] == null
    requires forall j :: 0 <= j < |group| - 1 ==> group[j] != group[|group| - 1]
    ensures ChainOf(l, nexts[group[|group| - 1] := l[n]], group + [n], n + 1)
  {
    var last, group' := group[|group| - 1], group + [n];
    forall j | 0 <= j < |group'|
      ensures nexts[last := l[n]][group'[j]] == After(l, group', j)
    {
      if j < |group| - 1 {
        assert nexts[group[j]] == After(l, group, j);
      }
    }
  }

  /** The last index of a group is nowhere else. */
  ghost predicate LastAlone(gs: seq<seq<nat>>, f: nat)
    requires f < |gs| && gs[f] != []
  {
    forall g, j :: 0 <= g < |gs| && 0 <= j < |gs[g]| ==>
      (gs[g][j] == gs[f][|gs[f]| - 1] <==> g == f && j == |gs[f]| - 1)
  }

  lemma LongerChain(l: seq<Node>, nexts: seq<Node?>, gs: seq<seq<nat>>, n: nat, f: nat)
    requires n < |l| == |nexts| && Chained(l, nexts, gs, n) && f < |gs| && gs[f] != [] && LastAlone(gs, f)
    ensures Chained(l, nexts[gs[f][|gs[f]| - 1] := l[n]], gs[f := gs[f] + [n]], n + 1)
  {
    var last, gs' := gs[f][|gs[f]| - 1], gs[f := gs[f] + [n]];
    assert ChainOf(l, nexts, gs[f], n);
    forall g | 0 <= g < |gs'|
      ensures ChainOf(l, nexts[last := l[n]], gs'[g], n + 1)
    {
      assert ChainOf(l, nexts, gs[g], n);
      if g == f {
        ChainGrows(l, nexts, gs[f], n);
      } else {
        ChainStays(l, nexts, gs[g], n, last);
      }
    }
  }

  lemma LastIsAlone(keys: seq<string>, f: nat)
    requires f < |Groups(keys)|
    ensures LastAlone(Groups(keys), f)
  {
    var gs := Groups(keys);
    GroupsSplitByKey(keys);
    GroupsOrdered(keys);
    forall g, j | 0 <= g < |gs| && 0 <= j < |gs[g]|
      ensures gs[g][j] == gs[f][|gs[f]| - 1] <==> g == f && j == |gs[f]| - 1
    {
      assert keys[gs[g][j]] == keys[gs[f][|gs[f]| - 1]] <==> g == f;
    }
  }

  lemma NextGroups(keys: seq<string>, n: nat)
    requires n < |keys|
    ensures var gs := Groups(keys[..n]);
            var f := FindGroup(keys[..n], gs, keys[n]);
            Groups(keys[..n + 1]) == if f < |gs| then gs[f := gs[f] + [n]] else gs + [[n]]
  {
    assert keys[..n + 1][..n] == keys[..n];
  }

  /** The group of a key is the only one whose first member has it. */
  lemma FoundAt(keys: seq<string>, gs: seq<seq<nat>>, key: string, g: nat)
    requires forall h :: 0 <= h < |gs| ==> gs[h] != [] && gs[h][0] < |keys|
    requires g < |gs| && keys[gs[g][0]] == key && forall h :: 0 <= h < g ==> keys[gs[h][0]] != key
    ensures FindGroup(keys, gs, key) == g
  {
  }

  /** A key's group keeps its number when one more key is grouped. */
  lemma SameGroup(keys: seq<string>, n: nat, k: string)
    requires n < |keys|
    ensures var gs := Groups(keys[..n]);
            var g := FindGroup(keys[..n], gs, k);
            g < |gs| || k == keys[n] ==> FindGroup(keys[..n + 1], Groups(keys[..n + 1]), k) == g
  {
    var gs, gs' := Groups(keys[..n]), Groups(keys[..n + 1]);
    var g := FindGroup(keys[..n], gs, k);
    if g < |gs| || k == keys[n] {
      assert g < |gs'| && forall h :: 0 <= h < |gs| ==> gs'[h][0] == gs[h][0] by { NextGroups(keys, n); }
      assert g == |gs| ==> gs'[g][0] == n by { NextGroups(keys, n); }
      forall h | 0 <= h < g
        ensures keys[..n + 1][gs'[h][0]] != k
      {
        assert keys[..n][gs[h][0]] != k;
      }
      assert g < |gs| ==> keys[..n][gs[g][0]] == k;
      FoundAt(keys[..n + 1], gs', k, g);
    }
  }

  twostate predicate SameContent(o: Node)
    reads o
  {
    o.Key == old(o.Key) && o.IsList == old(o.IsList) && o.IsObject == old(o.IsObject) && o.Value == old(o.Value)
  }

  /** Nothing but Next pointers has changed. */
  twostate predicate OnlyLinks(l: seq<Node>)
    reads l
  {
    forall o :: o in l ==> SameContent(o)
  }

  /**
   ObjectList.Flat. On distinct objects that are in no chain yet it returns one head per
   distinct key, in order of first occurrence, followed by the other objects of that key.
   Only Next pointers change.
   */
  method Flat(l: seq<Node>) returns (result: seq<Node>)
    requires Distinct(l) && forall i :: 0 <= i < |l| ==> l[i].Next == null
    modifies l
    ensures KeysOf(l) == old(KeysOf(l))
    ensures Heads(l, Groups(KeysOf(l)), result) && Chained(l, Nexts(l), Groups(KeysOf(l)), |l|)
    ensures OnlyLinks(l)
  {
    var m: map<string, Node> := map[];
    result := [];
    ghost var keys := KeysOf(l);
    for n := 0 to |l|
      invariant KeysOf(l) == keys && OnlyLinks(l)
      invariant FlatState(l, keys, n, Nexts(l), result, m)
    {
      m, result := Place(l, keys, n, m, result);
    }
    assert keys[..|l|] == keys;
  }

  /** The state of Flat after n objects. */
  ghost predicate FlatState(l: seq<Node>, keys: seq<string>, n: nat, nexts: seq<Node?>, heads: seq<Node>,
                            m: map<string, Node>)
  {
    && n <= |l| == |keys| == |nexts|
    && Heads(l, Groups(keys[..n]), heads) && Chained(l, nexts, Groups(keys[..n]), n) && Indexed(m, keys[..n], l)
  }

  lemma NewHead(l: seq<Node>, gs: seq<seq<nat>>, heads: seq<Node>, n: nat)
    requires n < |l| && Heads(l, gs, heads)
    ensures Heads(l, gs + [[n]], heads + [l[n]])
  {
  }

  lemma SameHeads(l: seq<Node>, gs: seq<seq<nat>>, heads: seq<Node>, f: nat, n: nat)
    requires f < |gs| && Heads(l, gs, heads)
    ensures Heads(l, gs[f := gs[f] + [n]], heads)
  {
  }

  lemma PlacesNew(l: seq<Node>, keys: seq<string>, n: nat, nexts: seq<Node?>, heads: seq<Node>, m: map<string, Node>)
    requires n < |l| && FlatState(l, keys, n, nexts, heads, m) && keys[n] !in m
    ensures FlatState(l, keys, n + 1, nexts, heads + [l[n]], m[keys[n] := l[n]])
  {
    var gs := Groups(keys[..n]);
    assert Indexed(m[keys[n] := l[n]], keys[..n + 1], l) by { KeepsIndex(l, keys, n, m); }
    assert Groups(keys[..n + 1]) == gs + [[n]] by {
      FoundIfPresent(l, keys[..n], m, keys[n]);
      NextGroups(keys, n);
    }
    NewHead(l, gs, heads, n);
    NewChain(l, nexts, gs, n);
  }

  /** An object whose key was seen joins the group that the map knows by its head. */
  lemma JoinsGroup(l: seq<Node>, keys: seq<string>, n: nat, m: map<string, Node>) returns (f: nat)
    requires n < |l| == |keys| && Indexed(m, keys[..n], l) && keys[n] in m
    ensures var gs := Groups(keys[..n]);
            f < |gs| && m[keys[n]] == l[gs[f][0]] && Groups(keys[..n + 1]) == gs[f := gs[f] + [n]]
  {
    f := FindGroup(keys[..n], Groups(keys[..n]), keys[n]);
    assert IndexedKey(m[keys[n]], keys[..n], l, keys[n]);
    NextGroups(keys, n);
  }

  lemma PlacesLater(l: seq<Node>, keys: seq<string>, n: nat, nexts: seq<Node?>, heads: seq<Node>, m: map<string, Node>)
    returns (group: seq<nat>)
    requires n < |l| && FlatState(l, keys, n, nexts, heads, m) && keys[n] in m
    ensures ChainOf(l, nexts, group, n) && m[keys[n]] == l[group[0]]
    ensures FlatState(l, keys, n + 1, nexts[group[|group| - 1] := l[n]], heads, m)
  {
    var f := JoinsGroup(l, keys, n, m);
    group := Groups(keys[..n])[f];
    KeepsIndex(l, keys, n, m);
    SameHeads(l, Groups(keys[..n]), heads, f, n);
    LastIsAlone(keys[..n], f);
    LongerChain(l, nexts, Groups(keys[..n]), n, f);
  }

  /** One round of the loop of Flat. */
  method Place(l: seq<Node>, ghost keys: seq<string>, n: nat, m0: map<string, Node>, heads0: seq<Node>)
    returns (m: map<string, Node>, heads: seq<Node>)
    requires Distinct(l) && n < |l| && KeysOf(l) == keys
    requires FlatState(l, keys, n, Nexts(l), heads0, m0)
    modifies l
    ensures KeysOf(l) == keys && OnlyLinks(l)
    ensures FlatState(l, keys, n + 1, Nexts(l), heads, m)
  {
    m, heads := m0, heads0;
    var obj := l[n];
    assert keys[n] == obj.Key;
    if obj.Key !in m {
      PlacesNew(l, keys, n, Nexts(l), heads, m);
      m := m[obj.Key := obj];
      heads := heads + [obj];
    } else {
      ghost var group := PlacesLater(l, keys, n, Nexts(l), heads, m);
      ghost var last := WalkAndLink(l, m[obj.Key], obj, group, n);
    }
  }

  /** Follows the chain from its head and links obj behind its last node. */
  method WalkAndLink(l: seq<Node>, head: Node, obj: Node, ghost group: seq<nat>, ghost n: nat)
    returns (ghost last: nat)
    requires Distinct(l) && n < |l| && obj == l[n]
    requires ChainOf(l, Nexts(l), group, n) && head == l[group[0]]
    modifies l
    ensures last == group[|group| - 1]
    ensures Nexts(l) == old(Nexts(l))[last := obj]
    ensures KeysOf(l) == old(KeysOf(l))
    ensures OnlyLinks(l)
  {
    var prev := head;
    ghost var j := 0;
    while prev.Next != null
      invariant 0 <= j < |group| && prev == l[group[j]]
      decreases |group| - j
    {
      assert Nexts(l)[group[j]] == After(l, group, j);
      prev := prev.Next;
      j := j + 1;
    }
    assert After(l, group, j) == null;
    last := group[j];
    prev.Next := obj;
  }

  /** o heads a chain of exactly these nodes. */
  ghost predicate ChainFrom(o: Node, chain: seq<Node>)
    reads chain
  {
    && chain != [] && chain[0] == o
    && forall j :: 0 <= j < |chain| ==> chain[j].Next == if j + 1 < |chain| then chain[j + 1] else null
  }

  /** Every head that Flat returns heads the objects of its key, in the order of the list. */
  lemma HeadsChain(l: seq<Node>, heads: seq<Node>, g: nat)
    requires var gs := Groups(KeysOf(l));
             Heads(l, gs, heads) && Chained(l, Nexts(l), gs, |l|) && g < |gs|
    ensures ChainFrom(heads[g], Pick(l, Groups(KeysOf(l))[g]))
  {
    var group := Groups(KeysOf(l))[g];
    assert ChainOf(l, Nexts(l), group, |l|);
    forall j | 0 <= j < |group|
      ensures l[group[j]].Next == if j + 1 < |group| then l[group[j + 1]] else null
    {
      assert Nexts(l)[group[j]] == After(l, group, j);
    }
  }

  /** Object.Len: the number of nodes of the chain. */
  method Len(o: Node?, ghost chain: seq<Node>) returns (i: nat)
    requires if o == null then chain == [] else ChainFrom(o, chain)
    ensures i == |chain|
  {
    i := 0;
    var current := o;
    while current != null
      invariant i <= |chain| && current == if i < |chain| then chain[i] else null
      decreases |chain| - i
    {
      assert current.Next == if i + 1 < |chain| then chain[i + 1] else null;
      i := i + 1;
      current := current.Next;
    }
  }

  /** Object.Elem(false): a fresh, unlinked copy of every node of the chain. */
  method ElemCopies(o: Node, ghost chain: seq<Node>) returns (result: seq<Node>)
    requires ChainFrom(o, chain)
    ensures |result| == |chain| && forall j :: 0 <= j < |chain| ==> fresh(result[j]) && result[j].CopyOf(chain[j])
  {
    result := [];
    var current: Node? := o;
    while current != null
      invariant |result| <= |chain| && current == if |result| < |chain| then chain[|result|] else null
      invariant forall j :: 0 <= j < |result| ==> fresh(result[j]) && result[j].CopyOf(chain[j])
      decreases |chain| - |result|
    {
      var obj := new Node(current.Key, current.IsList, current.IsObject, current.Value);
      result := result + [obj];
      current := current.Next;
    }
  }

  ghost function Members(chain: seq<Node>): seq<Node>
    reads chain
  {
    if chain == [] then []
    else Members(chain[..|chain| - 1]) +
         if chain[|chain| - 1].Value.Items? then chain[|chain| - 1].Value.items else []
  }

  /** The type assertion of Elem(true) fails: on a list's own Value, or on one of a chain of objects. */
  ghost predicate ElemPanics(o: Node, chain: seq<Node>)
    reads o, chain
  {
    && !o.Value.NilPayload?
    && if o.IsList then !o.Value.Items? else o.IsObject && exists j :: 0 <= j < |chain| && !chain[j].Value.Items?
  }

  /** The node has the type of the value, and a Value of its kind. */
  ghost predicate StandsFor(o: Node, v: Value)
    reads o
  {
    && o.IsList == v.ListValue? && o.IsObject == (v.ObjectValue? || v.Empty?)
    && match o.Value
       case NilPayload => v.NilValue? || v.Empty?
       case Items(_) => HoldsObjects(v)
       case Scalar(_) => !v.NilValue? && !v.Empty? && !HoldsObjects(v)
  }

  /** The Value is a list of objects. */
  predicate HoldsObjects(v: Value) { v.ListValue? || v.ObjectValue? }

  /** Objects with members under one key, followed by anything else than lists or such objects. */
  ghost predicate Clashes(chain: seq<Object>)
  {
    chain != [] && chain[0].value.ObjectValue? && exists j :: 0 < j < |chain| && !HoldsObjects(chain[j].value)
  }

  lemma ClashesPanic(o: Node, chain: seq<Node>, objs: seq<Object>)
    requires ChainFrom(o, chain) && |objs| == |chain|
    requires forall j :: 0 <= j < |chain| ==> StandsFor(chain[j], objs[j].value)
    ensures ElemPanics(o, chain) <==> Clashes(objs)
  {
    if ElemPanics(o, chain) {
      var j :| 0 <= j < |chain| && !chain[j].Value.Items?;
      assert 0 < j && !HoldsObjects(objs[j].value);
    }
    if Clashes(objs) {
      var j :| 0 < j < |objs| && !HoldsObjects(objs[j].value);
      assert !chain[j].Value.Items?;
    }
  }

  /**
   Object.Elem(true). The members of a chain of objects are those of its nodes, in order; the
   type assertion on a node without members panics, unless the head already has none.
   */
  method ElemMembers(o: Node, ghost chain: seq<Node>) returns (result: seq<Node>, panics: bool)
    requires ChainFrom(o, chain)
    ensures panics <==> ElemPanics(o, chain)
    ensures !panics ==>
              result == if o.Value.NilPayload? then [] else if o.IsList then o.Value.items
                        else if o.IsObject then Members(chain) else [o]
  {
    if o.Value.NilPayload? {
      return [], false;
    }
    if o.IsList {
      if o.Value.Items? {
        return o.Value.items, false;
      }
      return [], true;
    }
    if !o.IsObject {
      return [o], false;
    }
    result := [];
    var elems := ElemCopies(o, chain);
    for i := 0 to |elems|
      invariant forall j :: 0 <= j < i ==> chain[j].Value.Items?
      invariant result == Members(chain[..i])
    {
      assert chain[..i + 1][..i] == chain[..i];
      assert elems[i].CopyOf(chain[i]);
      if !elems[i].Value.Items? {
        return result, true;
      }
      result := result + elems[i].Value.items;
    }
    assert chain[..|chain|] == chain;
    panics := false;
  }

  predicate KeyMatches(key: string, k: string, insensitive: bool, equalFold: (string, string) -> bool)
  {
    key == k || (insensitive && equalFold(key, k))
  }

  ghost predicate FirstMatch(l: seq<Node>, i: int, k: string, insensitive: bool, equalFold: (string, string) -> bool)
    reads l
  {
    && 0 <= i < |l| && KeyMatches(l[i].Key, k, insensitive, equalFold)
    && forall h :: 0 <= h < i ==> !KeyMatches(l[h].Key, k, insensitive, equalFold)
  }

  /** Object.Get: the first member whose key matches, or nothing; only objects have members. */
  method Get(o: Node, ghost chain: seq<Node>, k: string, insensitive: bool, equalFold: (string, string) -> bool)
    returns (found: Node?, panics: bool)
    requires ChainFrom(o, chain) && !(o.IsList && o.IsObject)
    ensures panics <==> o.IsObject && ElemPanics(o, chain)
    ensures !o.IsObject ==> found == null
    ensures !panics && o.IsObject ==>
              var members := if o.Value.NilPayload? then [] else Members(chain);
              if found == null then
                forall i :: 0 <= i < |members| ==> !KeyMatches(members[i].Key, k, insensitive, equalFold)
              else
                exists i :: FirstMatch(members, i, k, insensitive, equalFold) && found == members[i]
  {
    if !o.IsObject {
      return null, false;
    }
    var elems;
    elems, panics := ElemMembers(o, chain);
    found := null;
    if panics {
      return;
    }
    found := FindFirst(elems, k, insensitive, equalFold);
  }

  method FindFirst(elems: seq<Node>, k: string, insensitive: bool, equalFold: (string, string) -> bool)
    returns (found: Node?)
    ensures if found == null then
              forall i :: 0 <= i < |elems| ==> !KeyMatches(elems[i].Key, k, insensitive, equalFold)
            else
              exists i :: FirstMatch(elems, i, k, insensitive, equalFold) && found == elems[i]
  {
    for i := 0 to |elems|
      invariant forall h :: 0 <= h < i ==> !KeyMatches(elems[h].Key, k, insensitive, equalFold)
    {
      if elems[i].Key != k {
        if !insensitive || !equalFold(elems[i].Key, k) {
          continue;
        }
      }
      assert FirstMatch(elems, i, k, insensitive, equalFold);
      return elems[i];
    }
    found := null;
  }
}
