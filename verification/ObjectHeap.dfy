/**
 The JSON actions on the heap: the nodes they make, with the members of each object linked by Flat,
 stand for the values that the same actions compute.
 */
module ObjectHeap {
  import opened JsonParser
  import opened ObjectList
  import opened Objects
  import opened Wrappers

  /** The payload stands for the value down to depth k; the nodes that it leads to are in the set. */
  ghost predicate Holds(p: Payload, v: Value, below: set<Node>, k: nat)
    reads below
    decreases k, 0, 0
  {
    match v
    case ListValue(es) =>
      p.Items? && |p.items| == |es|
      && forall i :: 0 <= i < |es| && k > 0 ==> p.items[i] in below && Stands(p.items[i], es[i], below, k - 1)
    case ObjectValue(chains) =>
      p.Items? && |p.items| == |chains|
      && forall g :: 0 <= g < |chains| && k > 0 ==> Links(p.items[g], chains[g], below, k - 1)
    case NilValue => p.NilPayload?
    case Empty => p.NilPayload?
    case _ => p == Scalar(v)
  }

  /** The node stands for the object. */
  ghost predicate Stands(o: Node, v: Object, below: set<Node>, k: nat)
    reads o, below
    decreases k, 1, 0
  {
    Typed(o, v) && Holds(o.Value, v.value, below, k)
  }

  predicate Typed(o: Node, v: Object)
    reads o
  {
    o.Key == v.key && o.IsList == v.value.ListValue? && o.IsObject == (v.value.ObjectValue? || v.value.Empty?)
  }

  /** The chain of nodes from o on stands for the chain of objects, and ends with it. */
  ghost predicate Links(o: Node?, chain: seq<Object>, below: set<Node>, k: nat)
    reads below
    decreases k, 2, |chain|
  {
    if chain == [] then o == null
    else o != null && o in below && Stands(o, chain[0], below, k) && Links(o.Next, chain[1..], below, k)
  }

  /** The node stands for the object, however deep one looks. */
  ghost predicate Means(o: Node, v: Object, below: set<Node>)
    reads o, below
  {
    forall k: nat :: Stands(o, v, below, k)
  }

  /** What its payload stands for makes a node stand for the object. */
  ghost predicate Filled(p: Payload, v: Value, below: set<Node>)
    reads below
  {
    forall k: nat :: Holds(p, v, below, k)
  }

  lemma MeansIs(o: Node, v: Object, below: set<Node>)
    ensures Means(o, v, below) <==> Typed(o, v) && Filled(o.Value, v.value, below)
  {
    if Typed(o, v) && Filled(o.Value, v.value, below) {
      forall k: nat
        ensures Stands(o, v, below, k)
      {
        assert Holds(o.Value, v.value, below, k);
      }
    }
    if Means(o, v, below) {
      assert Stands(o, v, below, 0);
      forall k: nat
        ensures Holds(o.Value, v.value, below, k)
      {
        assert Stands(o, v, below, k);
      }
    }
  }

  lemma {:induction false} HoldsMore(p: Payload, v: Value, below: set<Node>, more: set<Node>, k: nat)
    requires Holds(p, v, below, k) && below <= more
    ensures Holds(p, v, more, k)
    decreases k, 0, 0
  {
    if k > 0 {
      match v
      case ListValue(es) =>
        forall i | 0 <= i < |es|
          ensures Stands(p.items[i], es[i], more, k - 1)
        {
          HoldsMore(p.items[i].Value, es[i].value, below, more, k - 1);
        }
      case ObjectValue(chains) =>
        forall g | 0 <= g < |chains|
          ensures Links(p.items[g], chains[g], more, k - 1)
        {
          LinksMore(p.items[g], chains[g], below, more, k - 1);
        }
      case _ =>
    }
  }

  lemma {:induction false} LinksMore(o: Node?, chain: seq<Object>, below: set<Node>, more: set<Node>, k: nat)
    requires Links(o, chain, below, k) && below <= more
    ensures Links(o, chain, more, k)
    decreases k, 2, |chain|
  {
    if chain != [] {
      HoldsMore(o.Value, chain[0].value, below, more, k);
      LinksMore(o.Next, chain[1..], below, more, k);
    }
  }

  lemma MeansMore(o: Node, v: Object, below: set<Node>, more: set<Node>)
    requires Means(o, v, below) && below <= more
    ensures Means(o, v, more)
  {
    forall k: nat
      ensures Stands(o, v, more, k)
    {
      assert Stands(o, v, below, k);
      HoldsMore(o.Value, v.value, below, more, k);
    }
  }

  /** The nodes stand for the objects, each for one, and no other leads to them. */
  ghost predicate AllMean(l: seq<Node>, objs: seq<Object>, below: set<Node>)
    reads l, below
  {
    |l| == |objs| && forall i :: 0 <= i < |l| ==> l[i] !in below && Means(l[i], objs[i], below)
  }

  lemma KeysMeant(l: seq<Node>, objs: seq<Object>, below: set<Node>)
    requires AllMean(l, objs, below)
    ensures KeysOf(l) == Keys(objs)
  {
    forall i | 0 <= i < |l|
      ensures l[i].Key == objs[i].key
    {
      assert Stands(l[i], objs[i], below, 0);
    }
  }

  lemma AddsNode(l: seq<Node>, objs: seq<Object>, below: set<Node>, o: Node, v: Object, more: set<Node>)
    requires AllMean(l, objs, below) && Means(o, v, more)
    requires o !in below && o !in more && forall n :: n in l ==> n !in more
    ensures AllMean(l + [o], objs + [v], below + more)
  {
    forall i | 0 <= i < |l|
      ensures Means(l[i], objs[i], below + more)
    {
      MeansMore(l[i], objs[i], below, below + more);
    }
    MeansMore(o, v, more, below + more);
  }

  function NodeSet(l: seq<Node>): set<Node> { set o | o in l }

  /** The chain of a group, from member j on. */
  lemma {:induction false} GroupLinks(l: seq<Node>, objs: seq<Object>, group: seq<nat>, j: nat, below: set<Node>,
                                      k: nat)
    requires AllMean(l, objs, below) && j < |group| && ChainOf(l, Nexts(l), group, |l|)
    ensures Links(l[group[j]], Pick(objs, group)[j..], below + NodeSet(l), k)
    decreases |group| - j
  {
    var o, chain, all := l[group[j]], Pick(objs, group)[j..], below + NodeSet(l);
    assert o in l && Nexts(l)[group[j]] == After(l, group, j);
    assert Means(o, chain[0], below) && Stands(o, chain[0], below, k);
    HoldsMore(o.Value, chain[0].value, below, all, k);
    assert chain[1..] == Pick(objs, group)[j + 1..];
    if j + 1 < |group| {
      GroupLinks(l, objs, group, j + 1, below, k);
    }
  }

  lemma ElemsFill(l: seq<Node>, objs: seq<Object>, below: set<Node>)
    requires AllMean(l, objs, below)
    ensures Filled(Items(l), ListValue(objs), below + NodeSet(l))
  {
    var all := below + NodeSet(l);
    forall k: nat
      ensures Holds(Items(l), ListValue(objs), all, k)
    {
      forall i | 0 <= i < |l| && k > 0
        ensures l[i] in all && Stands(l[i], objs[i], all, k - 1)
      {
        assert Means(l[i], objs[i], below) && Stands(l[i], objs[i], below, k - 1);
        HoldsMore(l[i].Value, objs[i].value, below, all, k - 1);
      }
    }
  }

  /** What Flat links stands for what it computes on values. */
  lemma FlatLinks(l: seq<Node>, objs: seq<Object>, heads: seq<Node>, below: set<Node>, k: nat)
    requires AllMean(l, objs, below)
    requires Heads(l, Groups(KeysOf(l)), heads) && Chained(l, Nexts(l), Groups(KeysOf(l)), |l|)
    ensures Holds(Items(heads), ObjectValue(Objects.Flat(objs)), below + NodeSet(l), k)
  {
    KeysMeant(l, objs, below);
    var gs := Groups(Keys(objs));
    if k > 0 {
      forall g | 0 <= g < |gs|
        ensures Links(heads[g], Objects.Flat(objs)[g], below + NodeSet(l), k - 1)
      {
        assert ChainOf(l, Nexts(l), gs[g], |l|);
        GroupLinks(l, objs, gs[g], 0, below, k - 1);
        assert Pick(objs, gs[g])[0..] == Objects.Flat(objs)[g];
      }
    }
  }

  lemma KindIs(o: Node, v: Object, below: set<Node>)
    requires Stands(o, v, below, 0)
    ensures StandsFor(o, v.value)
  {
  }

  lemma NextIs(nodes: seq<Node>, j: nat)
    requires nodes != [] && ChainFrom(nodes[0], nodes) && j < |nodes|
    ensures nodes[j].Next == if j + 1 < |nodes| then nodes[j + 1] else null
  {
    var o := nodes[0];
    assert ChainFrom(o, nodes);
  }

  lemma RestOfChain(nodes: seq<Node>)
    requires |nodes| > 1 && ChainFrom(nodes[0], nodes)
    ensures ChainFrom(nodes[1], nodes[1..])
  {
    var rest := nodes[1..];
    forall j | 0 <= j < |rest|
      ensures rest[j].Next == if j + 1 < |rest| then rest[j + 1] else null
    {
      NextIs(nodes, j + 1);
      assert rest[j] == nodes[j + 1];
    }
    assert rest[0] == nodes[1];
    assert ChainFrom(rest[0], rest);
  }

  lemma {:induction false} ChainStands(nodes: seq<Node>, objs: seq<Object>, below: set<Node>)
    requires nodes != [] && ChainFrom(nodes[0], nodes) && Links(nodes[0], objs, below, 0)
    ensures |nodes| == |objs| && forall j :: 0 <= j < |nodes| ==> StandsFor(nodes[j], objs[j].value)
    decreases |nodes|
  {
    NextIs(nodes, 0);
    KindIs(nodes[0], objs[0], below);
    if |nodes| == 1 {
      assert objs[1..] == [];
    } else {
      RestOfChain(nodes);
      ChainStands(nodes[1..], objs[1..], below);
      forall j | 0 < j < |nodes|
        ensures StandsFor(nodes[j], objs[j].value)
      {
        assert nodes[j] == nodes[1..][j - 1] && objs[j] == objs[1..][j - 1];
      }
    }
  }

  /** So the chains that make Elem(true) panic are those that stand for clashing objects. */
  lemma LinkedPanics(nodes: seq<Node>, objs: seq<Object>, below: set<Node>)
    requires nodes != [] && ChainFrom(nodes[0], nodes) && Links(nodes[0], objs, below, 0)
    ensures ElemPanics(nodes[0], nodes) <==> Clashes(objs)
  {
    ChainStands(nodes, objs, below);
    ClashesPanic(nodes[0], nodes, objs);
  }

  /** The nodes made for a JSON value. */
  method Build(j: Json) returns (o: Node, ghost below: set<Node>)
    ensures fresh(o) && fresh(below) && o !in below && o.Next == null
    ensures Means(o, Object("", Meaning(j)), below)
    decreases j, 0
  {
    match j
    case JArray(es) => o, below := BuildArray(es);
    case JObject(fs) => o, below := BuildObject(fs);
    case JNull =>
      o := new Node("", false, false, NilPayload);
      below := {};
    case _ =>
      o := new Node("", false, false, Scalar(Meaning(j)));
      below := {};
  }

  method BuildArray(es: seq<Json>) returns (o: Node, ghost below: set<Node>)
    ensures fresh(o) && fresh(below) && o !in below && o.Next == null
    ensures Means(o, Object("", ListValue(Meanings(es))), below)
    decreases es, 2
  {
    var l;
    l, below := BuildElems(es);
    ElemsFill(l, Meanings(es), below);
    below := below + NodeSet(l);
    o := new Node("", true, false, Items(l));
    MeansIs(o, Object("", ListValue(Meanings(es))), below);
  }

  method BuildElems(es: seq<Json>) returns (l: seq<Node>, ghost below: set<Node>)
    ensures fresh(l) && fresh(below) && AllMean(l, Meanings(es), below)
    decreases es, 1
  {
    l, below := [], {};
    for i := 0 to |es|
      invariant fresh(l) && fresh(below) && AllMean(l, Meanings(es[..i]), below)
    {
      var o, more := Build(es[i]);
      AddsNode(l, Meanings(es[..i]), below, o, Object("", Meaning(es[i])), more);
      assert es[..i + 1][..i] == es[..i];
      l, below := l + [o], below + more;
    }
    assert es[..|es|] == es;
  }

  /** The nodes of the members, with their keys. */
  method BuildMembers(fs: seq<Field>) returns (l: seq<Node>, ghost below: set<Node>)
    ensures fresh(l) && fresh(below) && AllMean(l, FieldObjects(fs), below)
    ensures Distinct(l) && forall i :: 0 <= i < |l| ==> l[i].Next == null
    decreases fs, 1
  {
    l, below := [], {};
    for i := 0 to |fs|
      invariant fresh(l) && fresh(below) && AllMean(l, FieldObjects(fs[..i]), below)
      invariant Distinct(l) && forall j :: 0 <= j < |l| ==> l[j].Next == null
    {
      var member, more := Build(fs[i].value);
      SetKey(member, fs[i].key, Meaning(fs[i].value), more);
      AddsNode(l, FieldObjects(fs[..i]), below, member, Object(fs[i].key, Meaning(fs[i].value)), more);
      assert fs[..i + 1][..i] == fs[..i];
      l, below := l + [member], below + more;
    }
    assert fs[..|fs|] == fs;
  }

  method SetKey(o: Node, key: string, ghost v: Value, ghost below: set<Node>)
    requires o !in below && Means(o, Object("", v), below)
    modifies o`Key
    ensures Means(o, Object(key, v), below)
  {
    MeansIs(o, Object("", v), below);
    o.Key := key;
    MeansIs(o, Object(key, v), below);
  }

  /** An object of the members, of which Flat links those that share a key. */
  method BuildObject(fs: seq<Field>) returns (o: Node, ghost below: set<Node>)
    ensures fresh(o) && fresh(below) && o !in below && o.Next == null
    ensures Means(o, Object("", Meaning(JObject(fs))), below)
    decreases fs, 2
  {
    if fs == [] {
      o := new Node("", false, true, NilPayload);
      below := {};
      return;
    }
    var l;
    l, below := BuildMembers(fs);
    var heads := Linked(l, FieldObjects(fs), below);
    below := below + NodeSet(l);
    o := new Node("", false, true, Items(heads));
    MeansIs(o, Object("", Meaning(JObject(fs))), below);
  }

  method Linked(l: seq<Node>, ghost objs: seq<Object>, ghost below: set<Node>) returns (heads: seq<Node>)
    requires Distinct(l) && (forall i :: 0 <= i < |l| ==> l[i].Next == null) && AllMean(l, objs, below)
    modifies l
    ensures Filled(Items(heads), ObjectValue(Objects.Flat(objs)), below + NodeSet(l))
  {
    forall i | 0 <= i < |l|
      ensures Typed(l[i], objs[i]) && Filled(l[i].Value, objs[i].value, below)
    {
      MeansIs(l[i], objs[i], below);
    }
    heads := ObjectList.Flat(l);
    forall i | 0 <= i < |l|
      ensures Means(l[i], objs[i], below)
    {
      assert l[i] in l && SameContent(l[i]);
      MeansIs(l[i], objs[i], below);
    }
    forall k: nat
      ensures Holds(Items(heads), ObjectValue(Objects.Flat(objs)), below + NodeSet(l), k)
    {
      FlatLinks(l, objs, heads, below, k);
    }
  }
}
