/**
 Parsed objects as values, and the grouping by key that turns the members of an object
 into chains: one chain per distinct key, in the order of first occurrence.
 */
module Objects {
  import opened Wrappers

  /** A float, kept as the conversion that produced it; its value is not interpreted. */
  datatype Float = Zero | Parsed(text: string) | Negated(f: Float) | Scaled(num: int, exp: string)
      | ScaledFloat(f: Float, exp: string)

  /** Empty is an object without members, whose Value is nil in the source. */
  datatype Value =
    | FloatValue(f: Float) | IntValue(num: int) | StringValue(str: string) | BoolValue(b: bool) | NilValue
    | ListValue(elems: seq<Object>) | Empty | ObjectValue(chains: seq<seq<Object>>)

  datatype Object = Object(key: string, value: Value)

  /** A written number: whole or with a fraction, with a sign and maybe an exponent. */
  datatype Exponent = Exponent(negative: bool, digits: nat)

  datatype Number = Whole(n: int, exp: Option<Exponent>) | Fraction(negative: bool, f: Float, exp: Option<Exponent>)

  /** Whole numbers are those that 64 bits hold, but for the least. */
  predicate NumberFits(x: Number) { x.Whole? ==> -MAX_INT64 <= x.n <= MAX_INT64 }

  function ExponentText(e: Exponent): string { (if e.negative then "e-" else "e") + Decimal(e.digits) }

  /** The value of a number; a number with an exponent is a float. */
  function NumberValue(x: Number): Value
  {
    match x
    case Whole(n, None) => IntValue(n)
    case Whole(n, Some(e)) => FloatValue(Scaled(n, ExponentText(e)))
    case Fraction(negative, f, None) => FloatValue(if negative then Negated(f) else f)
    case Fraction(negative, f, Some(e)) => FloatValue(ScaledFloat(if negative then Negated(f) else f, ExponentText(e)))
  }

  const MAX_INT64 := 0x7fff_ffff_ffff_ffff

  /** Multiplication by -1 in 64 bits. */
  function Negate(n: int): int { if n == -MAX_INT64 - 1 then n else -n }

  /** strconv.FormatInt in base 10. */
  function Decimal(n: int): string
    decreases if n < 0 then 1 - n else n
  {
    if n < 0 then "-" + Decimal(-n)
    else if n < 10 then [Digit(n)]
    else Decimal(n / 10) + [Digit(n % 10)]
  }

  function Digit(d: int): char
    requires 0 <= d < 10
  {
    (d + '0' as int) as char
  }

  /** The number of the group whose first member has the key, or |gs|. */
  function FindGroup(keys: seq<string>, gs: seq<seq<nat>>, key: string): (g: nat)
    requires forall g :: 0 <= g < |gs| ==> gs[g] != [] && gs[g][0] < |keys|
    ensures g <= |gs|
    ensures g < |gs| ==> keys[gs[g][0]] == key
    ensures forall h :: 0 <= h < g ==> keys[gs[h][0]] != key
  {
    if gs == [] then 0
    else if keys[gs[0][0]] == key then 0
    else 1 + FindGroup(keys, gs[1..], key)
  }

  /** The indices of the keys, grouped. */
  function Groups(keys: seq<string>): (gs: seq<seq<nat>>)
    ensures forall g :: 0 <= g < |gs| ==> gs[g] != [] && forall j :: 0 <= j < |gs[g]| ==> gs[g][j] < |keys|
  {
    if keys == [] then []
    else
      var n := |keys| - 1;
      var gs := Groups(keys[..n]);
      assert forall g :: 0 <= g < |gs| ==> gs[g][0] < n;
      var g := FindGroup(keys[..n], gs, keys[n]);
      if g < |gs| then gs[g := gs[g] + [n]] else gs + [[n]]
  }

  ghost predicate Covered(gs: seq<seq<nat>>, i: nat) { exists g :: 0 <= g < |gs| && i in gs[g] }

  /** Two grouped indices are in the same group exactly when their keys are equal. */
  ghost predicate GroupsByKey(keys: seq<string>, gs: seq<seq<nat>>)
    requires forall g :: 0 <= g < |gs| ==> gs[g] != [] && forall j :: 0 <= j < |gs[g]| ==> gs[g][j] < |keys|
  {
    forall g, j, h, k :: 0 <= g < |gs| && 0 <= j < |gs[g]| && 0 <= h < |gs| && 0 <= k < |gs[h]| ==>
      (keys[gs[g][j]] == keys[gs[h][k]] <==> g == h)
  }

  /** Each group keeps the order of the keys, and the groups are ordered by their first members. */
  ghost predicate InOrder(gs: seq<seq<nat>>)
    requires forall g :: 0 <= g < |gs| ==> gs[g] != []
  {
    && (forall g, j, k :: 0 <= g < |gs| && 0 <= j < k < |gs[g]| ==> gs[g][j] < gs[g][k])
    && (forall g, h :: 0 <= g < h < |gs| ==> gs[g][0] < gs[h][0])
  }

  /** No index is lost. */
  lemma {:induction false} GroupsCover(keys: seq<string>, i: nat)
    requires i < |keys|
    ensures Covered(Groups(keys), i)
  {
    var n := |keys| - 1;
    var before, gs := Groups(keys[..n]), Groups(keys);
    var f := FindGroup(keys[..n], before, keys[n]);
    if i == n {
      assert i in gs[f];
    } else {
      GroupsCover(keys[..n], i);
      var g :| 0 <= g < |before| && i in before[g];
      assert i in gs[g];
    }
  }

  lemma {:induction false} GroupsOrdered(keys: seq<string>)
    ensures InOrder(Groups(keys))
  {
    if keys != [] {
      GroupsOrdered(keys[..|keys| - 1]);
    }
  }

  lemma {:induction false} GroupsSplitByKey(keys: seq<string>)
    ensures GroupsByKey(keys, Groups(keys))
  {
    if keys != [] {
      var n := |keys| - 1;
      GroupsSplitByKey(keys[..n]);
      LongerPrefix(keys, n, Groups(keys[..n]));
      var f := FindGroup(keys[..n], Groups(keys[..n]), keys[n]);
      if f < |Groups(keys[..n])| {
        GrownGroup(keys, Groups(keys[..n]), f, n);
      } else {
        AddedGroup(keys, Groups(keys[..n]), n);
      }
    }
  }

  lemma LongerPrefix(keys: seq<string>, n: nat, gs: seq<seq<nat>>)
    requires n <= |keys| && forall g :: 0 <= g < |gs| ==> gs[g] != [] && forall j :: 0 <= j < |gs[g]| ==> gs[g][j] < n
    requires GroupsByKey(keys[..n], gs)
    ensures GroupsByKey(keys, gs)
    ensures forall g :: 0 <= g < |gs| ==> keys[..n][gs[g][0]] == keys[gs[g][0]]
  {
    forall g, j, h, k | 0 <= g < |gs| && 0 <= j < |gs[g]| && 0 <= h < |gs| && 0 <= k < |gs[h]|
      ensures keys[gs[g][j]] == keys[gs[h][k]] <==> g == h
    {
      assert keys[..n][gs[g][j]] == keys[..n][gs[h][k]] <==> g == h;
    }
  }

  lemma GrownGroup(keys: seq<string>, gs: seq<seq<nat>>, f: nat, n: nat)
    requires forall g :: 0 <= g < |gs| ==> gs[g] != [] && forall j :: 0 <= j < |gs[g]| ==> gs[g][j] < |keys|
    requires n < |keys| && f < |gs| && GroupsByKey(keys, gs) && keys[gs[f][0]] == keys[n]
    ensures GroupsByKey(keys, gs[f := gs[f] + [n]])
  {
    var gs' := gs[f := gs[f] + [n]];
    forall g, j | 0 <= g < |gs'| && 0 <= j < |gs'[g]|
      ensures keys[gs'[g][j]] == keys[gs[g][0]]
    {
      assert j < |gs[g]| ==> keys[gs[g][j]] == keys[gs[g][0]];
    }
    assert forall g, h :: 0 <= g < |gs| && 0 <= h < |gs| ==> (keys[gs[g][0]] == keys[gs[h][0]] <==> g == h);
  }

  lemma AddedGroup(keys: seq<string>, gs: seq<seq<nat>>, n: nat)
    requires forall g :: 0 <= g < |gs| ==> gs[g] != [] && forall j :: 0 <= j < |gs[g]| ==> gs[g][j] < |keys|
    requires n < |keys| && GroupsByKey(keys, gs) && forall g :: 0 <= g < |gs| ==> keys[gs[g][0]] != keys[n]
    ensures GroupsByKey(keys, gs + [[n]])
  {
    forall g, j | 0 <= g < |gs| && 0 <= j < |gs[g]|
      ensures keys[gs[g][j]] != keys[n]
    {
      assert keys[gs[g][j]] == keys[gs[g][0]];
    }
  }

  lemma OneGroup(keys: seq<string>)
    requires |keys| == 2 && keys[0] == keys[1]
    ensures Groups(keys) == [[0, 1]]
  {
    assert keys[..1][..0] == [] && Groups([]) == [];
    assert Groups(keys[..1]) == [[0]];
    var gs: seq<seq<nat>> := [[0]];
    assert FindGroup(keys[..1], gs, keys[1]) == 0;
    assert Groups(keys) == gs[0 := gs[0] + [1]];
    assert gs[0] + [1] == [0, 1];
  }

  function Keys(objs: seq<Object>): seq<string>
  {
    seq(|objs|, i requires 0 <= i < |objs| => objs[i].key)
  }

  /** ObjectList.Flat on values: each group is a chain. */
  function Flat(objs: seq<Object>): seq<seq<Object>>
  {
    var gs := Groups(Keys(objs));
    seq(|gs|, g requires 0 <= g < |gs| => Pick(objs, gs[g]))
  }

  function Pick<T>(l: seq<T>, ix: seq<nat>): (r: seq<T>)
    requires forall j :: 0 <= j < |ix| ==> ix[j] < |l|
    ensures |r| == |ix|
  {
    seq(|ix|, j requires 0 <= j < |ix| => l[ix[j]])
  }
}
