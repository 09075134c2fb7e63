/** The guess whether a file is binary, from the first bytes of its content. */
module Binary {
  import opened Bytes
  import opened Utf8

  const MAX_CONTROL := 8

  /** No control character, and errors only as a tail of at most four runes. */
  ghost predicate LooksLikeText(rs: seq<int>)
  {
    && (forall i :: 0 <= i < |rs| ==> rs[i] > MAX_CONTROL)
    && exists k :: ErrorTail(rs, k) && |rs| - k <= UTF_MAX
  }

  /** The error runes are exactly those from k on. */
  ghost predicate ErrorTail(rs: seq<int>, k: int)
  {
    0 <= k <= |rs| && forall i :: 0 <= i < |rs| ==> (rs[i] == RUNE_ERROR <==> k <= i)
  }

  /** utf8.RuneCount. */
  method RuneCount(content: seq<byte>) returns (n: nat)
    ensures n == |Runes(content)|
  {
    n := 0;
    var i := 0;
    while i < |content|
      invariant 0 <= i <= |content|
      invariant n + |Runes(content[i..])| == |Runes(content)|
    {
      var w := Decode(content[i..]).1;
      NextRune(content, i, Runes(content[i..]), 0);
      i := i + w;
      n := n + 1;
    }
  }

  /** isBinary: anything that does not look like text, cut somewhere, is binary. */
  method IsBinary(content: seq<byte>) returns (binary: bool)
    ensures binary <==> !LooksLikeText(Runes(content))
  {
    var runeCnt := RuneCount(content);
    var runeIndex, gotRuneErrCnt, firstRuneErrIndex := 0, 0, -1;
    ghost var rs := Runes(content);
    var at := 0;
    while at < |content|
      invariant 0 <= at <= |content| && runeIndex <= |rs| && Runes(content[at..]) == rs[runeIndex..]
      invariant Scanned(rs, runeIndex, gotRuneErrCnt, firstRuneErrIndex)
    {
      var d := Decode(content[at..]);
      NextRune(content, at, rs, runeIndex);
      var stop: bool;
      stop, gotRuneErrCnt, firstRuneErrIndex := Note(d.0, rs, runeCnt, runeIndex, gotRuneErrCnt, firstRuneErrIndex);
      if stop {
        return true;
      }
      runeIndex := runeIndex + 1;
      at := at + d.1;
    }
    Verdict(rs, gotRuneErrCnt, firstRuneErrIndex);
    binary := firstRuneErrIndex != -1 && gotRuneErrCnt != runeCnt - firstRuneErrIndex;
  }

  /** The body of the loop for one rune: whether it settles the matter, and the updated counters. */
  method Note(r: int, ghost rs: seq<int>, runeCnt: nat, runeIndex: nat, errCnt: int, firstErr: int)
    returns (stop: bool, gotRuneErrCnt: int, firstRuneErrIndex: int)
    requires runeCnt == |rs| && runeIndex < |rs| && r == rs[runeIndex]
    requires Scanned(rs, runeIndex, errCnt, firstErr)
    ensures if stop then !LooksLikeText(rs) else Scanned(rs, runeIndex + 1, gotRuneErrCnt, firstRuneErrIndex)
  {
    gotRuneErrCnt, firstRuneErrIndex := errCnt, firstErr;
    if r <= MAX_CONTROL {
      return true, errCnt, firstErr;
    }
    if r == RUNE_ERROR {
      if runeCnt > UTF_MAX && runeIndex < runeCnt - UTF_MAX {
        EarlyError(rs, runeIndex);
        return true, errCnt, firstErr;
      }
      gotRuneErrCnt := gotRuneErrCnt + 1;
      if firstRuneErrIndex == -1 {
        firstRuneErrIndex := runeIndex;
      }
    }
    ErrorsNext(rs, runeIndex);
    stop := false;
  }

  /** What the loop knows of the first i runes: their error runes, the first of these, and no reason to stop. */
  ghost predicate Scanned(rs: seq<int>, i: int, count: int, first: int)
  {
    && 0 <= i <= |rs| && count == Errors(rs[..i]) && -1 <= first < i
    && (forall h :: 0 <= h < i ==> rs[h] > MAX_CONTROL)
    && (forall h :: 0 <= h < i && rs[h] == RUNE_ERROR ==> first != -1 && first <= h && |rs| - h <= UTF_MAX)
    && (first != -1 ==> rs[first] == RUNE_ERROR)
  }

  lemma NextRune(content: seq<byte>, at: nat, rs: seq<int>, i: nat)
    requires at < |content| && i <= |rs| && Runes(content[at..]) == rs[i..]
    ensures i < |rs| && rs[i] == Decode(content[at..]).0
    ensures at + Decode(content[at..]).1 <= |content|
    ensures Runes(content[at + Decode(content[at..]).1..]) == rs[i + 1..]
  {
    var w := Decode(content[at..]).1;
    assert content[at..][w..] == content[at + w..];
    assert rs[i..][1..] == rs[i + 1..];
  }

  lemma EarlyError(rs: seq<int>, i: nat)
    requires i < |rs| - UTF_MAX && rs[i] == RUNE_ERROR
    ensures !LooksLikeText(rs)
  {
    forall k | ErrorTail(rs, k)
      ensures k <= i
    {
    }
  }

  lemma ErrorsNext(rs: seq<int>, i: nat)
    requires i < |rs|
    ensures Errors(rs[..i + 1]) == Errors(rs[..i]) + if rs[i] == RUNE_ERROR then 1 else 0
  {
    assert rs[..i + 1][..i] == rs[..i];
  }

  lemma Verdict(rs: seq<int>, count: int, first: int)
    requires Scanned(rs, |rs|, count, first)
    ensures LooksLikeText(rs) <==> first == -1 || count == |rs| - first
  {
    assert rs[..|rs|] == rs;
    if first == -1 {
      assert ErrorTail(rs, |rs|);
    } else {
      ErrorsFrom(rs, first);
      forall k | ErrorTail(rs, k)
        ensures k == first
      {
        assert k < |rs| ==> rs[k] == RUNE_ERROR;
      }
      assert count == |rs| - first ==> ErrorTail(rs, first);
    }
  }

  ghost function Errors(rs: seq<int>): nat
  {
    if rs == [] then 0 else Errors(rs[..|rs| - 1]) + if rs[|rs| - 1] == RUNE_ERROR then 1 else 0
  }

  /** With no error before k, the errors number |rs| - k exactly when all runes from k on are errors. */
  lemma {:induction false} ErrorsFrom(rs: seq<int>, k: nat)
    requires k <= |rs| && forall i :: 0 <= i < k ==> rs[i] != RUNE_ERROR
    ensures Errors(rs) <= |rs| - k
    ensures Errors(rs) == |rs| - k <==> forall i :: k <= i < |rs| ==> rs[i] == RUNE_ERROR
    decreases |rs|
  {
    if |rs| > k {
      ErrorsFrom(rs[..|rs| - 1], k);
      assert forall i :: 0 <= i < |rs| - 1 ==> rs[..|rs| - 1][i] == rs[i];
    } else if rs != [] {
      ErrorsFrom(rs[..|rs| - 1], k - 1);
    }
  }

  ghost predicate PlainText(rs: seq<int>)
  {
    Scalars(rs) && forall i :: 0 <= i < |rs| ==> rs[i] > MAX_CONTROL && rs[i] != RUNE_ERROR
  }

  /** Text without control characters is never judged binary, wherever the read cuts it off. */
  lemma CutTextLooksLikeText(rs: seq<int>, n: nat)
    requires PlainText(rs) && n <= |EncodeAll(rs)|
    ensures LooksLikeText(Runes(EncodeAll(rs)[..n]))
  {
    var k := WholeRunes(rs, n);
    var cut := Leftover(rs, n, k);
    RunesEncodeAll(rs[..k], cut);
    TextThenErrors(rs, k, Runes(cut));
  }

  /** The bytes after the last whole rune, which decode to error runes. */
  lemma Leftover(rs: seq<int>, n: nat, k: nat) returns (cut: seq<byte>)
    requires Scalars(rs) && n <= |EncodeAll(rs)| && k <= |rs| && WholeUpTo(rs, n, k)
    ensures EncodeAll(rs)[..n] == EncodeAll(rs[..k]) + cut
    ensures |Runes(cut)| <= 3 && forall i :: 0 <= i < |Runes(cut)| ==> Runes(cut)[i] == RUNE_ERROR
  {
    var m := |EncodeAll(rs[..k])|;
    cut := EncodeAll(rs)[m..n];
    if k < |rs| {
      CutRune(rs[k], n - m);
    } else {
      assert cut == [];
    }
  }

  lemma TextThenErrors(rs: seq<int>, k: nat, tail: seq<int>)
    requires PlainText(rs) && k <= |rs| && |tail| <= UTF_MAX && forall i :: 0 <= i < |tail| ==> tail[i] == RUNE_ERROR
    ensures LooksLikeText(rs[..k] + tail)
  {
    var all := rs[..k] + tail;
    forall i | 0 <= i < |all|
      ensures all[i] == if i < k then rs[i] else tail[i - k]
    {
    }
    assert ErrorTail(all, k);
  }

  /** How many runes the first n bytes hold completely. */
  lemma {:induction false} WholeRunes(rs: seq<int>, n: nat) returns (k: nat)
    requires Scalars(rs) && n <= |EncodeAll(rs)|
    ensures k <= |rs| && WholeUpTo(rs, n, k)
  {
    if rs == [] || n < |Encode(rs[0])| {
      k := 0;
      assert rs[..0] == [];
    } else {
      var k' := WholeRunes(rs[1..], n - |Encode(rs[0])|);
      k := k' + 1;
      OneMoreWhole(rs, n, k');
    }
  }

  lemma OneMoreWhole(rs: seq<int>, n: nat, k: nat)
    requires Scalars(rs) && rs != [] && |Encode(rs[0])| <= n <= |EncodeAll(rs)|
    requires k < |rs| && WholeUpTo(rs[1..], n - |Encode(rs[0])|, k)
    ensures WholeUpTo(rs, n, k + 1)
  {
    var e, rest, m := Encode(rs[0]), EncodeAll(rs[1..]), |EncodeAll(rs[1..][..k])|;
    EncodeTakes(rs, k);
    SliceConcat(e, rest, m, n);
    NextOf(rs, k);
    assert EncodeAll(rs[..k + 1]) == EncodeAll(rs)[..|e| + m];
  }

  lemma NextOf(rs: seq<int>, k: nat)
    requires k < |rs|
    ensures |rs[1..]| == |rs| - 1 && (k + 1 < |rs| ==> rs[k + 1] == rs[1..][k])
  {
  }

  lemma EncodeTakes(rs: seq<int>, k: nat)
    requires Scalars(rs) && k < |rs|
    ensures EncodeAll(rs) == Encode(rs[0]) + EncodeAll(rs[1..])
    ensures EncodeAll(rs[..k + 1]) == Encode(rs[0]) + EncodeAll(rs[1..][..k])
  {
    assert rs[..k + 1][1..] == rs[1..][..k];
  }

  lemma SliceConcat<T>(a: seq<T>, b: seq<T>, m: nat, n: nat)
    requires |a| + m <= n <= |a + b|
    ensures (a + b)[..|a| + m] == a + b[..m] && (a + b)[|a| + m..n] == b[m..n - |a|]
  {
  }

  /** The first k runes are complete within the first n bytes, and rune k is not. */
  ghost predicate WholeUpTo(rs: seq<int>, n: nat, k: nat)
    requires Scalars(rs) && n <= |EncodeAll(rs)| && k <= |rs|
  {
    var m := |EncodeAll(rs[..k])|;
    && m <= n && EncodeAll(rs[..k]) == EncodeAll(rs)[..m]
    && if k == |rs| then n == m
       else n - m < |Encode(rs[k])| && EncodeAll(rs)[m..n] == Encode(rs[k])[..n - m]
  }
}
