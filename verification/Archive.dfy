/** Naming the files of an archive by the directory they have in common. */
module Archive {
  import opened Paths
  import opened Wrappers

  /** The longest common prefix of two strings. */
  function Lcp(a: string, b: string): (p: string)
    ensures p <= a && p <= b
    ensures |p| < |a| && |p| < |b| ==> a[|p|] != b[|p|]
  {
    if a == "" || b == "" || a[0] != b[0] then "" else [a[0]] + Lcp(a[1..], b[1..])
  }

  lemma {:induction false} LcpLongest(a: string, b: string, x: string)
    ensures x <= Lcp(a, b) <==> x <= a && x <= b
  {
    if a != "" && b != "" && x != "" && a[0] == b[0] && x[0] == a[0] {
      LcpLongest(a[1..], b[1..], x[1..]);
      Shorter(x, a);
      Shorter(x, b);
      Shorter(x, Lcp(a, b));
    }
  }

  lemma Shorter(x: string, a: string)
    requires x != "" && a != "" && x[0] == a[0]
    ensures x <= a <==> x[1..] <= a[1..]
  {
    assert x == [x[0]] + x[1..] && a == [a[0]] + a[1..];
  }

  /** A path cleaned and ended by the separator. */
  function Ended(path: string, sep: char): string { Clean(path) + [sep] }

  predicate PrefixOfAll(x: string, paths: seq<string>, sep: char)
  {
    forall i :: 0 <= i < |paths| ==> x <= Ended(paths[i], sep)
  }

  /** Where the last separator of a string is, or its length. */
  function LastSep(c: string, sep: char): (k: nat)
    ensures k <= |c| && if k < |c| then c[k] == sep && sep !in c[k + 1..] else sep !in c
  {
    if c == "" then 0
    else if c[|c| - 1] == sep then |c| - 1
    else
      var k := LastSep(c[..|c| - 1], sep);
      if k == |c| - 1 then |c| else k
  }

  /** The longest common prefix: every common prefix is one of its prefixes. */
  ghost predicate IsCommon(c: string, paths: seq<string>, sep: char)
  {
    forall x {:trigger PrefixOfAll(x, paths, sep)} :: PrefixOfAll(x, paths, sep) <==> x <= c
  }

  ghost predicate EndsIn(x: string, sep: char) { x != "" && x[|x| - 1] == sep }

  /** A common directory, with its separator. */
  ghost predicate SharedDir(x: string, paths: seq<string>, sep: char) { EndsIn(x, sep) && PrefixOfAll(x, paths, sep) }

  lemma FirstCommon(paths: seq<string>, sep: char)
    requires paths != []
    ensures IsCommon(Ended(paths[0], sep), paths[..1], sep)
  {
    assert paths[..1][0] == paths[0];
  }

  lemma MoreCommon(c: string, paths: seq<string>, n: nat, sep: char)
    requires 0 < n < |paths| && IsCommon(c, paths[..n], sep)
    ensures IsCommon(Lcp(c, Ended(paths[n], sep)), paths[..n + 1], sep)
  {
    var v, ps := Ended(paths[n], sep), paths[..n + 1];
    forall x {:trigger PrefixOfAll(x, ps, sep)}
      ensures PrefixOfAll(x, ps, sep) <==> x <= Lcp(c, v)
    {
      LcpLongest(c, v, x);
      OneMore(x, paths, n, sep);
    }
  }

  lemma OneMore(x: string, paths: seq<string>, n: nat, sep: char)
    requires n < |paths|
    ensures PrefixOfAll(x, paths[..n + 1], sep) <==> PrefixOfAll(x, paths[..n], sep) && x <= Ended(paths[n], sep)
  {
    assert paths[..n + 1][n] == paths[n];
    assert forall i :: 0 <= i < n ==> paths[..n + 1][i] == paths[..n][i];
  }

  lemma LcpIs(a: string, b: string, p: string)
    requires p <= a && p <= b && (|p| < |a| && |p| < |b| ==> a[|p|] != b[|p|])
    ensures p == Lcp(a, b)
  {
    LcpLongest(a, b, p);
    PrefixAgrees(Lcp(a, b), a, |p|);
    PrefixAgrees(Lcp(a, b), b, |p|);
  }

  lemma PrefixAgrees(p: string, a: string, i: nat)
    ensures p <= a && i < |p| ==> p[i] == a[i]
  {
  }

  /** Cuts c where it first differs from v. */
  method Truncate(c0: string, v: string) returns (c: string)
    ensures c == Lcp(c0, v)
  {
    c := if |v| < |c0| then c0[..|v|] else c0;
    for i := 0 to |c|
      invariant c[..i] == v[..i]
    {
      if v[i] != c[i] {
        c := c[..i];
        break;
      }
    }
    LcpIs(c0, v, c);
  }

  /** Removes what follows the last separator, and the separator. */
  method Trim(c0: string, sep: char) returns (c: string)
    ensures c == c0[..LastSep(c0, sep)]
  {
    c := c0;
    var i := |c| - 1;
    while i >= 0
      invariant -1 <= i < |c| && c == c0 && sep !in c[i + 1..]
    {
      if c[i] == sep {
        c := c[..i];
        return;
      }
      i := i - 1;
    }
    assert c0[0..] == c0;
  }

  /** The longest common directory is r, with its separator. */
  ghost predicate LongestDir(r: string, paths: seq<string>, sep: char)
  {
    SharedDir(r + [sep], paths, sep) && forall x :: SharedDir(x, paths, sep) ==> x <= r + [sep]
  }

  ghost predicate NoDir(paths: seq<string>, sep: char) { forall x :: !SharedDir(x, paths, sep) }

  lemma LastIsLast(c: string, sep: char, j: nat)
    ensures j < |c| && c[j] == sep ==> j <= LastSep(c, sep) < |c|
  {
    var k := LastSep(c, sep);
    if k < j < |c| {
      assert c[k + 1..][j - k - 1] == c[j];
    }
  }

  lemma DirInCommon(c: string, paths: seq<string>, sep: char, x: string)
    requires IsCommon(c, paths, sep) && SharedDir(x, paths, sep)
    ensures LastSep(c, sep) < |c| && x <= c[..LastSep(c, sep) + 1]
  {
    assert x <= c;
    LastIsLast(c, sep, |x| - 1);
  }

  /** For a common prefix c, what is left of it after its last separator is taken away. */
  lemma TrimIsLongestDir(c: string, paths: seq<string>, sep: char)
    requires IsCommon(c, paths, sep)
    ensures sep in c ==> LongestDir(c[..LastSep(c, sep)], paths, sep)
    ensures sep !in c ==> c[..LastSep(c, sep)] == c && NoDir(paths, sep)
  {
    forall x | SharedDir(x, paths, sep)
      ensures LastSep(c, sep) < |c| && x <= c[..LastSep(c, sep) + 1]
    {
      DirInCommon(c, paths, sep, x);
    }
    if sep in c {
      CommonDir(c, paths, sep);
    }
  }

  lemma CommonDir(c: string, paths: seq<string>, sep: char)
    requires IsCommon(c, paths, sep) && sep in c
    ensures LastSep(c, sep) < |c| && c[..LastSep(c, sep)] + [sep] == c[..LastSep(c, sep) + 1]
    ensures SharedDir(c[..LastSep(c, sep) + 1], paths, sep)
  {
    var j :| 0 <= j < |c| && c[j] == sep;
    LastIsLast(c, sep, j);
    TakesOne(c, LastSep(c, sep));
    assert PrefixOfAll(c[..LastSep(c, sep) + 1], paths, sep);
  }

  lemma TakesOne(c: string, k: nat)
    requires k < |c|
    ensures c[..k] + [c[k]] == c[..k + 1] <= c && c[..k + 1][k] == c[k]
  {
  }

  /**
   CommonPrefix returns the directory two or more paths have in common: with a separator it is the
   longest of their common prefixes that ends in one. When there is none, which no absolute path
   allows, it returns the common characters instead.
   */
  method CommonPrefix(sep: char, paths: seq<string>) returns (r: string)
    ensures |paths| == 0 ==> r == ""
    ensures |paths| == 1 ==> r == Clean(paths[0])
    ensures |paths| > 1 ==> LongestDir(r, paths, sep) || (NoDir(paths, sep) && IsCommon(r, paths, sep))
  {
    if |paths| == 0 {
      return "";
    }
    if |paths| == 1 {
      return Clean(paths[0]);
    }
    var c := CommonChars(sep, paths);
    TrimIsLongestDir(c, paths, sep);
    r := Trim(c, sep);
  }

  /** The first path, cut where each of the others first differs. */
  method CommonChars(sep: char, paths: seq<string>) returns (c: string)
    requires paths != []
    ensures IsCommon(c, paths, sep)
  {
    c := Clean(paths[0]) + [sep];
    FirstCommon(paths, sep);
    for n := 1 to |paths|
      invariant IsCommon(c, paths[..n], sep)
    {
      MoreCommon(c, paths, n, sep);
      c := Truncate(c, Clean(paths[n]) + [sep]);
    }
    assert paths[..|paths|] == paths;
  }

  /** strings.TrimPrefix. */
  function TrimPrefix(s: string, p: string): string { if p <= s then s[|p|..] else s }

  /** The name a path gets in an archive. */
  function ArchiveName(path: string, common: string): string { TrimPrefix(TrimPrefix(path, common), [SEP]) }

  /** What a directory listing gives: files, and directories with their entries. */
  datatype Tree = File | Dir(entries: seq<Entry>)
  datatype Entry = Entry(name: string, tree: Tree)

  /** One file or directory in an archive. */
  datatype Item = Item(path: string, name: string)

  /** The items of a path, if the rules allow it: itself, unless it is the common directory, and what is below. */
  function Items(allowed: string -> bool, path: string, tree: Tree, common: string): seq<Item>
    decreases tree, 1
  {
    if !allowed(path) then []
    else
      Self(path, common)
      + match tree
        case File => []
        case Dir(entries) => ItemsBelow(allowed, path, entries, common)
  }

  function Self(path: string, common: string): seq<Item>
  {
    if path != common then [Item(path, ArchiveName(path, common))] else []
  }

  function ItemsBelow(allowed: string -> bool, path: string, entries: seq<Entry>, common: string): seq<Item>
    decreases entries, 0
  {
    if entries == [] then []
    else
      Items(allowed, Join(path, entries[0].name), entries[0].tree, common)
      + ItemsBelow(allowed, path, entries[1..], common)
  }

  /** addFile: writes the path to the archive and goes through what is below it. */
  method AddFile(ar: seq<Item>, allowed: string -> bool, path: string, tree: Tree, common: string)
    returns (ar': seq<Item>)
    ensures ar' == ar + Items(allowed, path, tree, common)
    decreases tree, 1
  {
    if !allowed(path) {
      return ar;
    }
    ar' := WriteSelf(ar, path, common);
    if tree.Dir? {
      Associates(ar, Self(path, common), ItemsBelow(allowed, path, tree.entries, common));
      ar' := AddEntries(ar', allowed, path, tree.entries, common);
    } else {
      assert Self(path, common) + [] == Self(path, common);
    }
  }

  method WriteSelf(ar: seq<Item>, path: string, common: string) returns (ar': seq<Item>)
    ensures ar' == ar + Self(path, common)
  {
    ar' := ar;
    if path != common {
      var filename := TrimPrefix(path, common);
      filename := TrimPrefix(filename, [SEP]);
      ar' := ar' + [Item(path, filename)];
    }
  }

  method AddEntries(ar: seq<Item>, allowed: string -> bool, path: string, entries: seq<Entry>, common: string)
    returns (ar': seq<Item>)
    ensures ar' == ar + ItemsBelow(allowed, path, entries, common)
    decreases entries, 0
  {
    ar' := ar;
    for i := 0 to |entries|
      invariant ar + ItemsBelow(allowed, path, entries, common) == ar' + ItemsBelow(allowed, path, entries[i..], common)
    {
      NextEntry(ar', allowed, path, entries, i, common);
      ar' := AddFile(ar', allowed, Join(path, entries[i].name), entries[i].tree, common);
    }
  }

  lemma NextEntry(ar: seq<Item>, allowed: string -> bool, path: string, entries: seq<Entry>, i: nat, common: string)
    requires i < |entries|
    ensures ar + ItemsBelow(allowed, path, entries[i..], common)
            == ar + Items(allowed, Join(path, entries[i].name), entries[i].tree, common)
               + ItemsBelow(allowed, path, entries[i + 1..], common)
  {
    assert entries[i..][1..] == entries[i + 1..];
    var first := Join(path, entries[i].name);
    Associates(ar, Items(allowed, first, entries[i].tree, common), ItemsBelow(allowed, path, entries[i + 1..], common));
  }

  /** From the path down through entries with these names, all of it allowed, one comes to p. */
  ghost predicate Leads(allowed: string -> bool, path: string, tree: Tree, names: seq<string>, p: string)
    decreases |names|
  {
    && allowed(path)
    && if names == [] then p == path
       else tree.Dir? && exists e :: e in tree.entries && LeadsFrom(allowed, path, e, names, p)
  }

  ghost predicate LeadsFrom(allowed: string -> bool, path: string, e: Entry, names: seq<string>, p: string)
    requires names != []
    decreases |names|, 0
  {
    e.name == names[0] && Leads(allowed, Join(path, e.name), e.tree, names[1..], p)
  }

  ghost predicate Reached(allowed: string -> bool, path: string, tree: Tree, p: string)
  {
    exists names :: Leads(allowed, path, tree, names, p)
  }

  ghost predicate ReachedBelow(allowed: string -> bool, path: string, entries: seq<Entry>, p: string)
  {
    exists e :: e in entries && Reached(allowed, Join(path, e.name), e.tree, p)
  }

  lemma ReachedOne(allowed: string -> bool, path: string, tree: Tree, p: string)
    ensures Reached(allowed, path, tree, p)
            <==> allowed(path) && (p == path || (tree.Dir? && ReachedBelow(allowed, path, tree.entries, p)))
  {
    if allowed(path) && p == path {
      assert Leads(allowed, path, tree, [], p);
    } else if allowed(path) && tree.Dir? && ReachedBelow(allowed, path, tree.entries, p) {
      GoesOn(allowed, path, tree, p);
    }
    forall names | Leads(allowed, path, tree, names, p) && names != []
      ensures tree.Dir? && ReachedBelow(allowed, path, tree.entries, p)
    {
      CameThrough(allowed, path, tree, names, p);
    }
  }

  lemma GoesOn(allowed: string -> bool, path: string, tree: Tree, p: string)
    requires allowed(path) && tree.Dir? && ReachedBelow(allowed, path, tree.entries, p)
    ensures Reached(allowed, path, tree, p)
  {
    var e :| e in tree.entries && Reached(allowed, Join(path, e.name), e.tree, p);
    var names :| Leads(allowed, Join(path, e.name), e.tree, names, p);
    assert ([e.name] + names)[1..] == names;
    assert LeadsFrom(allowed, path, e, [e.name] + names, p);
    assert Leads(allowed, path, tree, [e.name] + names, p);
  }

  lemma CameThrough(allowed: string -> bool, path: string, tree: Tree, names: seq<string>, p: string)
    requires Leads(allowed, path, tree, names, p) && names != []
    ensures tree.Dir? && ReachedBelow(allowed, path, tree.entries, p)
  {
    var e :| e in tree.entries && LeadsFrom(allowed, path, e, names, p);
    assert Leads(allowed, Join(path, e.name), e.tree, names[1..], p);
  }

  /** The archive holds exactly what the rules let one reach from the path, but not the common directory. */
  lemma {:induction false} ItemsExactly(allowed: string -> bool, path: string, tree: Tree, common: string, item: Item)
    ensures item in Items(allowed, path, tree, common) <==>
              && item.path != common && item.name == ArchiveName(item.path, common)
              && Reached(allowed, path, tree, item.path)
    decreases tree, 1
  {
    ReachedOne(allowed, path, tree, item.path);
    if tree.Dir? {
      BelowExactly(allowed, path, tree.entries, common, item);
    }
  }

  lemma {:induction false} BelowExactly(allowed: string -> bool, path: string, entries: seq<Entry>, common: string,
                                        item: Item)
    ensures item in ItemsBelow(allowed, path, entries, common) <==>
              && item.path != common && item.name == ArchiveName(item.path, common)
              && ReachedBelow(allowed, path, entries, item.path)
    decreases entries, 0
  {
    if entries != [] {
      var first, rest := entries[0], entries[1..];
      ItemsExactly(allowed, Join(path, first.name), first.tree, common, item);
      BelowExactly(allowed, path, rest, common, item);
      assert forall e :: e in entries <==> e == first || e in rest;
      var here := Reached(allowed, Join(path, first.name), first.tree, item.path);
      assert ReachedBelow(allowed, path, entries, item.path) <==> here || ReachedBelow(allowed, path, rest, item.path);
    }
  }

  /** Directory listings give plain names, each once. */
  predicate PlainTree(tree: Tree)
  {
    tree.Dir? ==>
      && (forall e :: e in tree.entries ==> Plain(e.name) && PlainTree(e.tree))
      && forall i, j :: 0 <= i < j < |tree.entries| ==> tree.entries[i].name != tree.entries[j].name
  }

  /** The directory with the slash that ends it. */
  function Slashed(dir: string): string { dir + if dir == [SEP] then "" else [SEP] }

  /** The path is the directory, or below it. */
  predicate Under(path: string, dir: string) { path == dir || Slashed(dir) <= path }

  /** The name of an item leads from the common directory back to its path. */
  predicate Rebuilds(item: Item, common: string) { Slashed(common) + item.name == item.path }

  lemma UnderJoin(path: string, name: string, dir: string)
    requires Absolute(path) && Plain(name) && Under(path, dir)
    ensures Absolute(Join(path, name)) && Slashed(dir) <= Join(path, name) && Join(path, name) == Slashed(path) + name
  {
    JoinAbsolute(path, name);
  }

  lemma NoDoubleSlash(s: string)
    requires Absolute(s)
    ensures |s| > 1 ==> s[0] == SEP && s[1] != SEP
  {
    var es :| AllPlain(es) && s == Render(true, es);
    if es != [] {
      JoinedStarts(es);
    }
  }

  lemma {:induction false} JoinedStarts(es: seq<string>)
    requires es != [] && AllPlain(es)
    ensures Joined(es) != "" && Joined(es)[0] != SEP
    decreases |es|
  {
    if |es| == 1 {
      assert Plain(es[0]) && es[0][0] in es[0];
    } else {
      JoinedStarts(es[..|es| - 1]);
    }
  }

  lemma NameRebuilds(path: string, common: string)
    requires Absolute(path) && Under(path, common) && path != common
    ensures Slashed(common) + ArchiveName(path, common) == path
  {
    NoDoubleSlash(path);
    var rest := path[|common|..];
    assert common <= path && path == common + rest && TrimPrefix(path, common) == rest;
    if common == [SEP] {
      assert rest[0] == path[1] != SEP;
      assert !([SEP] <= rest);
    } else {
      assert rest[0] == path[|common|] == SEP;
      assert rest == [SEP] + rest[1..];
    }
  }

  ghost predicate Faithful(items: seq<Item>, root: string, common: string)
  {
    forall item :: item in items ==>
      Absolute(item.path) && Under(item.path, root) && item.path != common && Rebuilds(item, common)
  }

  lemma UnderTrans(a: string, b: string, c: string)
    requires Under(a, b) && Slashed(c) <= b
    ensures Slashed(c) <= a
  {
  }

  /** Every item below a path in the common directory has a name that rebuilds its path. */
  lemma {:induction false} ItemsRebuild(allowed: string -> bool, path: string, tree: Tree, common: string)
    requires Absolute(path) && PlainTree(tree) && Under(path, common)
    ensures Faithful(Items(allowed, path, tree, common), path, common)
    decreases tree, 1
  {
    if allowed(path) {
      if path != common {
        NameRebuilds(path, common);
      }
      if tree.Dir? {
        BelowRebuild(allowed, path, tree.entries, common);
      }
    }
  }

  lemma {:induction false} BelowRebuild(allowed: string -> bool, path: string, entries: seq<Entry>, common: string)
    requires Absolute(path) && Under(path, common) && forall e :: e in entries ==> Plain(e.name) && PlainTree(e.tree)
    ensures Faithful(ItemsBelow(allowed, path, entries, common), path, common)
    decreases entries, 0
  {
    if entries != [] {
      var e := entries[0];
      assert e in entries;
      var p := Join(path, e.name);
      UnderJoin(path, e.name, common);
      ItemsRebuild(allowed, p, e.tree, common);
      BelowRebuild(allowed, path, entries[1..], common);
      forall item | item in Items(allowed, p, e.tree, common)
        ensures Under(item.path, path)
      {
        UnderTrans(item.path, p, path);
      }
    }
  }

  /** Items of different paths have different names. */
  lemma NamesDiffer(items: seq<Item>, root: string, common: string, a: Item, b: Item)
    requires Faithful(items, root, common) && a in items && b in items
    ensures a.name == b.name <==> a.path == b.path
  {
    var p := Slashed(common);
    assert (p + a.name)[|p|..] == a.name && (p + b.name)[|p|..] == b.name;
  }

  /** What is under one entry of a directory is not under another. */
  lemma UnderOne(path: string, a: string, b: string, p: string)
    requires Plain(a) && Plain(b) && Under(p, Slashed(path) + a) && Under(p, Slashed(path) + b)
    ensures a == b
  {
    var d := Slashed(path);
    if |a| <= |b| {
      SameElement(d, a, b, p);
    } else {
      SameElement(d, b, a, p);
    }
  }

  lemma SameElement(d: string, a: string, b: string, p: string)
    requires d != "" && Plain(a) && Plain(b) && |a| <= |b| && Under(p, d + a) && Under(p, d + b)
    ensures a == b
  {
    assert a == p[|d|..|d| + |a|] && b == p[|d|..|d| + |b|];
    assert a == b[..|a|];
    SlashInside(d, a, b, p);
  }

  lemma SlashInside(d: string, a: string, b: string, p: string)
    ensures d != "" && Under(p, d + a) && Under(p, d + b) && 0 < |a| < |b| ==> SEP in b
  {
    if d != "" && Under(p, d + a) && Under(p, d + b) && 0 < |a| < |b| {
      assert d + b <= p && b == p[|d|..|d| + |b|] && b[|a|] == p[|d| + |a|];
      SlashFollows(d, a, p);
      assert b[|a|] in b;
    }
  }

  lemma SlashFollows(d: string, a: string, p: string)
    requires Under(p, d + a) && |d + a| < |p| && a != ""
    ensures p[|d + a|] == SEP || d + a == [SEP]
  {
  }

  ghost predicate NoneTwice(items: seq<Item>) { forall i, j :: 0 <= i < j < |items| ==> items[i].path != items[j].path }

  lemma JoinsApart(a: seq<Item>, b: seq<Item>)
    requires NoneTwice(a) && NoneTwice(b) && forall x, y :: x in a && y in b ==> x.path != y.path
    ensures NoneTwice(a + b)
  {
  }

  /** No file or directory below a path is archived twice. */
  lemma {:induction false} ItemsOnce(allowed: string -> bool, path: string, tree: Tree, common: string)
    requires Absolute(path) && PlainTree(tree) && Under(path, common)
    ensures NoneTwice(Items(allowed, path, tree, common))
    decreases tree, 1
  {
    if allowed(path) && tree.Dir? {
      BelowOnce(allowed, path, tree.entries, common);
      BelowStrictly(allowed, path, tree.entries, common);
      JoinsApart(Self(path, common), ItemsBelow(allowed, path, tree.entries, common));
    }
  }

  lemma {:induction false} BelowStrictly(allowed: string -> bool, path: string, entries: seq<Entry>, common: string)
    requires Absolute(path) && Under(path, common) && forall e :: e in entries ==> Plain(e.name) && PlainTree(e.tree)
    ensures forall item :: item in ItemsBelow(allowed, path, entries, common) ==>
              Slashed(path) <= item.path && item.path != path
              && exists e :: e in entries && Under(item.path, Slashed(path) + e.name)
    decreases |entries|
  {
    if entries != [] {
      var e := entries[0];
      assert e in entries;
      var p := Join(path, e.name);
      UnderJoin(path, e.name, common);
      ItemsRebuild(allowed, p, e.tree, common);
      BelowStrictly(allowed, path, entries[1..], common);
      forall item | item in Items(allowed, p, e.tree, common)
        ensures Slashed(path) <= item.path && item.path != path && Under(item.path, Slashed(path) + e.name)
      {
        UnderTrans(item.path, p, path);
      }
    }
  }

  lemma {:induction false} BelowOnce(allowed: string -> bool, path: string, entries: seq<Entry>, common: string)
    requires Absolute(path) && Under(path, common) && (forall e :: e in entries ==> Plain(e.name) && PlainTree(e.tree))
    requires forall i, j :: 0 <= i < j < |entries| ==> entries[i].name != entries[j].name
    ensures NoneTwice(ItemsBelow(allowed, path, entries, common))
    decreases entries, 0
  {
    if entries != [] {
      var e := entries[0];
      assert e in entries;
      var p := Join(path, e.name);
      UnderJoin(path, e.name, common);
      ItemsOnce(allowed, p, e.tree, common);
      BelowOnce(allowed, path, entries[1..], common);
      ItemsRebuild(allowed, p, e.tree, common);
      BelowStrictly(allowed, path, entries[1..], common);
      var first, rest := Items(allowed, p, e.tree, common), ItemsBelow(allowed, path, entries[1..], common);
      forall x, y | x in first && y in rest
        ensures x.path != y.path
      {
        var f :| f in entries[1..] && Under(y.path, Slashed(path) + f.name);
        if x.path == y.path {
          UnderOne(path, e.name, f.name, x.path);
        }
      }
      JoinsApart(first, rest);
    }
  }

  /** What the files of a request are: the directory asked for joined with a name, made absolute first. */
  function SlashClean(name: string): string { Clean(if name == "" || name[0] != SEP then [SEP] + name else name) }

  lemma QueryFileAbsolute(dir: string, name: string)
    requires Rooted(dir)
    ensures Absolute(SlashClean(name)) && Absolute(Join(dir, SlashClean(name)))
  {
    CleanIsAbsolute(if name == "" || name[0] != SEP then [SEP] + name else name);
    CleanIsAbsolute(dir + [SEP] + SlashClean(name));
    var es :| AllPlain(es) && SlashClean(name) == Render(true, es);
  }

  /** The items of an archive of several files, one after the other. */
  function AllItems(allowed: string -> bool, paths: seq<string>, trees: seq<Tree>, common: string): seq<Item>
    requires |paths| == |trees|
    decreases |paths|
  {
    if paths == [] then []
    else
      AllItems(allowed, paths[..|paths| - 1], trees[..|paths| - 1], common)
      + Items(allowed, paths[|paths| - 1], trees[|paths| - 1], common)
  }

  ghost predicate ReachedFromAny(allowed: string -> bool, paths: seq<string>, trees: seq<Tree>, p: string)
    requires |paths| == |trees|
  {
    exists i :: 0 <= i < |paths| && Reached(allowed, paths[i], trees[i], p)
  }

  /** The archive of several files holds exactly what can be reached from one of them. */
  lemma {:induction false} AllExactly(allowed: string -> bool, paths: seq<string>, trees: seq<Tree>, common: string,
                                      item: Item)
    requires |paths| == |trees|
    ensures item in AllItems(allowed, paths, trees, common) <==>
              && item.path != common && item.name == ArchiveName(item.path, common)
              && ReachedFromAny(allowed, paths, trees, item.path)
    decreases |paths|
  {
    if paths != [] {
      var n := |paths| - 1;
      var ps, ts := paths[..n], trees[..n];
      AllExactly(allowed, ps, ts, common, item);
      ItemsExactly(allowed, paths[n], trees[n], common, item);
      AnyOfMore(allowed, paths, trees, item.path);
    }
  }

  lemma AnyOfMore(allowed: string -> bool, paths: seq<string>, trees: seq<Tree>, p: string)
    requires |paths| == |trees| && paths != []
    ensures var n := |paths| - 1;
            ReachedFromAny(allowed, paths, trees, p) <==>
              ReachedFromAny(allowed, paths[..n], trees[..n], p) || Reached(allowed, paths[n], trees[n], p)
  {
    var n := |paths| - 1;
    if ReachedFromAny(allowed, paths[..n], trees[..n], p) {
      var i :| 0 <= i < n && Reached(allowed, paths[..n][i], trees[..n][i], p);
      assert Reached(allowed, paths[i], trees[i], p);
    }
    if i :| 0 <= i < n && Reached(allowed, paths[i], trees[i], p) {
      assert Reached(allowed, paths[..n][i], trees[..n][i], p);
    }
  }

  /**
   rawDirHandler, for clean absolute paths: the common directory and what goes into the archive. One
   path is its own common directory, so a single plain file gives an empty archive.
   */
  method RawDir(allowed: string -> bool, paths: seq<string>, trees: seq<Tree>) returns (common: string, ar: seq<Item>)
    requires |paths| == |trees| && forall i :: 0 <= i < |paths| ==> Absolute(paths[i]) && PlainTree(trees[i])
    ensures ar == AllItems(allowed, paths, trees, common)
    ensures forall item :: item in ar <==>
              && item.path != common && item.name == ArchiveName(item.path, common)
              && ReachedFromAny(allowed, paths, trees, item.path)
    ensures |paths| == 1 ==> common == paths[0] && (trees[0].File? ==> ar == [])
    ensures forall i :: 0 <= i < |paths| ==> Under(paths[i], common)
    ensures forall item :: item in ar ==> item.path != common && Rebuilds(item, common)
  {
    common := CommonPrefix(SEP, paths);
    CommonIsAbove(paths, common);
    ar := [];
    for i := 0 to |paths|
      invariant ar == AllItems(allowed, paths[..i], trees[..i], common)
      invariant forall item :: item in ar ==> item.path != common && Rebuilds(item, common)
    {
      ItemsRebuild(allowed, paths[i], trees[i], common);
      ar := AddFile(ar, allowed, paths[i], trees[i], common);
      assert paths[..i + 1][..i] == paths[..i] && trees[..i + 1][..i] == trees[..i];
    }
    assert paths[..|paths|] == paths && trees[..|paths|] == trees;
    forall item
      ensures item in ar <==>
                && item.path != common && item.name == ArchiveName(item.path, common)
                && ReachedFromAny(allowed, paths, trees, item.path)
    {
      AllExactly(allowed, paths, trees, common, item);
    }
    if |paths| == 1 {
      SingleCommon(paths[0]);
      assert paths[..0] == [] && AllItems(allowed, [], [], common) == [];
    }
  }

  lemma SingleCommon(path: string)
    requires Absolute(path)
    ensures Clean(path) == path
  {
    var es :| AllPlain(es) && path == Render(true, es);
    CleanAbsolute(es);
  }

  /** Clean absolute paths are all in or below their common prefix. */
  lemma CommonIsAbove(paths: seq<string>, common: string)
    requires forall i :: 0 <= i < |paths| ==> Absolute(paths[i])
    requires |paths| == 1 ==> common == Clean(paths[0])
    requires |paths| > 1 ==> LongestDir(common, paths, SEP) || (NoDir(paths, SEP) && IsCommon(common, paths, SEP))
    ensures forall i :: 0 <= i < |paths| ==> Under(paths[i], common)
  {
    forall i | 0 <= i < |paths|
      ensures Clean(paths[i]) == paths[i] && [SEP] <= Ended(paths[i], SEP)
    {
      var es :| AllPlain(es) && paths[i] == Render(true, es);
      CleanAbsolute(es);
    }
    if |paths| > 1 {
      assert SharedDir([SEP], paths, SEP);
      forall i | 0 <= i < |paths|
        ensures Under(paths[i], common)
      {
        assert common + [SEP] <= Ended(paths[i], SEP) == paths[i] + [SEP];
        EndsUnder(paths[i], common);
      }
    }
  }

  lemma EndsUnder(path: string, common: string)
    requires common + [SEP] <= path + [SEP]
    ensures Under(path, common)
  {
    var c := common + [SEP];
    assert c == (path + [SEP])[..|c|];
    if |common| < |path| {
      assert c == path[..|c|];
    } else {
      assert common == c[..|common|] == (path + [SEP])[..|path|] == path;
    }
  }
}
