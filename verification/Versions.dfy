/** Finding a free file name by numbering. */
module Versions {
  import opened Objects
  import opened Paths

  /** filepath.Ext: where the last dot of a name is, or the end. */
  function ExtStart(name: string): (k: nat)
    ensures k <= |name|
    ensures if k == |name| then '.' !in name else name[k] == '.' && '.' !in name[k + 1..]
  {
    if name == "" then 0
    else if name[|name| - 1] == '.' then |name| - 1
    else
      var k := ExtStart(name[..|name| - 1]);
      if k == |name| - 1 then |name| else k
  }

  function Directory(source: string): string { source[..DirLength(source)] }

  function Name(source: string): string { source[DirLength(source)..] }

  /** The name with a number in front of its extension. */
  function Numbered(name: string, k: nat): string
  {
    name[..ExtStart(name)] + "(" + Decimal(k) + ")" + name[ExtStart(name)..]
  }

  /** The k-th name that is tried; the first is the source itself. */
  function Candidate(source: string, k: nat): string
  {
    if k == 0 then source else Join(Directory(source), Numbered(Name(source), k))
  }

  ghost predicate Free(source: string, files: set<string>, k: nat) { Candidate(source, k) !in files }

  /** No smaller number is free. */
  ghost predicate LeastFree(source: string, files: set<string>, k: nat)
  {
    Free(source, files, k) && forall j: nat :: j < k ==> !Free(source, files, j)
  }

  /** Decimal digits determine a number. */
  lemma {:induction false} DecimalInjective(a: nat, b: nat)
    ensures Decimal(a) == Decimal(b) ==> a == b
    decreases a
  {
    LastDigit(a);
    LastDigit(b);
    if a >= 10 && b >= 10 {
      DecimalInjective(a / 10, b / 10);
    }
  }

  lemma LastDigit(n: nat)
    ensures var s := Decimal(n);
            && s != [] && s[|s| - 1] == Digit(n % 10) && (|s| == 1 <==> n < 10)
            && (n >= 10 ==> s[..|s| - 1] == Decimal(n / 10))
  {
  }

  lemma NumberedPlain(name: string, k: nat)
    requires SEP !in name
    ensures Plain(Numbered(name, k))
  {
    var s := Numbered(name, k);
    DecimalNoSep(k);
    assert s[ExtStart(name)] == '(';
  }

  lemma {:induction false} DecimalNoSep(n: nat)
    ensures SEP !in Decimal(n)
  {
    if n >= 10 {
      DecimalNoSep(n / 10);
    }
  }

  /** All candidates are in the directory of the source, which is only resolved. */
  lemma CandidateIs(source: string, k: nat)
    requires k > 0
    ensures Candidate(source, k) == Place(Directory(source)) + Numbered(Name(source), k)
  {
    NumberedPlain(Name(source), k);
    JoinPlain(Directory(source), Numbered(Name(source), k));
  }

  lemma NumberedInjective(name: string, j: nat, k: nat)
    requires Numbered(name, j) == Numbered(name, k)
    ensures j == k
  {
    var a, c := name[..ExtStart(name)] + "(", ")" + name[ExtStart(name)..];
    assert Numbered(name, j) == a + Decimal(j) + c && Numbered(name, k) == a + Decimal(k) + c;
    Middle(a, Decimal(j), Decimal(k), c);
    DecimalInjective(j, k);
  }

  lemma Middle(a: string, x: string, y: string, c: string)
    requires a + x + c == a + y + c
    ensures x == y
  {
    assert |x| == |y|;
    assert x == (a + x + c)[|a|..|a| + |x|] == (a + y + c)[|a|..|a| + |y|] == y;
  }

  lemma CandidatesDiffer(source: string, j: nat, k: nat)
    requires 0 < j && 0 < k && Candidate(source, j) == Candidate(source, k)
    ensures j == k
  {
    CandidateIs(source, j);
    CandidateIs(source, k);
    var p := Place(Directory(source));
    assert (p + Numbered(Name(source), j))[|p|..] == (p + Numbered(Name(source), k))[|p|..];
    NumberedInjective(Name(source), j, k);
  }

  /** The candidates with the numbers 1 to n. */
  ghost function Tried(source: string, n: nat): set<string> { set k: nat | 0 < k <= n :: Candidate(source, k) }

  lemma TriedNext(source: string, n: nat)
    requires n > 0
    ensures Tried(source, n) == Tried(source, n - 1) + {Candidate(source, n)}
  {
    forall c | c in Tried(source, n)
      ensures c in Tried(source, n - 1) || c == Candidate(source, n)
    {
      var k: nat :| 0 < k <= n && c == Candidate(source, k);
      assert k < n ==> c in Tried(source, n - 1);
    }
  }

  lemma {:induction false} TriedSize(source: string, n: nat)
    ensures |Tried(source, n)| == n
  {
    if n == 0 {
      assert Tried(source, n) == {};
    } else {
      TriedSize(source, n - 1);
      TriedNext(source, n);
      assert Candidate(source, n) !in Tried(source, n - 1) by {
        if k: nat :| 0 < k <= n - 1 && Candidate(source, k) == Candidate(source, n) {
          CandidatesDiffer(source, k, n);
        }
      }
    }
  }

  /** Some name among one more than there are files is free. */
  lemma NotAllTaken(source: string, files: set<string>, n: nat)
    requires n > |files|
    ensures !(Tried(source, n) <= files)
  {
    TriedSize(source, n);
    SubsetSize(Tried(source, n), files);
  }

  lemma SubsetSize<T>(a: set<T>, b: set<T>)
    ensures a <= b ==> |a| <= |b|
  {
    if a <= b {
      Subset(a, b);
    }
  }

  /** A file system has room for so many names only, so one of the first candidates is free. */
  lemma SomeFree(source: string, files: set<string>) returns (k: nat)
    ensures k <= |files| + 1 && LeastFree(source, files, k)
  {
    var n := |files| + 1;
    NotAllTaken(source, files, n);
    var free :| free in Tried(source, n) && free !in files;
    var last: nat :| 0 < last <= n && Candidate(source, last) == free;
    k := LeastUpTo(source, files, last);
  }

  lemma {:induction false} LeastUpTo(source: string, files: set<string>, last: nat) returns (k: nat)
    requires Free(source, files, last)
    ensures k <= last && LeastFree(source, files, k)
  {
    if j: nat :| j < last && Free(source, files, j) {
      k := LeastUpTo(source, files, j);
    } else {
      k := last;
    }
  }

  lemma {:induction false} Subset<T>(a: set<T>, b: set<T>)
    requires a <= b
    ensures |a| <= |b|
  {
    if a != {} {
      var x :| x in a;
      Subset(a - {x}, b - {x});
    }
  }

  /** Returns the source if it is free, and else the first numbered name that is. It always finds one. */
  method AddVersionSuffix(source0: string, files: set<string>) returns (source: string)
    ensures source !in files
    ensures exists k: nat :: k <= |files| + 1 && LeastFree(source0, files, k) && source == Candidate(source0, k)
  {
    source := source0;
    var counter := 1;
    var dir, name := Directory(source), Name(source);
    var ext := name[ExtStart(name)..];
    var base := name[..ExtStart(name)];
    ghost var free := SomeFree(source0, files);
    while source in files
      invariant 1 <= counter <= free + 1 && source == Candidate(source0, counter - 1)
      decreases free + 1 - counter
    {
      var renamed := base + "(" + Decimal(counter) + ")" + ext;
      source := Join(dir, renamed);
      counter := counter + 1;
    }
    assert Free(source0, files, counter - 1);
    assert counter - 1 == free;
  }

  /** In a clean absolute path only the name changes: its number goes before the extension, in the same directory. */
  lemma SameDirectory(dir: string, name: string, k: nat)
    requires Absolute(dir) && SEP !in name && k > 0
    ensures var slash := if dir == [SEP] then "" else [SEP];
            Candidate(dir + slash + name, k) == dir + slash + Numbered(name, k)
  {
    var slash := if dir == [SEP] then "" else [SEP];
    var source := dir + slash + name;
    SplitsAt(dir + slash, name);
    CandidateIs(source, k);
    PlaceOfSlash(dir);
  }

  lemma {:induction false} SplitsAt(dir: string, name: string)
    requires dir != "" && dir[|dir| - 1] == SEP && SEP !in name
    ensures DirLength(dir + name) == |dir| && (dir + name)[|dir|..] == name && (dir + name)[..|dir|] == dir
    decreases |name|
  {
    if name == "" {
      assert dir + name == dir;
    } else {
      var k := |name| - 1;
      assert (dir + name)[..|dir + name| - 1] == dir + name[..k];
      assert name[k] in name && (dir + name)[|dir + name| - 1] == name[k];
      SplitsAt(dir, name[..k]);
    }
  }

  lemma PlaceOfSlash(dir: string)
    requires Absolute(dir)
    ensures var d := if dir == [SEP] then dir else dir + [SEP]; Place(d) == d
  {
    PlaceAbsolute(dir);
    if dir != [SEP] {
      var es :| AllPlain(es) && dir == Render(true, es);
      CleanAbsolute(es);
      ElementsConcat(dir, "");
      assert dir + [SEP] + "" == dir + [SEP];
      ResolveConcat(true, [], Elements(dir), [""]);
      assert Resolve(true, es, [""]) == es;
      RootIsEmpty(es);
    }
  }
}
