/** Go's path.Clean, Join and Split on slash-separated paths. */
module Paths {

  const SEP := '/'

  /** The elements between slashes. */
  function Elements(s: string): (es: seq<string>)
    ensures |es| >= 1
  {
    if s == "" then [""]
    else
      var rest := Elements(s[1..]);
      if s[0] == SEP then [""] + rest else [[s[0]] + rest[0]] + rest[1..]
  }

  /** The elements joined by slashes. */
  function Joined(es: seq<string>): string
  {
    if es == [] then ""
    else if |es| == 1 then es[0]
    else Joined(es[..|es| - 1]) + [SEP] + es[|es| - 1]
  }

  /** One element more: empty ones and dots go, and two dots take the element before with them. */
  function Step(rooted: bool, stack: seq<string>, e: string): seq<string>
  {
    if e == "" || e == "." then stack
    else if e != ".." then stack + [e]
    else if stack != [] && stack[|stack| - 1] != ".." then stack[..|stack| - 1]
    else if rooted then stack
    else stack + [e]
  }

  function Resolve(rooted: bool, stack: seq<string>, es: seq<string>): seq<string>
    decreases |es|
  {
    if es == [] then stack else Resolve(rooted, Step(rooted, stack, es[0]), es[1..])
  }

  predicate Rooted(s: string) { s != "" && s[0] == SEP }

  function Render(rooted: bool, stack: seq<string>): string { (if rooted then [SEP] else "") + Joined(stack) }

  /** path.Clean. */
  function Clean(s: string): string
  {
    var r := Render(Rooted(s), Resolve(Rooted(s), [], Elements(s)));
    if r == "" then "." else r
  }

  /** path.Join of a directory and a name; empty elements are ignored. */
  function Join(dir: string, name: string): string
  {
    if dir == "" && name == "" then ""
    else if dir == "" then Clean(name)
    else if name == "" then Clean(dir)
    else Clean(dir + [SEP] + name)
  }

  /** The length of the directory part of a path, with its slash. */
  function DirLength(s: string): (n: nat)
    ensures n <= |s| && (n > 0 ==> s[n - 1] == SEP) && SEP !in s[n..]
  {
    if s == "" then 0
    else if s[|s| - 1] == SEP then |s|
    else DirLength(s[..|s| - 1])
  }

  /** An element that stays as it is. */
  predicate Plain(e: string) { e != "" && e != "." && e != ".." && SEP !in e }

  predicate AllPlain(es: seq<string>) { forall i :: 0 <= i < |es| ==> Plain(es[i]) }

  lemma {:induction false} ElementsConcat(a: string, b: string)
    ensures Elements(a + [SEP] + b) == Elements(a) + Elements(b)
  {
    var s := a + [SEP] + b;
    if a == "" {
      assert s[1..] == b;
    } else {
      assert s[1..] == a[1..] + [SEP] + b;
      ElementsConcat(a[1..], b);
    }
  }

  lemma {:induction false} ElementAlone(e: string)
    requires SEP !in e
    ensures Elements(e) == [e]
  {
    if e != "" {
      ElementAlone(e[1..]);
      assert e[0] in e && e == [e[0]] + e[1..];
    }
  }

  lemma {:induction false} ElementsJoined(es: seq<string>)
    requires es != [] && forall i :: 0 <= i < |es| ==> SEP !in es[i]
    ensures Elements(Joined(es)) == es
    decreases |es|
  {
    ElementAlone(es[|es| - 1]);
    if |es| > 1 {
      ElementsJoined(es[..|es| - 1]);
      ElementsConcat(Joined(es[..|es| - 1]), es[|es| - 1]);
      assert es == es[..|es| - 1] + [es[|es| - 1]];
    }
  }

  lemma {:induction false} ResolveConcat(rooted: bool, stack: seq<string>, a: seq<string>, b: seq<string>)
    ensures Resolve(rooted, stack, a + b) == Resolve(rooted, Resolve(rooted, stack, a), b)
    decreases |a|
  {
    if a == [] {
      assert a + b == b;
    } else {
      assert (a + b)[1..] == a[1..] + b;
      ResolveConcat(rooted, Step(rooted, stack, a[0]), a[1..], b);
    }
  }

  lemma {:induction false} PlainStay(rooted: bool, stack: seq<string>, es: seq<string>)
    requires AllPlain(es)
    ensures Resolve(rooted, stack, es) == stack + es
    decreases |es|
  {
    if es == [] {
      assert stack + es == stack;
    } else {
      PlainStay(rooted, stack + [es[0]], es[1..]);
      assert stack + [es[0]] + es[1..] == stack + es;
    }
  }

  /** Where a plain name ends up in a directory, resolved. */
  function Place(dir: string): string
  {
    var stack := Resolve(Rooted(dir), [], Elements(dir));
    Render(Rooted(dir), stack) + if stack == [] then "" else [SEP]
  }

  lemma PlainAlone(name: string)
    requires Plain(name)
    ensures Clean(name) == name
  {
    ElementAlone(name);
    PlainStay(false, [], [name]);
    assert !Rooted(name) by {
      assert name[0] in name;
    }
    assert Resolve(false, [], [name]) == [name] && Render(false, [name]) == name;
  }

  lemma ResolvesBehind(rooted: bool, dir: string, name: string)
    requires Plain(name)
    ensures Resolve(rooted, [], Elements(dir + [SEP] + name)) == Resolve(rooted, [], Elements(dir)) + [name]
  {
    ElementsConcat(dir, name);
    ElementAlone(name);
    ResolveConcat(rooted, [], Elements(dir), [name]);
    PlainStay(rooted, Resolve(rooted, [], Elements(dir)), [name]);
  }

  lemma RenderPush(rooted: bool, stack: seq<string>, name: string)
    ensures Render(rooted, stack + [name]) == Render(rooted, stack) + (if stack == [] then "" else [SEP]) + name
  {
    JoinedPush(stack, name);
  }

  /** Joining a plain name to a directory puts it behind the resolved directory. */
  lemma JoinPlain(dir: string, name: string)
    requires Plain(name)
    ensures Join(dir, name) == Place(dir) + name
  {
    if dir == "" {
      PlainAlone(name);
      assert Resolve(false, [], [""]) == [];
    } else {
      var s := dir + [SEP] + name;
      assert Rooted(s) == Rooted(dir);
      ResolvesBehind(Rooted(dir), dir, name);
      RenderPush(Rooted(dir), Resolve(Rooted(dir), [], Elements(dir)), name);
      assert Clean(s) == Place(dir) + name;
    }
  }

  lemma JoinedPush(stack: seq<string>, name: string)
    ensures Joined(stack + [name]) == Joined(stack) + (if stack == [] then "" else [SEP]) + name
  {
    if stack == [] {
      assert stack + [name] == [name];
    } else {
      assert (stack + [name])[..|stack|] == stack;
    }
  }

  /** A clean absolute path: plain elements, each behind a slash. */
  ghost predicate Absolute(s: string) { exists es :: AllPlain(es) && s == Render(true, es) }

  lemma CleanAbsolute(es: seq<string>)
    requires AllPlain(es)
    ensures Clean(Render(true, es)) == Render(true, es)
    ensures Rooted(Render(true, es)) && Resolve(true, [], Elements(Render(true, es))) == es
  {
    var s := Render(true, es);
    ElementsConcat("", Joined(es));
    assert "" + [SEP] + Joined(es) == s;
    if es == [] {
      assert Elements("") == [""];
      assert Resolve(true, [], ["", ""]) == Resolve(true, [], [""]) == [];
    } else {
      ElementsJoined(es);
      ResolveConcat(true, [], [""], es);
      PlainStay(true, [], es);
      assert Resolve(true, [], [""]) == [];
      assert [] + es == es;
    }
  }

  lemma {:induction false} ResolvesPlain(stack: seq<string>, es: seq<string>)
    requires AllPlain(stack) && forall i :: 0 <= i < |es| ==> SEP !in es[i]
    ensures AllPlain(Resolve(true, stack, es))
    decreases |es|
  {
    if es != [] {
      ResolvesPlain(Step(true, stack, es[0]), es[1..]);
    }
  }

  lemma {:induction false} ElementsNoSep(s: string)
    ensures forall i :: 0 <= i < |Elements(s)| ==> SEP !in Elements(s)[i]
  {
    if s != "" {
      ElementsNoSep(s[1..]);
    }
  }

  /** Cleaning a rooted path gives a clean absolute path, which cleaning leaves alone. */
  lemma CleanIsAbsolute(s: string)
    requires Rooted(s)
    ensures Absolute(Clean(s)) && Clean(Clean(s)) == Clean(s)
  {
    var es := Resolve(true, [], Elements(s));
    ElementsNoSep(s);
    ResolvesPlain([], Elements(s));
    CleanAbsolute(es);
  }

  lemma RootIsEmpty(es: seq<string>)
    requires AllPlain(es)
    ensures Render(true, es) == [SEP] <==> es == []
  {
    if es != [] {
      assert Plain(es[|es| - 1]);
    }
  }

  /** In a clean absolute directory a plain name goes behind one slash. */
  lemma PlaceAbsolute(dir: string)
    requires Absolute(dir)
    ensures Place(dir) == dir + if dir == [SEP] then "" else [SEP]
  {
    var es :| AllPlain(es) && dir == Render(true, es);
    CleanAbsolute(es);
    RootIsEmpty(es);
  }

  lemma StaysAbsolute(dir: string, name: string)
    requires Absolute(dir) && Plain(name)
    ensures Absolute(dir + (if dir == [SEP] then "" else [SEP]) + name)
  {
    var es :| AllPlain(es) && dir == Render(true, es);
    RootIsEmpty(es);
    RenderPush(true, es, name);
    assert AllPlain(es + [name]);
  }

  lemma JoinAbsolute(dir: string, name: string)
    requires Absolute(dir) && Plain(name)
    ensures Absolute(Join(dir, name)) && Join(dir, name) == dir + (if dir == [SEP] then "" else [SEP]) + name
  {
    JoinPlain(dir, name);
    PlaceAbsolute(dir);
    StaysAbsolute(dir, name);
  }
}
