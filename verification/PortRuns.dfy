/**
 The tunnel ports of the joebot server as a state machine: services and clients reserve and
 release ports from one manager while any number of threads create tunnels at once.
 */
module PortRuns {
  import opened Wrappers

  datatype Tunnel = Tunnel(clientPort: int, serverPort: int, gostPort: int)

  /** How far a call with a reserved port has come: its request goes out, and the client's answer comes in. */
  datatype Stage = Asking | Asked | Answered

  /** A call of CreateTunnel: waiting for the lock of its service, then inside it, then over. */
  datatype Thread =
    | Waiting(service: nat, client: nat, port: int)
    | Checked(service: nat, client: nat, port: int)
    | Reserved(service: nat, client: nat, port: int, tunnel: Tunnel, stage: Stage)
    | Done

  /** A tunnel service and whether it still holds its port. */
  datatype Service = Service(port: int, up: bool)

  /** A client: whether its session is open, and the tunnels recorded for it. */
  datatype Peer = Peer(open: bool, tunnels: seq<Tunnel>)

  datatype State = State(inUse: set<int>, allowed: set<int>, running: bool, services: seq<Service>, next: nat,
                         clients: seq<Peer>, threads: seq<Thread>)

  /**
   What happens to the server. Services start before any client comes, and one goes down only after the
   server has halted, which takes all of them out of the rotation. Stopping a client closes its session
   and then clears its tunnels; the session may also close by itself.
   */
  datatype Step =
    | AddService(p: int) | Halt | ServiceDown(i: nat) | AddClient
    | StartTunnel(c: nat, port: int) | Check(t: nat) | Reserve(t: nat, p: int) | ReserveFails(t: nat)
    | Request(t: nat) | Answer(t: nat) | Fail(t: nat) | Commit(t: nat) | Close(c: nat) | Clear(c: nat)

  /** The call that takes the step. */
  function Caller(step: Step): Option<nat>
  {
    match step
    case Check(t) => Some(t)
    case Reserve(t, _) => Some(t)
    case ReserveFails(t) => Some(t)
    case Request(t) => Some(t)
    case Answer(t) => Some(t)
    case Fail(t) => Some(t)
    case Commit(t) => Some(t)
    case _ => None
  }

  function Init(allowed: set<int>): State { State({}, allowed, true, [], 0, [], []) }

  /** The ports a server may use; allowing none or port 0 allows any. */
  predicate Admits(allowed: set<int>, p: int) { 0 < p < 0x1_0000 && (allowed == {} || 0 in allowed || p in allowed) }

  /** The ports ReservePort may hand out. */
  predicate MayReserve(inUse: set<int>, allowed: set<int>, p: int) { Admits(allowed, p) && p !in inUse }

  /** The first tunnel to a client port, or |tunnels|. */
  function FindTunnel(tunnels: seq<Tunnel>, port: int): (i: nat)
    ensures i <= |tunnels| && (i < |tunnels| ==> tunnels[i].clientPort == port)
    ensures forall j :: 0 <= j < i ==> tunnels[j].clientPort != port
  {
    if tunnels == [] || tunnels[0].clientPort == port then 0 else 1 + FindTunnel(tunnels[1..], port)
  }

  predicate Tunnelled(tunnels: seq<Tunnel>, port: int) { FindTunnel(tunnels, port) < |tunnels| }

  function ServerPorts(tunnels: seq<Tunnel>): set<int> { set i | 0 <= i < |tunnels| :: tunnels[i].serverPort }

  predicate Inside(th: Thread) { th.Checked? || th.Reserved? }

  predicate LockFree(s: State, service: nat)
  {
    forall t :: 0 <= t < |s.threads| && Inside(s.threads[t]) ==> s.threads[t].service != service
  }

  /** The session of the call's client is open. */
  predicate Connected(s: State, th: Thread) { !th.Done? && th.client < |s.clients| && s.clients[th.client].open }

  predicate Enabled(s: State, step: Step)
  {
    match step
    case AddService(p) => s.running && s.clients == [] && MayReserve(s.inUse, s.allowed, p)
    case Halt => s.running
    case ServiceDown(i) => !s.running && i < |s.services| && s.services[i].up
    case AddClient => true
    case StartTunnel(c, _) => s.running && c < |s.clients| && s.next < |s.services|
    case Check(t) => t < |s.threads| && s.threads[t].Waiting? && s.threads[t].client < |s.clients|
        && LockFree(s, s.threads[t].service)
    case Reserve(t, p) => t < |s.threads| && s.threads[t].Checked? && s.threads[t].service < |s.services|
        && MayReserve(s.inUse, s.allowed, p)
    case ReserveFails(t) => t < |s.threads| && s.threads[t].Checked?
    case Request(t) => t < |s.threads| && At(s.threads[t], Asking) && Connected(s, s.threads[t])
    case Answer(t) => t < |s.threads| && At(s.threads[t], Asked) && Connected(s, s.threads[t])
    case Fail(t) => t < |s.threads| && (At(s.threads[t], Asking) || At(s.threads[t], Asked))
    case Commit(t) => t < |s.threads| && At(s.threads[t], Answered) && s.threads[t].client < |s.clients|
    case Close(c) => c < |s.clients|
    case Clear(c) => c < |s.clients| && !s.clients[c].open
  }

  predicate At(th: Thread, stage: Stage) { th.Reserved? && th.stage == stage }

  function Apply(s: State, step: Step): State
    requires Enabled(s, step)
  {
    match step
    case AddService(p) => s.(inUse := s.inUse + {p}, services := s.services + [Service(p, true)])
    case ServiceDown(i) =>
      s.(inUse := s.inUse - {s.services[i].port}, services := s.services[i := s.services[i].(up := false)])
    case Halt => s.(running := false)
    case AddClient => s.(clients := s.clients + [Peer(true, [])])
    case StartTunnel(c, port) =>
      s.(threads := s.threads + [Waiting(s.next, c, port)], next := TurnAfter(s))
    case Check(t) =>
      var th := s.threads[t];
      Becomes(s, t, if Tunnelled(s.clients[th.client].tunnels, th.port) then Done
          else Checked(th.service, th.client, th.port))
    case Reserve(t, p) =>
      var th := s.threads[t];
      Becomes(s.(inUse := s.inUse + {p}), t,
              Reserved(th.service, th.client, th.port, Tunnel(th.port, p, s.services[th.service].port), Asking))
    case ReserveFails(t) => Becomes(s, t, Done)
    case Request(t) => Becomes(s, t, s.threads[t].(stage := Asked))
    case Answer(t) => Becomes(s, t, s.threads[t].(stage := Answered))
    case Fail(t) => Becomes(s.(inUse := s.inUse - {s.threads[t].tunnel.serverPort}), t, Done)
    case Commit(t) =>
      var th := s.threads[t];
      Becomes(s.(clients := s.clients[th.client := Records(s.clients[th.client], th.tunnel)]), t, Done)
    case Close(c) => s.(clients := s.clients[c := s.clients[c].(open := false)])
    case Clear(c) =>
      s.(inUse := s.inUse - ServerPorts(s.clients[c].tunnels), clients := s.clients[c := s.clients[c].(tunnels := [])])
  }

  function Records(peer: Peer, tunnel: Tunnel): Peer { peer.(tunnels := peer.tunnels + [tunnel]) }

  function Becomes(s: State, t: nat, th: Thread): State
    requires t < |s.threads|
  {
    s.(threads := s.threads[t := th])
  }

  /** The state after a run of steps, if every step was possible. */
  function After(s: State, run: seq<Step>): Option<State>
    decreases |run|
  {
    if run == [] then Some(s)
    else if Enabled(s, run[0]) then After(Apply(s, run[0]), run[1..])
    else None
  }

  /** Whoever holds a port: a service, a call that has reserved one, or a recorded tunnel. */
  datatype Owner = ByService(i: nat) | ByThread(t: nat) | ByTunnel(c: nat, k: nat)

  function Held(s: State, o: Owner): Option<int>
  {
    match o
    case ByService(i) => if i < |s.services| && s.services[i].up then Some(s.services[i].port) else None
    case ByThread(t) => if t < |s.threads| && s.threads[t].Reserved? then Some(s.threads[t].tunnel.serverPort) else None
    case ByTunnel(c, k) =>
      if c < |s.clients| && k < |s.clients[c].tunnels| then Some(s.clients[c].tunnels[k].serverPort) else None
  }

  ghost predicate IsHeld(s: State, p: int) { exists o :: Held(s, o) == Some(p) }

  /** Ports in use are held by exactly one owner each, and only they are held. */
  ghost predicate Owned(s: State)
  {
    && (forall p :: p in s.inUse <==> IsHeld(s, p))
    && (forall o, o' :: Held(s, o).Some? && Held(s, o) == Held(s, o') ==> o == o')
  }

  predicate Fits(s: State, th: Thread)
  {
    th.Done? || (th.service < |s.services| && th.client < |s.clients|
        && (th.Reserved? ==> th.tunnel.clientPort == th.port))
  }

  /** All services run while the server does, and the next to take a turn is one of them. */
  predicate Rotates(s: State)
  {
    (s.next == 0 || s.next < |s.services|) && (s.running ==> forall i :: 0 <= i < |s.services| ==> s.services[i].up)
  }

  predicate AllFit(s: State) { forall t :: 0 <= t < |s.threads| ==> Fits(s, s.threads[t]) }

  /** No two calls are inside one service. */
  predicate Apart(s: State)
  {
    forall t, u :: 0 <= t < u < |s.threads| && Inside(s.threads[t]) && Inside(s.threads[u])
                   ==> s.threads[t].service != s.threads[u].service
  }

  ghost predicate Inv(s: State) { Owned(s) && Rotates(s) && AllFit(s) && Apart(s) }

  lemma Takes(s: State, s': State, o: Owner, p: int)
    requires Owned(s) && p !in s.inUse && s'.inUse == s.inUse + {p} && Held(s, o) == None && Held(s', o) == Some(p)
    requires forall o' :: o' != o ==> Held(s', o') == Held(s, o')
    ensures Owned(s')
  {
    forall q
      ensures q in s'.inUse <==> IsHeld(s', q)
    {
      if q in s.inUse {
        var w :| Held(s, w) == Some(q);
        assert Held(s', w) == Some(q);
      }
      if IsHeld(s', q) && q != p {
        var w :| Held(s', w) == Some(q);
        assert Held(s, w) == Some(q);
        assert IsHeld(s, q);
      }
    }
    forall o1, o2 | Held(s', o1).Some? && Held(s', o1) == Held(s', o2)
      ensures o1 == o2
    {
      assert o1 != o ==> IsHeld(s, Held(s', o1).value);
      assert o2 != o ==> IsHeld(s, Held(s', o2).value);
    }
  }

  /** Owners let go of their ports, and all others keep theirs. */
  lemma Frees(s: State, s': State, gone: set<int>)
    requires Owned(s) && s'.inUse == s.inUse - gone
    requires forall o :: Held(s', o) == if Held(s, o).Some? && Held(s, o).value in gone then None else Held(s, o)
    ensures Owned(s')
  {
    forall q
      ensures q in s'.inUse <==> IsHeld(s', q)
    {
      if q in s'.inUse {
        var w :| Held(s, w) == Some(q);
        assert Held(s', w) == Some(q);
      }
      if IsHeld(s', q) {
        var w :| Held(s', w) == Some(q);
        assert Held(s, w) == Some(q);
        assert IsHeld(s, q);
      }
    }
  }

  lemma Moves(s: State, s': State, a: Owner, b: Owner)
    requires Owned(s) && s'.inUse == s.inUse && a != b
    requires Held(s, b) == None && Held(s', a) == None && Held(s', b) == Held(s, a)
    requires forall o :: o != a && o != b ==> Held(s', o) == Held(s, o)
    ensures Owned(s')
  {
    forall q
      ensures q in s'.inUse <==> IsHeld(s', q)
    {
      if q in s.inUse {
        var w :| Held(s, w) == Some(q);
        assert Held(s', if w == a then b else w) == Some(q);
      }
      if IsHeld(s', q) {
        var w :| Held(s', w) == Some(q);
        assert Held(s, if w == b then a else w) == Some(q);
        assert IsHeld(s, q);
      }
    }
  }

  lemma Stays(s: State, s': State)
    requires Owned(s) && s'.inUse == s.inUse && forall o :: Held(s', o) == Held(s, o)
    ensures Owned(s')
  {
    forall q
      ensures q in s'.inUse <==> IsHeld(s', q)
    {
      assert forall o :: Held(s', o) == Some(q) <==> Held(s, o) == Some(q);
    }
  }

  /** The ports that owners hold besides one are not its own. */
  lemma OthersDiffer(s: State, o: Owner, w: Owner)
    requires Owned(s) && Held(s, o).Some? && w != o
    ensures Held(s, w) != Held(s, o)
  {
  }

  lemma KeepsOwned(s: State, step: Step)
    requires Inv(s) && Enabled(s, step)
    ensures Owned(Apply(s, step))
  {
    var s' := Apply(s, step);
    match step
    case AddService(p) => Takes(s, s', ByService(|s.services|), p);
    case ServiceDown(i) => FreesOne(s, s', ByService(i));
    case Clear(c) => ClearFrees(s, c);
    case _ =>
      if Caller(step).Some? {
        CallKeepsOwned(s, step);
      } else {
        Stays(s, s');
      }
  }

  lemma CallKeepsOwned(s: State, step: Step)
    requires Inv(s) && Enabled(s, step)
    requires Caller(step).Some?
    ensures Owned(Apply(s, step))
  {
    var s' := Apply(s, step);
    match step
    case Reserve(t, p) => Takes(s, s', ByThread(t), p);
    case Fail(t) => FreesOne(s, s', ByThread(t));
    case Commit(t) => CommitKeepsOwned(s, t);
    case _ => Stays(s, s');
  }

  lemma CommitKeepsOwned(s: State, t: nat)
    requires Owned(s) && Enabled(s, Commit(t))
    ensures Owned(Apply(s, Commit(t)))
  {
    var c := s.threads[t].client;
    Moves(s, Apply(s, Commit(t)), ByThread(t), ByTunnel(c, |s.clients[c].tunnels|));
  }

  lemma FreesOne(s: State, s': State, o: Owner)
    requires Owned(s) && Held(s, o).Some? && s'.inUse == s.inUse - {Held(s, o).value} && Held(s', o) == None
    requires forall w :: w != o ==> Held(s', w) == Held(s, w)
    ensures Owned(s')
  {
    forall w
      ensures Held(s', w) == if Held(s, w).Some? && Held(s, w).value in {Held(s, o).value} then None else Held(s, w)
    {
      if w != o {
        OthersDiffer(s, o, w);
      }
    }
    Frees(s, s', {Held(s, o).value});
  }

  /** Stopping a client frees the ports of its tunnels, and no port of another owner. */
  lemma ClearFrees(s: State, c: nat)
    requires Owned(s) && Enabled(s, Clear(c))
    ensures Owned(Apply(s, Clear(c)))
    ensures forall o :: Held(Apply(s, Clear(c)), o) == if o.ByTunnel? && o.c == c then None else Held(s, o)
  {
    var s', tunnels := Apply(s, Clear(c)), s.clients[c].tunnels;
    var gone := ServerPorts(tunnels);
    forall w
      ensures Held(s', w) == if Held(s, w).Some? && Held(s, w).value in gone then None else Held(s, w)
    {
      if w.ByTunnel? && w.c == c {
        assert w.k < |tunnels| ==> tunnels[w.k].serverPort in gone;
      } else if Held(s, w).Some? && Held(s, w).value in gone {
        var k :| 0 <= k < |tunnels| && tunnels[k].serverPort == Held(s, w).value;
        OthersDiffer(s, ByTunnel(c, k), w);
      }
    }
    Frees(s, s', gone);
  }

  lemma KeepsFits(s: State, step: Step)
    requires Rotates(s) && AllFit(s) && Enabled(s, step)
    ensures Rotates(Apply(s, step)) && AllFit(Apply(s, step))
  {
  }

  lemma KeepsApart(s: State, step: Step)
    requires Apart(s) && Enabled(s, step)
    ensures Apart(Apply(s, step))
  {
    if Caller(step).Some? {
      var s', t := Apply(s, step), Caller(step).value;
      forall u: nat | u < |s.threads| && u != t && Inside(s.threads[u]) && Inside(s'.threads[t])
        ensures s.threads[u].service != s'.threads[t].service
      {
        assert s'.threads[t].service == s.threads[t].service;
      }
    }
  }

  lemma KeepsInv(s: State, step: Step)
    requires Inv(s) && Enabled(s, step)
    ensures Inv(Apply(s, step))
  {
    KeepsOwned(s, step);
    KeepsFits(s, step);
    KeepsApart(s, step);
  }

  /** In every state of every run each port in use has one owner: a service, a pending call or a tunnel. */
  lemma {:induction false} RunsKeepInv(s: State, run: seq<Step>)
    requires Inv(s)
    ensures After(s, run).Some? ==> Inv(After(s, run).value)
    decreases |run|
  {
    if run != [] && Enabled(s, run[0]) {
      KeepsInv(s, run[0]);
      RunsKeepInv(Apply(s, run[0]), run[1..]);
    }
  }

  lemma StartsOwned(allowed: set<int>)
    ensures Inv(Init(allowed))
  {
    var s := Init(allowed);
    assert forall o :: Held(s, o) == None;
    assert forall p :: !IsHeld(s, p);
  }

  /** Live tunnels, of one client or of two, never share a port of the server, nor a port a service or a call holds. */
  lemma NoSharedPort(allowed: set<int>, run: seq<Step>, s: State, c: nat, i: nat, o: Owner)
    requires After(Init(allowed), run) == Some(s)
    requires c < |s.clients| && i < |s.clients[c].tunnels| && o != ByTunnel(c, i)
    ensures var p := s.clients[c].tunnels[i].serverPort; p in s.inUse && Held(s, o) != Some(p)
  {
    StartsOwned(allowed);
    RunsKeepInv(Init(allowed), run);
    assert Held(s, ByTunnel(c, i)) == Some(s.clients[c].tunnels[i].serverPort);
    assert IsHeld(s, s.clients[c].tunnels[i].serverPort);
  }

  /** The same state but that the call t has not reserved its port. */
  function Unreserved(s: State, t: nat): State
    requires t < |s.threads| && s.threads[t].Reserved?
  {
    var th := s.threads[t];
    Becomes(s.(inUse := s.inUse - {th.tunnel.serverPort}), t, Checked(th.service, th.client, th.port))
  }

  /** Everything a step of anyone else does, it does without the reservation too. */
  ghost predicate Ignores(s: State, t: nat, step: Step)
    requires t < |s.threads| && s.threads[t].Reserved? && Enabled(s, step)
  {
    var s' := Apply(s, step);
    && t < |s'.threads| && s'.threads[t] == s.threads[t]
    && Enabled(Unreserved(s, t), step) && Apply(Unreserved(s, t), step) == Unreserved(s', t)
  }

  /** A step of anyone else does not depend on the reservation, and keeps it. */
  lemma OthersIgnore(s: State, t: nat, step: Step)
    requires Inv(s) && t < |s.threads| && s.threads[t].Reserved? && Enabled(s, step) && Caller(step) != Some(t)
    ensures Ignores(s, t, step)
  {
    var p := s.threads[t].tunnel.serverPort;
    assert Held(s, ByThread(t)) == Some(p) && IsHeld(s, p);
    if Caller(step).Some? {
      CallersIgnore(s, t, step, p);
    } else {
      ServersIgnore(s, t, step, p);
    }
  }

  lemma ServersIgnore(s: State, t: nat, step: Step, p: int)
    requires Inv(s) && t < |s.threads| && s.threads[t].Reserved? && Enabled(s, step) && Caller(step).None?
    requires p == s.threads[t].tunnel.serverPort && Held(s, ByThread(t)) == Some(p) && p in s.inUse
    ensures Ignores(s, t, step)
  {
    match step
    case ServiceDown(i) => OthersDiffer(s, ByThread(t), ByService(i));
    case Clear(c) =>
      forall k | 0 <= k < |s.clients[c].tunnels|
        ensures s.clients[c].tunnels[k].serverPort != p
      {
        OthersDiffer(s, ByThread(t), ByTunnel(c, k));
      }
    case _ =>
  }

  lemma CallersIgnore(s: State, t: nat, step: Step, p: int)
    requires Inv(s) && t < |s.threads| && s.threads[t].Reserved? && Enabled(s, step)
    requires Caller(step).Some? && Caller(step).value != t
    requires p == s.threads[t].tunnel.serverPort && Held(s, ByThread(t)) == Some(p) && p in s.inUse
    ensures Ignores(s, t, step)
  {
    var th, u := s.threads[t], Caller(step).value;
    assert Apply(s, step).threads == s.threads[u := Apply(s, step).threads[u]];
    Commutes(s.threads, t, u, Checked(th.service, th.client, th.port), Apply(s, step).threads[u]);
    match step
    case Check(_) =>
      assert LockFree(Unreserved(s, t), s.threads[u].service);
    case Fail(_) =>
      OthersDiffer(s, ByThread(t), ByThread(u));
      assert Apply(Unreserved(s, t), step).inUse == Unreserved(Apply(s, step), t).inUse;
    case Reserve(_, _) =>
      assert Apply(Unreserved(s, t), step).inUse == Unreserved(Apply(s, step), t).inUse;
    case Commit(_) =>
      assert Apply(Unreserved(s, t), step).clients == Unreserved(Apply(s, step), t).clients;
    case _ =>
  }

  lemma Commutes<T>(s: seq<T>, i: nat, j: nat, x: T, y: T)
    requires i < |s| && j < |s| && i != j
    ensures s[i := x][j := y] == s[j := y][i := x]
  {
  }

  /** The steps of the run that others take. */
  function Without(run: seq<Step>, t: nat): seq<Step>
  {
    if run == [] then []
    else (if Caller(run[0]) == Some(t) then [] else [run[0]]) + Without(run[1..], t)
  }

  /** A call that is over stays over. */
  lemma {:induction false} DoneStays(s: State, t: nat, run: seq<Step>)
    requires t < |s.threads| && s.threads[t].Done?
    ensures After(s, run).Some? ==> t < |After(s, run).value.threads| && After(s, run).value.threads[t].Done?
    decreases |run|
  {
    if run != [] && Enabled(s, run[0]) {
      DoneStays(Apply(s, run[0]), t, run[1..]);
    }
  }

  /**
   A failed call leaves no trace: whatever the others did between its reservation and its
   failure they could have done without it, with the same result.
   */
  lemma {:induction false} FailureLeavesNoTrace(s: State, t: nat, run: seq<Step>)
    requires Inv(s) && t < |s.threads| && s.threads[t].Reserved?
    requires After(s, run).Some? && Enabled(After(s, run).value, Fail(t))
    ensures var r := After(Unreserved(s, t), Without(run, t));
            && r.Some? && Enabled(r.value, ReserveFails(t))
            && Apply(After(s, run).value, Fail(t)) == Apply(r.value, ReserveFails(t))
    decreases |run|
  {
    if run == [] {
      EndsAlike(s, t);
    } else {
      var s' := Apply(s, run[0]);
      KeepsInv(s, run[0]);
      if Caller(run[0]) != Some(t) {
        OthersIgnore(s, t, run[0]);
        FailureLeavesNoTrace(s', t, run[1..]);
        Then(Unreserved(s, t), run[0], Without(run[1..], t));
      } else if s'.threads[t].Done? {
        DoneStays(s', t, run[1..]);
        assert false;
      } else {
        OwnStep(s, t, run[0]);
        FailureLeavesNoTrace(s', t, run[1..]);
        assert Without(run, t) == Without(run[1..], t);
      }
    }
  }

  lemma EndsAlike(s: State, t: nat)
    requires t < |s.threads| && Enabled(s, Fail(t))
    ensures Enabled(Unreserved(s, t), ReserveFails(t))
    ensures Apply(s, Fail(t)) == Apply(Unreserved(s, t), ReserveFails(t))
  {
    assert Apply(s, Fail(t)).threads == Apply(Unreserved(s, t), ReserveFails(t)).threads;
  }

  /** A message of the call changes nothing but how far it has come. */
  lemma OwnStep(s: State, t: nat, step: Step)
    requires t < |s.threads| && s.threads[t].Reserved?
    requires Enabled(s, step) && Caller(step) == Some(t) && !Apply(s, step).threads[t].Done?
    ensures var s' := Apply(s, step);
            t < |s'.threads| && s'.threads[t].Reserved? && Unreserved(s', t) == Unreserved(s, t)
  {
    assert step.Request? || step.Answer?;
    assert Unreserved(Apply(s, step), t).threads == Unreserved(s, t).threads;
  }

  /** The client has answered the call, which will now record its tunnel. */
  predicate AnsweredFor(s: State, t: nat, c: nat)
  {
    t < |s.threads| && At(s.threads[t], Answered) && s.threads[t].client == c
  }

  /** The client's session is closed, and no call has an answer of it that is not yet acted on. */
  ghost predicate Severed(s: State, c: nat)
  {
    && c < |s.clients| && !s.clients[c].open
    && forall t: nat :: t < |s.threads| ==> !AnsweredFor(s, t, c)
  }

  /** Such a client gets no tunnel any more, whatever calls for it are under way or begin. */
  lemma {:induction false} SeveredGrowsNot(s: State, c: nat, run: seq<Step>)
    requires Severed(s, c) && After(s, run).Some?
    ensures var s' := After(s, run).value;
            Severed(s', c) && (s.clients[c].tunnels == [] ==> s'.clients[c].tunnels == [])
    decreases |run|
  {
    if run != [] {
      SeveredStep(s, c, run[0]);
      SeveredGrowsNot(Apply(s, run[0]), c, run[1..]);
    }
  }

  lemma SeveredStep(s: State, c: nat, step: Step)
    requires Severed(s, c) && Enabled(s, step)
    ensures var s' := Apply(s, step);
            Severed(s', c) && (s.clients[c].tunnels == [] ==> s'.clients[c].tunnels == [])
  {
    var s' := Apply(s, step);
    forall t: nat | t < |s'.threads|
      ensures !AnsweredFor(s', t, c)
    {
      assert t < |s.threads| ==> !AnsweredFor(s, t, c);
    }
    if step.Commit? {
      assert !AnsweredFor(s, step.t, c);
    }
  }

  /**
   A stopped client whose answers are all acted on never holds a port again, and stopping it again changes
   nothing.
   */
  lemma StoppedStaysEmpty(s: State, c: nat, run: seq<Step>)
    requires Severed(s, c) && s.clients[c].tunnels == [] && After(s, run).Some?
    ensures var s' := After(s, run).value;
            && c < |s'.clients| && s'.clients[c].tunnels == []
            && Enabled(s', Clear(c)) && Apply(s', Clear(c)) == s'
  {
    SeveredGrowsNot(s, c, run);
    ClearNothing(After(s, run).value, c);
  }

  lemma ClearNothing(s: State, c: nat)
    requires Enabled(s, Clear(c)) && s.clients[c].tunnels == []
    ensures Apply(s, Clear(c)) == s
  {
    assert ServerPorts([]) == {};
    assert s.clients[c := s.clients[c].(tunnels := [])] == s.clients;
  }

  /** Stopping a client twice in a row is stopping it once. */
  lemma StopTwice(s: State, c: nat)
    requires c < |s.clients|
    ensures var r := After(s, [Close(c), Clear(c)]);
            && r.Some? && c < |r.value.clients| && r.value.clients[c] == Peer(false, [])
            && After(r.value, [Close(c), Clear(c)]) == r
  {
    var s1 := Apply(s, Close(c));
    var s2 := Apply(s1, Clear(c));
    Then(s, Close(c), [Clear(c)]);
    Then(s1, Clear(c), []);
    assert Apply(s2, Close(c)).clients == s2.clients;
    ClearNothing(s2, c);
    Then(s2, Close(c), [Clear(c)]);
    Then(s2, Clear(c), []);
  }

  /** A run in which the client's tunnels are cleared, not cleared again, and yet it has one at the end. */
  ghost predicate Leaks(s: State, c: nat, before: seq<Step>, after: seq<Step>)
  {
    var r := After(s, before + ([Clear(c)] + after));
    Clear(c) !in after && r.Some? && c < |r.value.clients| && r.value.clients[c].tunnels != []
  }

  /**
   Once its session is closed a client that is stopped can keep a tunnel, whose port nobody releases,
   exactly when a call has its answer and has not yet recorded the tunnel.
   */
  lemma LeaksExactly(s: State, c: nat)
    requires c < |s.clients| && !s.clients[c].open
    ensures (exists before, after :: Leaks(s, c, before, after)) <==> exists t: nat :: AnsweredFor(s, t, c)
  {
    if t: nat :| AnsweredFor(s, t, c) {
      Then(s, Clear(c), [Commit(t)]);
      Then(Apply(s, Clear(c)), Commit(t), []);
      assert [] + ([Clear(c)] + [Commit(t)]) == [Clear(c)] + [Commit(t)];
      assert Leaks(s, c, [], [Commit(t)]);
    } else {
      forall before, after
        ensures !Leaks(s, c, before, after)
      {
        if Leaks(s, c, before, after) {
          RunsOn(s, before, [Clear(c)] + after);
          SeveredGrowsNot(s, c, before);
          var s' := After(s, before).value;
          SeveredStep(s', c, Clear(c));
          Then(s', Clear(c), after);
          SeveredGrowsNot(Apply(s', Clear(c)), c, after);
        }
      }
    }
  }

  lemma Then(s: State, step: Step, run: seq<Step>)
    requires Enabled(s, step)
    ensures After(s, [step] + run) == After(Apply(s, step), run)
  {
    assert ([step] + run)[1..] == run;
  }

  predicate SamePort(tunnels: seq<Tunnel>, i: int, j: int)
  {
    0 <= i < j < |tunnels| && tunnels[i].clientPort == tunnels[j].clientPort
  }

  ghost predicate PortTwice(s: State)
  {
    exists c, i, j :: 0 <= c < |s.clients| && SamePort(s.clients[c].tunnels, i, j)
  }

  /** Calls inside their services are about to tunnel ports that are not tunnelled yet. */
  ghost predicate StillFree(s: State)
  {
    forall t :: 0 <= t < |s.threads| && Inside(s.threads[t]) && s.threads[t].client < |s.clients|
      ==> !Tunnelled(s.clients[s.threads[t].client].tunnels, s.threads[t].port)
  }

  lemma NotTunnelled(tunnels: seq<Tunnel>, port: int)
    ensures Tunnelled(tunnels, port) <==> exists i :: 0 <= i < |tunnels| && tunnels[i].clientPort == port
  {
  }

  lemma KeepsSingle(s: State, step: Step)
    requires Inv(s) && Enabled(s, step) && !PortTwice(s) && StillFree(s)
    ensures !PortTwice(Apply(s, step))
  {
    var s' := Apply(s, step);
    forall c, i, j | 0 <= c < |s'.clients|
      ensures !SamePort(s'.clients[c].tunnels, i, j)
    {
      if c < |s.clients| {
        assert !SamePort(s.clients[c].tunnels, i, j);
      }
      if step.Commit? && c == s.threads[step.t].client {
        NotTunnelled(s.clients[c].tunnels, s.threads[step.t].port);
      }
    }
  }

  lemma KeepsFree(s: State, step: Step)
    requires Inv(s) && Enabled(s, step) && StillFree(s) && |s.services| <= 1
    ensures StillFree(Apply(s, step))
  {
    var s' := Apply(s, step);
    if step.Check? {
      forall u: nat | u < |s.threads| && u != step.t
        ensures s'.threads[u] == s.threads[u]
      {
      }
    }
    if step.Commit? {
      forall u: nat | u < |s.threads|
        ensures Inside(s.threads[u]) ==> u == step.t
      {
        OnlyOneInside(s, step.t, u);
      }
    }
  }

  lemma OnlyOneInside(s: State, t: nat, u: nat)
    requires Inv(s) && |s.services| <= 1 && t < |s.threads| && u < |s.threads| && Inside(s.threads[t])
    ensures Inside(s.threads[u]) ==> u == t
  {
    assert Fits(s, s.threads[t]) && Fits(s, s.threads[u]);
  }

  lemma {:induction false} ServicesGrow(s: State, run: seq<Step>)
    ensures After(s, run).Some? ==> |s.services| <= |After(s, run).value.services|
    decreases |run|
  {
    if run != [] && Enabled(s, run[0]) {
      ServicesGrow(Apply(s, run[0]), run[1..]);
    }
  }

  /** With a single tunnel service no client ever has two tunnels to the same of its ports. */
  lemma {:induction false} OneServiceNeverTwice(s: State, run: seq<Step>)
    requires Inv(s) && !PortTwice(s) && StillFree(s)
    ensures After(s, run).Some? && |After(s, run).value.services| <= 1 ==> !PortTwice(After(s, run).value)
    decreases |run|
  {
    if run != [] && Enabled(s, run[0]) {
      KeepsInv(s, run[0]);
      ServicesGrow(Apply(s, run[0]), run[1..]);
      if |Apply(s, run[0]).services| <= 1 {
        KeepsSingle(s, run[0]);
        KeepsFree(s, run[0]);
        OneServiceNeverTwice(Apply(s, run[0]), run[1..]);
      }
    }
  }

  /** Two calls for the same port that get different services both go through. */
  function BothStart(c: nat, port: int): seq<Step> { [StartTunnel(c, port), StartTunnel(c, port)] }

  function WholeCall(t: nat, p: int): seq<Step> { [Reserve(t, p), Request(t), Answer(t), Commit(t)] }

  function TurnAfter(s: State): nat { if s.next + 1 >= |s.services| then 0 else s.next + 1 }

  /** The state in which two calls for a port of the client have begun. */
  function Started(s: State, c: nat, port: int): State
  {
    var s1 := s.(next := TurnAfter(s));
    s.(threads := [Waiting(s.next, c, port), Waiting(s1.next, c, port)], next := TurnAfter(s1))
  }

  lemma {:induction false} BothStarted(s: State, c: nat, port: int)
    requires s.running && s.threads == [] && s.next < |s.services| && c < |s.clients|
    ensures After(s, BothStart(c, port)) == Some(Started(s, c, port))
  {
    var step, w := StartTunnel(c, port), Waiting(s.next, c, port);
    var s1 := Apply(s, step);
    assert s1.threads == [w];
    var s2 := Apply(s1, step);
    assert s2.threads == [w] + [Waiting(s1.next, c, port)] == [w, Waiting(s1.next, c, port)];
    assert s2 == Started(s, c, port) && After(s2, []) == Some(s2);
    assert BothStart(c, port) == [step] + [step];
    Then(s, step, [step]);
    assert [step] == [step] + [];
    Then(s1, step, []);
  }

  lemma BothChecked(s: State, c: nat, port: int)
    requires |s.services| >= 2 && s.next < |s.services| && c < |s.clients| && s.clients[c].tunnels == []
    ensures var r := After(Started(s, c, port), [Check(0), Check(1)]);
            r == Some(Started(s, c, port).(threads := [Checked(s.next, c, port), Checked(TurnAfter(s), c, port)]))
  {
    var s2 := Started(s, c, port);
    var s3 := Apply(s2, Check(0));
    assert s3.threads == [Checked(s.next, c, port), Waiting(TurnAfter(s), c, port)];
    var s4 := Apply(s3, Check(1));
    assert s4.threads == [Checked(s.next, c, port), Checked(TurnAfter(s), c, port)];
    Then(s2, Check(0), [Check(1)]);
    Then(s3, Check(1), []);
  }

  /** The state in which the call t has recorded a tunnel with port p. */
  function Recorded(s: State, t: nat, p: int): State
    requires t < |s.threads| && s.threads[t].Checked? && Fits(s, s.threads[t])
  {
    var th := s.threads[t];
    var tunnel := Tunnel(th.port, p, s.services[th.service].port);
    s.(inUse := s.inUse + {p}, clients := s.clients[th.client := Records(s.clients[th.client], tunnel)],
       threads := s.threads[t := Done])
  }

  /** A call that gets a port and an answer records its tunnel. */
  lemma {:induction false} CallCommits(s: State, t: nat, p: int)
    requires t < |s.threads| && s.threads[t].Checked? && Fits(s, s.threads[t]) && Connected(s, s.threads[t])
    requires MayReserve(s.inUse, s.allowed, p)
    ensures After(s, WholeCall(t, p)) == Some(Recorded(s, t, p))
  {
    var run := WholeCall(t, p);
    var s1 := Apply(s, run[0]);
    var s2 := Apply(s1, run[1]);
    var s3 := Apply(s2, run[2]);
    var s4 := Apply(s3, run[3]);
    assert s4.threads == s.threads[t := Done];
    Then(s, run[0], run[1..]);
    Then(s1, run[1], run[2..]);
    Then(s2, run[2], run[3..]);
    Then(s3, run[3], []);
  }

  lemma BothCommitted(s: State, c: nat, port: int, p: int, q: int)
    requires |s.threads| == 2 && (forall t :: 0 <= t < 2 ==> s.threads[t].Checked? && Fits(s, s.threads[t]))
    requires forall t :: 0 <= t < 2 ==> s.threads[t].client == c && s.threads[t].port == port
    requires c < |s.clients| && s.clients[c] == Peer(true, [])
    requires MayReserve(s.inUse, s.allowed, p) && MayReserve(s.inUse, s.allowed, q) && p != q
    ensures var r := After(s, WholeCall(0, p) + WholeCall(1, q));
            r.Some? && PortTwice(r.value) && r.value.services == s.services && r.value.running == s.running
  {
    CallCommits(s, 0, p);
    var s1 := Recorded(s, 0, p);
    CallCommits(s1, 1, q);
    RunsOn(s, WholeCall(0, p), WholeCall(1, q));
    var s2 := Recorded(s1, 1, q);
    assert SamePort(s2.clients[c].tunnels, 0, 1);
  }

  lemma TwoServicesTunnelTwice(s: State, c: nat, port: int, p: int, q: int)
    requires s.running && s.threads == [] && |s.services| >= 2 && s.next < |s.services|
    requires c < |s.clients| && s.clients[c] == Peer(true, [])
    requires MayReserve(s.inUse, s.allowed, p) && MayReserve(s.inUse, s.allowed, q) && p != q
    ensures var r := After(s, BothStart(c, port) + ([Check(0), Check(1)] + (WholeCall(0, p) + WholeCall(1, q))));
            r.Some? && PortTwice(r.value) && |r.value.services| == |s.services| && r.value.running
  {
    var s2 := Started(s, c, port);
    BothStarted(s, c, port);
    BothChecked(s, c, port);
    BothCommitted(After(s2, [Check(0), Check(1)]).value, c, port, p, q);
    RunsOn(s2, [Check(0), Check(1)], WholeCall(0, p) + WholeCall(1, q));
    RunsOn(s, BothStart(c, port), [Check(0), Check(1)] + (WholeCall(0, p) + WholeCall(1, q)));
  }

  /** A call that no other interrupts, up to the tunnel it records, its failure, or the tunnel it finds. */
  lemma UninterruptedCall(s: State, c: nat, port: int, p: int)
    requires Inv(s) && Enabled(s, StartTunnel(c, port)) && LockFree(s, s.next) && MayReserve(s.inUse, s.allowed, p)
    ensures var t := |s.threads|;
            var found := After(s, [StartTunnel(c, port), Check(t)]);
            && found.Some? && found.value.inUse == s.inUse && found.value.clients == s.clients
            && t < |found.value.threads| && (Tunnelled(s.clients[c].tunnels, port) <==> found.value.threads[t] == Done)
            && (!Tunnelled(s.clients[c].tunnels, port) ==>
                  && var failed := After(found.value, [Reserve(t, p), Fail(t)]);
                  && failed.Some? && failed.value.inUse == s.inUse && failed.value.clients == s.clients
                  && (s.clients[c].open ==>
                        && var made := After(found.value, WholeCall(t, p));
                        && var tunnel := Tunnel(port, p, s.services[s.next].port);
                        && made.Some? && made.value.inUse == s.inUse + {p}
                        && made.value.clients == s.clients[c := Records(s.clients[c], tunnel)]))
  {
    var t := |s.threads|;
    var s1 := Apply(s, StartTunnel(c, port));
    assert LockFree(s1, s.next);
    var s2 := Apply(s1, Check(t));
    Then(s, StartTunnel(c, port), [Check(t)]);
    Then(s1, Check(t), []);
    if !Tunnelled(s.clients[c].tunnels, port) {
      CallFails(s2, t, p);
      if s.clients[c].open {
        CallCommits(s2, t, p);
      }
    }
  }

  /** A call whose request or answer fails gives its port back. */
  lemma CallFails(s: State, t: nat, p: int)
    requires t < |s.threads| && s.threads[t].Checked? && Fits(s, s.threads[t]) && MayReserve(s.inUse, s.allowed, p)
    ensures After(s, [Reserve(t, p), Fail(t)]) == Some(Becomes(s, t, Done))
  {
    var s' := Apply(s, Reserve(t, p));
    Then(s, Reserve(t, p), [Fail(t)]);
    Then(s', Fail(t), []);
    assert Apply(s', Fail(t)).inUse == s.inUse;
    assert Apply(s', Fail(t)).threads == s.threads[t := Done];
  }

  /** A server with n services and no client yet, where the free ports are in nobody's use. */
  ghost predicate Serves(s: State, allowed: set<int>, n: nat, free: set<int>)
  {
    && s.allowed == allowed && s.running && |s.services| == n && s.clients == [] && s.threads == [] && s.next == 0
    && s.inUse !! free
  }

  predicate AllAdmitted(allowed: set<int>, ports: set<int>) { forall p :: p in ports ==> Admits(allowed, p) }

  lemma AnyOf(ports: set<int>) returns (p: int)
    requires |ports| > 0
    ensures p in ports
  {
    assert exists q :: q in ports by {
      assert (forall q :: q !in ports) ==> ports == {};
    }
    p :| p in ports;
  }

  /** With n ports more than are to stay free, n services can be started. */
  lemma {:induction false} Starts(allowed: set<int>, n: nat, ports: set<int>)
    returns (run: seq<Step>, s: State, free: set<int>)
    requires |ports| >= n && AllAdmitted(allowed, ports)
    ensures After(Init(allowed), run) == Some(s) && Serves(s, allowed, n, free)
    ensures free <= ports && |free| == |ports| - n
  {
    if n == 0 {
      run, s, free := [], Init(allowed), ports;
    } else {
      run, s, free := Starts(allowed, n - 1, ports);
      var p := AnyOf(free);
      RunsOn(Init(allowed), run, [AddService(p)]);
      Then(s, AddService(p), []);
      run, s, free := run + [AddService(p)], Apply(s, AddService(p)), free - {p};
    }
  }

  lemma {:induction false} RunsOn(s: State, run: seq<Step>, more: seq<Step>)
    ensures After(s, run + more) == if After(s, run).Some? then After(After(s, run).value, more) else None
    decreases |run|
  {
    if run == [] {
      assert run + more == more;
    } else {
      assert (run + more)[1..] == run[1..] + more;
      if Enabled(s, run[0]) {
        RunsOn(Apply(s, run[0]), run[1..], more);
      }
    }
  }

  /** The run leaves a server with n services running, and a client port that is tunnelled twice. */
  ghost predicate TwiceAfter(allowed: set<int>, run: seq<Step>, n: nat)
  {
    var r := After(Init(allowed), run);
    r.Some? && r.value.running && |r.value.services| == n && PortTwice(r.value)
  }

  /** That many ports may be used. */
  ghost predicate Enough(allowed: set<int>, k: nat)
  {
    exists ports :: |ports| == k && AllAdmitted(allowed, ports)
  }

  lemma {:induction false} OnlyAdmitted(s: State, run: seq<Step>)
    requires forall p :: p in s.inUse ==> Admits(s.allowed, p)
    ensures After(s, run).Some? ==>
              var s' := After(s, run).value;
              s'.allowed == s.allowed && forall p :: p in s'.inUse ==> Admits(s.allowed, p)
    decreases |run|
  {
    if run != [] && Enabled(s, run[0]) {
      OnlyAdmitted(Apply(s, run[0]), run[1..]);
    }
  }

  /** The ports of the first k services, which are as many while the server runs. */
  lemma {:induction false} ServicePorts(s: State, k: nat) returns (ports: set<int>)
    requires Inv(s) && s.running && k <= |s.services|
    ensures |ports| == k && ports <= s.inUse
    ensures forall p :: p in ports <==> exists i: nat :: i < k && Held(s, ByService(i)) == Some(p)
  {
    if k == 0 {
      ports := {};
    } else {
      ports := ServicePorts(s, k - 1);
      var p := s.services[k - 1].port;
      assert Held(s, ByService(k - 1)) == Some(p) && IsHeld(s, p);
      if p in ports {
        var i: nat :| i < k - 1 && Held(s, ByService(i)) == Some(p);
        OthersDiffer(s, ByService(k - 1), ByService(i));
        assert false;
      }
      ports := ports + {p};
    }
  }

  /** The services and the two tunnels have a port each. */
  lemma TwiceTakesPorts(allowed: set<int>, run: seq<Step>, n: nat)
    requires TwiceAfter(allowed, run, n)
    ensures Enough(allowed, n + 2)
  {
    var s := After(Init(allowed), run).value;
    StartsOwned(allowed);
    RunsKeepInv(Init(allowed), run);
    OnlyAdmitted(Init(allowed), run);
    var c, i, j :| 0 <= c < |s.clients| && SamePort(s.clients[c].tunnels, i, j);
    var p, q := s.clients[c].tunnels[i].serverPort, s.clients[c].tunnels[j].serverPort;
    NoSharedPort(allowed, run, s, c, i, ByTunnel(c, j));
    NoSharedPort(allowed, run, s, c, j, ByTunnel(c, i));
    var ports := ServicePorts(s, n);
    forall k: nat
      ensures Held(s, ByService(k)) != Some(p) && Held(s, ByService(k)) != Some(q)
    {
      NoSharedPort(allowed, run, s, c, i, ByService(k));
      NoSharedPort(allowed, run, s, c, j, ByService(k));
    }
    assert |ports + {p} + {q}| == n + 2 && AllAdmitted(allowed, ports + {p} + {q});
  }

  lemma EnoughTunnelsTwice(allowed: set<int>, n: nat) returns (run: seq<Step>)
    requires n >= 2 && Enough(allowed, n + 2)
    ensures TwiceAfter(allowed, run, n)
  {
    var ports :| |ports| == n + 2 && AllAdmitted(allowed, ports);
    var start, s, free := Starts(allowed, n, ports);
    var p := AnyOf(free);
    assert |free - {p}| == 1;
    var q := AnyOf(free - {p});
    RunsOn(Init(allowed), start, [AddClient]);
    Then(s, AddClient, []);
    var both := BothStart(0, 22) + ([Check(0), Check(1)] + (WholeCall(0, p) + WholeCall(1, q)));
    TwoServicesTunnelTwice(Apply(s, AddClient), 0, 22, p, q);
    run := start + [AddClient] + both;
    RunsOn(Init(allowed), start + [AddClient], both);
  }

  /**
   CreateTunnel returns the tunnel a port of the client already has, but two calls at once can
   still tunnel it twice. They can exactly when there are two services to take turns and two
   ports left beside those of the services.
   */
  lemma TunnelsTwiceExactly(allowed: set<int>, n: nat)
    ensures (exists run :: TwiceAfter(allowed, run, n)) <==> n >= 2 && Enough(allowed, n + 2)
  {
    if n >= 2 && Enough(allowed, n + 2) {
      var run := EnoughTunnelsTwice(allowed, n);
    }
    forall run | TwiceAfter(allowed, run, n)
      ensures n >= 2 && Enough(allowed, n + 2)
    {
      StartsOwned(allowed);
      OneServiceNeverTwice(Init(allowed), run);
      TwiceTakesPorts(allowed, run, n);
    }
  }
}
