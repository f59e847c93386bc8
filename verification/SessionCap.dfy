/** The session cap of server.go is checked in one critical section and the
    session registered in another. How far that lets the sessions go over the
    cap, to the last one, and when they stay within it. */
module SessionCap {
  import opened Lifecycle

  predicate BetweenCheckAndAdd(pc: ConnPc) {
    pc == CapChecked || pc == AddLocked
  }

  // The connections that have passed the check and are not registered yet.
  function Window(conns: map<int, ConnPc>): set<int> {
    set c | c in conns && BetweenCheckAndAdd(conns[c])
  }

  // ---- Never more than this -----------------------------------------------------

  lemma WindowSet(conns: map<int, ConnPc>, c: int, pc: ConnPc)
    ensures Window(conns[c := pc]) == if BetweenCheckAndAdd(pc) then Window(conns) + {c} else Window(conns) - {c}
    ensures c in Window(conns) <==> c in conns && BetweenCheckAndAdd(conns[c])
  {
  }

  lemma WindowMoves(conns: map<int, ConnPc>, c: int, pc: ConnPc)
    ensures |Window(conns[c := pc])| == |Window(conns)|
              - (if c in conns && BetweenCheckAndAdd(conns[c]) then 1 else 0)
              + (if BetweenCheckAndAdd(pc) then 1 else 0)
  {
    hide Window, BetweenCheckAndAdd;
    WindowSet(conns, c, pc);
    OneLess(Window(conns), c);
    OneMore(Window(conns), c);
  }

  predicate WithinCap(s: State, k: Config, p: int) {
    s.clients + |Window(s.conns)| <= k.maxSessions - 1 + p
  }

  lemma ConnStaysWithin(s: State, k: Config, p: int, c: int, what: ConnStep)
    requires s.clients >= 0 && WithinCap(s, k, p) && ConnEnabled(s, c, what)
    requires |Window(DoConn(s, k, c, what).conns)| <= p
    ensures WithinCap(DoConn(s, k, c, what), k, p)
  {
    hide Window, ClearTimer, Arm, MayArm, NeedsMutex;
    WindowMoves(s.conns, c, NextPlace(s, k, what));
  }

  lemma AcceptStaysWithin(s: State, k: Config, p: int, a: AcceptStep)
    requires PlacesFit(s) && WithinCap(s, k, p) && AcceptEnabled(s, a)
    ensures WithinCap(DoAccept(s, a), k, p)
  {
    hide Window, ClearTimer;
    if a == Count {
      WindowMoves(s.conns, s.accept.c, Spawning);
    } else if a == Start {
      WindowMoves(s.conns, s.accept.c, Handshake);
    }
  }

  lemma StepStaysWithin(s: State, k: Config, p: int, step: Step)
    requires Inv(s, k) && WithinCap(s, k, p) && Enabled(s, step) && |Window(Do(s, k, step).conns)| <= p
    ensures WithinCap(Do(s, k, step), k, p)
  {
    hide Window, DoAccept, DoConn, WaitsRight, ShutdownFits, TimersFit, ClearTimer;
    ClientsInFlight(s);
    match step
    case Accept(a) => AcceptStaysWithin(s, k, p, a);
    case Conn(c, what) => ConnStaysWithin(s, k, p, c, what);
    case _ =>
  }

  // Where at most p connections at a time are between the check and their
  // registration, the sessions exceed the cap by p - 1 at most.
  lemma {:induction false} SessionsAreBounded(ss: seq<State>, steps: seq<Step>, k: Config, p: nat, n: nat)
    requires Run(ss, steps, k) && n < |ss| && k.maxSessions + p >= 1
    requires forall i :: 0 <= i <= n ==> |Window(ss[i].conns)| <= p
    ensures ss[n].clients + |Window(ss[n].conns)| <= k.maxSessions - 1 + p
  {
    hide Do, Enabled, Inv, Window;
    if n == 0 {
      EmptyWindow();
    } else {
      SessionsAreBounded(ss, steps, k, p, n - 1);
      EveryRunKeeps(ss, steps, k, n - 1);
      assert ss[n] == Do(ss[n - 1], k, steps[n - 1]);
      StepStaysWithin(ss[n - 1], k, p, steps[n - 1]);
    }
  }

  lemma EmptyWindow()
    ensures Window(map[]) == {}
  {
  }

  // The cap holds throughout a run in which no two connections overlap there.
  lemma TheCapHoldsWithoutOverlap(ss: seq<State>, steps: seq<Step>, k: Config, n: nat)
    requires Run(ss, steps, k) && n < |ss| && k.maxSessions >= 0
    requires forall i, c, d :: 0 <= i <= n && c in Window(ss[i].conns) && d in Window(ss[i].conns) ==> c == d
    ensures ss[n].clients <= k.maxSessions
  {
    hide Do, Enabled, Run, Window;
    forall i | 0 <= i <= n
      ensures |Window(ss[i].conns)| <= 1
    {
      AtMostOne(Window(ss[i].conns));
    }
    SessionsAreBounded(ss, steps, k, 1, n);
  }

  lemma AtMostOne(a: set<int>)
    requires forall c, d :: c in a && d in a ==> c == d
    ensures |a| <= 1
  {
    if a != {} {
      assert exists c :: c in a by { assert (forall c :: c !in a) ==> a == {}; }
      var c :| c in a;
      assert forall d :: d in a <==> d in {c};
      assert a == {c};
    }
  }

  // ---- And as many as this --------------------------------------------------------

  // The steps lead from s to t, with never more than p in the window.
  ghost predicate Path(s: State, k: Config, steps: seq<Step>, t: State, p: int)
    decreases |steps|
  {
    && |Window(s.conns)| <= p
    && if steps == [] then s == t
       else Enabled(s, steps[0]) && Path(Do(s, k, steps[0]), k, steps[1..], t, p)
  }

  lemma {:induction false} PathsJoin(s: State, k: Config, a: seq<Step>, t: State, b: seq<Step>, u: State, p: int)
    requires Path(s, k, a, t, p) && Path(t, k, b, u, p)
    ensures Path(s, k, a + b, u, p)
    decreases |a|
  {
    hide Do, Enabled, Window;
    if a == [] {
      assert a + b == b;
    } else {
      assert (a + b)[1..] == a[1..] + b;
      PathsJoin(Do(s, k, a[0]), k, a[1..], t, b, u, p);
    }
  }

  lemma PathStep(s: State, k: Config, a: seq<Step>, t: State, step: Step, p: int)
    requires Path(s, k, a, t, p) && Enabled(t, step) && |Window(Do(t, k, step).conns)| <= p && |Window(t.conns)| <= p
    ensures Path(s, k, a + [step], Do(t, k, step), p)
  {
    hide Do, Enabled, Window;
    assert [step][1..] == [];
    assert Path(Do(t, k, step), k, [], Do(t, k, step), p);
    PathsJoin(s, k, a, t, [step], Do(t, k, step), p);
  }

  // A path as the states it goes through.
  ghost predicate Through(ss: seq<State>, steps: seq<Step>, k: Config, p: int) {
    && |ss| == |steps| + 1
    && (forall i :: 0 <= i < |steps| ==> Enabled(ss[i], steps[i]) && ss[i + 1] == Do(ss[i], k, steps[i]))
    && forall i :: 0 <= i < |ss| ==> |Window(ss[i].conns)| <= p
  }

  lemma {:induction false} PathIsThrough(s: State, k: Config, steps: seq<Step>, t: State, p: int)
    returns (ss: seq<State>)
    requires Path(s, k, steps, t, p)
    ensures Through(ss, steps, k, p) && ss[0] == s && ss[|steps|] == t
    decreases |steps|
  {
    hide Do, Enabled, Window;
    ss := [s];
    if steps != [] {
      var rest := PathIsThrough(Do(s, k, steps[0]), k, steps[1..], t, p);
      ss := [s] + rest;
      forall i | 0 <= i < |steps|
        ensures Enabled(ss[i], steps[i]) && ss[i + 1] == Do(ss[i], k, steps[i])
      {
        if i > 0 {
          assert ss[i] == rest[i - 1] && steps[i] == steps[1..][i - 1] && ss[i + 1] == rest[i];
        }
      }
    }
  }

  // Connections 0 to n - 1 have come: the first e are in session, the others
  // have passed the check.
  ghost predicate Staged(s: State, n: int, e: int) {
    && 0 <= e <= n && s.clients == e
    && !s.stopping && s.mu == Free && s.accept == Listening
    && (forall c :: c in s.conns <==> 0 <= c < n)
    && forall c :: 0 <= c < n ==> s.conns[c] == if c < e then Session else CapChecked
  }

  lemma StagedWindow(s: State, n: int, e: int)
    requires Staged(s, n, e)
    ensures |Window(s.conns)| == n - e
  {
    BetweenHolds(e, n);
    forall c
      ensures c in Window(s.conns) <==> c in Between(e, n)
    {
      assert c in s.conns <==> 0 <= c < n;
    }
    assert Window(s.conns) == Between(e, n);
  }

  function Between(a: int, b: int): set<int>
    decreases b - a
  {
    if a < b then Between(a, b - 1) + {b - 1} else {}
  }

  lemma {:induction false} BetweenHolds(a: int, b: int)
    requires a <= b
    ensures |Between(a, b)| == b - a && forall c :: c in Between(a, b) <==> a <= c < b
    decreases b - a
  {
    if a < b {
      BetweenHolds(a, b - 1);
    }
  }

  function Arrival(c: int): seq<Step> {
    [Accept(TakeConn(c)), Accept(Lock), Accept(Count), Accept(Start), Conn(c, CheckCap)]
  }

  lemma Arrives(s: State, k: Config, n: int, e: int, p: int) returns (t: State)
    requires Staged(s, n, e) && e < k.maxSessions && n - e < p
    ensures Path(s, k, Arrival(n), t, p) && Staged(t, n + 1, e)
  {
    hide Window, Path;
    StagedWindow(s, n, e);
    var s1 := Do(s, k, Accept(TakeConn(n)));
    var s2 := Do(s1, k, Accept(Lock));
    var s3 := Do(s2, k, Accept(Count));
    var s4 := Do(s3, k, Accept(Start));
    WindowMoves(s.conns, n, Spawning);
    WindowMoves(s3.conns, n, Handshake);
    WindowMoves(s4.conns, n, CapChecked);
    t := Do(s4, k, Conn(n, CheckCap));
    Standing(s, k, p);
    PathStep(s, k, [], s, Accept(TakeConn(n)), p);
    PathStep(s, k, [] + [Accept(TakeConn(n))], s1, Accept(Lock), p);
    PathStep(s, k, [] + [Accept(TakeConn(n))] + [Accept(Lock)], s2, Accept(Count), p);
    PathStep(s, k, [] + [Accept(TakeConn(n))] + [Accept(Lock)] + [Accept(Count)], s3, Accept(Start), p);
    PathStep(s, k, [] + [Accept(TakeConn(n))] + [Accept(Lock)] + [Accept(Count)] + [Accept(Start)],
             s4, Conn(n, CheckCap), p);
    assert [] + [Accept(TakeConn(n))] + [Accept(Lock)] + [Accept(Count)] + [Accept(Start)] + [Conn(n, CheckCap)]
           == Arrival(n);
  }

  lemma Standing(s: State, k: Config, p: int)
    requires |Window(s.conns)| <= p
    ensures Path(s, k, [], s, p)
  {
  }

  lemma Registers(s: State, k: Config, n: int, e: int, p: int) returns (t: State)
    requires Staged(s, n, e) && e < n && n - e <= p
    ensures Path(s, k, [Conn(e, AddLock), Conn(e, AddCommit)], t, p) && Staged(t, n, e + 1)
  {
    hide Window, Path;
    StagedWindow(s, n, e);
    var s1 := Do(s, k, Conn(e, AddLock));
    WindowMoves(s.conns, e, AddLocked);
    WindowMoves(s1.conns, e, Session);
    t := Do(s1, k, Conn(e, AddCommit));
    Standing(s, k, p);
    PathStep(s, k, [], s, Conn(e, AddLock), p);
    PathStep(s, k, [] + [Conn(e, AddLock)], s1, Conn(e, AddCommit), p);
    assert [] + [Conn(e, AddLock)] + [Conn(e, AddCommit)] == [Conn(e, AddLock), Conn(e, AddCommit)];
  }

  // n sessions, each let in before the next connection comes.
  lemma {:induction false} OneByOne(k: Config, n: nat, p: int) returns (steps: seq<Step>, t: State)
    requires n < k.maxSessions && p >= 1
    ensures Path(Init(k), k, steps, t, p) && Staged(t, n, n)
  {
    hide Path, Window;
    steps, t := [], Init(k);
    if n == 0 {
      EmptyWindow();
      Standing(t, k, p);
    } else {
      var s, u;
      steps, s := OneByOne(k, n - 1, p);
      u := Arrives(s, k, n - 1, n - 1, p);
      PathsJoin(Init(k), k, steps, s, Arrival(n - 1), u, p);
      t := Registers(u, k, n, n - 1, p);
      PathsJoin(Init(k), k, steps + Arrival(n - 1), u, [Conn(n - 1, AddLock), Conn(n - 1, AddCommit)], t, p);
      steps := steps + Arrival(n - 1) + [Conn(n - 1, AddLock), Conn(n - 1, AddCommit)];
    }
  }

  // q more that all pass the check before any of them is registered.
  lemma {:induction false} AllAtOnce(s: State, k: Config, e: int, q: nat, p: int) returns (steps: seq<Step>, t: State)
    requires Staged(s, e, e) && e < k.maxSessions && q <= p
    ensures Path(s, k, steps, t, p) && Staged(t, e + q, e)
  {
    hide Path, Window;
    steps, t := [], s;
    if q == 0 {
      StagedWindow(s, e, e);
      Standing(s, k, p);
    } else {
      var u;
      steps, u := AllAtOnce(s, k, e, q - 1, p);
      t := Arrives(u, k, e + q - 1, e, p);
      PathsJoin(s, k, steps, u, Arrival(e + q - 1), t, p);
      steps := steps + Arrival(e + q - 1);
    }
  }

  lemma {:induction false} AllRegister(s: State, k: Config, n: int, e: int, p: int) returns (steps: seq<Step>, t: State)
    requires Staged(s, n, e) && n - e <= p
    ensures Path(s, k, steps, t, p) && Staged(t, n, n)
    decreases n - e
  {
    hide Path, Window;
    steps, t := [], s;
    if e == n {
      StagedWindow(s, n, n);
      Standing(s, k, p);
    } else {
      var u := Registers(s, k, n, e, p);
      var rest;
      rest, t := AllRegister(u, k, n, e + 1, p);
      PathsJoin(s, k, [Conn(e, AddLock), Conn(e, AddCommit)], u, rest, t, p);
      steps := [Conn(e, AddLock), Conn(e, AddCommit)] + rest;
    }
  }

  // The bound is reached, for every cap and every overlap: p connections that
  // pass the check together take the sessions to p - 1 above the cap.
  lemma TheCapIsOverrunByOverlap(k: Config, p: nat) returns (ss: seq<State>, steps: seq<Step>)
    requires k.maxSessions >= 1 && p >= 1
    ensures Run(ss, steps, k) && (forall i :: 0 <= i < |ss| ==> |Window(ss[i].conns)| <= p)
    ensures ss[|steps|].clients == k.maxSessions - 1 + p
  {
    hide Path, Window, Do, Enabled;
    var m := k.maxSessions - 1;
    var a, s := OneByOne(k, m, p);
    var b, t := AllAtOnce(s, k, m, p, p);
    var c, u := AllRegister(t, k, m + p, m, p);
    PathsJoin(Init(k), k, a, s, b, t, p);
    PathsJoin(Init(k), k, a + b, t, c, u, p);
    steps := a + b + c;
    ss := PathIsThrough(Init(k), k, steps, u, p);
  }
}
