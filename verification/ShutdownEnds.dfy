/** When a shutdown that has begun can still come to its end: exactly when the
    accept loop is not the one that waits for it. */
module ShutdownEnds {
  import opened Wrappers
  import opened Lifecycle

  // The steps lead from s to t.
  ghost predicate Goes(s: State, k: Config, steps: seq<Step>, t: State)
    decreases |steps|
  {
    if steps == [] then s == t
    else Enabled(s, steps[0]) && Goes(Do(s, k, steps[0]), k, steps[1..], t)
  }

  lemma {:induction false} GoesOn(s: State, k: Config, a: seq<Step>, t: State, b: seq<Step>, u: State)
    requires Goes(s, k, a, t) && Goes(t, k, b, u)
    ensures Goes(s, k, a + b, u)
    decreases |a|
  {
    hide Do, Enabled;
    if a == [] {
      assert a + b == b;
    } else {
      assert (a + b)[1..] == a[1..] + b;
      GoesOn(Do(s, k, a[0]), k, a[1..], t, b, u);
    }
  }

  // A shutdown that has begun and is not the accept loop's own, with nobody
  // holding the mutex.
  ghost predicate Ending(s: State, k: Config) {
    Inv(s, k) && s.stopping && s.accept != InStop && s.mu == Free
  }

  lemma Step1(s: State, k: Config, step: Step) returns (t: State)
    requires Inv(s, k) && Enabled(s, step)
    ensures t == Do(s, k, step) && Goes(s, k, [step], t) && Inv(t, k)
  {
    hide Do, Enabled, Inv;
    t := Do(s, k, step);
    EveryStepKeeps(s, k, step);
    assert [step][1..] == [];
    assert Goes(t, k, [], t);
  }

  lemma MutexGetsFree(s: State, k: Config) returns (steps: seq<Step>, t: State)
    requires Inv(s, k) && s.stopping && s.accept != InStop
    ensures Goes(s, k, steps, t) && Ending(t, k)
  {
    hide Goes, CountsRight, WaitsRight, ShutdownFits, TimersFit;
    match s.mu
    case Free =>
      steps, t := [], s;
      Standing(s, k);
    case ByAccept =>
      steps := [Accept(Count)];
      t := Step1(s, k, Accept(Count));
    case ByConn(c) =>
      assert At(s, c, AddLocked);
      steps := [Conn(c, AddCommit)];
      t := Step1(s, k, Conn(c, AddCommit));
  }

  lemma Standing(s: State, k: Config)
    ensures Goes(s, k, [], s)
  {
  }

  // The accept loop ends at its next look at the flag.
  lemma AcceptEnds(s: State, k: Config) returns (steps: seq<Step>, t: State)
    requires Ending(s, k)
    ensures Goes(s, k, steps, t) && Ending(t, k) && t.accept == AcceptDone
  {
    hide Goes, CountsRight, WaitsRight, ShutdownFits, TimersFit;
    match s.accept
    case Listening => steps, t := LoopStops(s, k, Fails(false));
    case Got(c) => steps, t := LoopStops(s, k, AcceptStep.Lock);
    case GivingUp => steps, t := LoopStops(s, k, GiveUp);
    case Spawn(c) =>
      var u := Step1(s, k, Accept(Start));
      steps, t := LoopStops(u, k, Fails(false));
      GoesOn(s, k, [Accept(Start)], u, steps, t);
      steps := [Accept(Start)] + steps;
    case Locked(c) => assert false;
    case AcceptDone =>
      steps, t := [], s;
      Standing(s, k);
  }

  lemma LoopStops(s: State, k: Config, a: AcceptStep) returns (steps: seq<Step>, t: State)
    requires Ending(s, k) && AcceptEnabled(s, a) && (a == Fails(false) || a == AcceptStep.Lock || a == GiveUp)
    ensures Goes(s, k, steps, t) && Ending(t, k) && t.accept == AcceptDone
  {
    hide Goes, CountsRight, WaitsRight, ShutdownFits, TimersFit, PlacesFit;
    steps := [Accept(a)];
    t := Step1(s, k, Accept(a));
  }

  // How far a connection is from its end.
  function ToGo(pc: ConnPc): nat {
    match pc
    case Exited => 0
    case Closing => 1
    case FinishArmReady => 2
    case FinishArm => 3
    case Leaving => 4
    case DropArmReady => 5
    case DropArm => 6
    case Returned => 7
    case Session => 8
    case AddLocked => 9
    case CapChecked => 10
    case Handshake => 11
    case Spawning => 12
  }

  lemma FreshTimer(timers: map<int, TimerPc>) returns (i: int)
    ensures i !in timers
  {
    i := Above(timers.Keys);
  }

  lemma {:induction false} Above(ids: set<int>) returns (i: int)
    ensures forall j :: j in ids ==> j < i
    decreases ids
  {
    i := 0;
    if ids != {} {
      assert exists j :: j in ids by { assert (forall j :: j !in ids) ==> ids == {}; }
      var j :| j in ids;
      var b := Above(ids - {j});
      assert forall x :: x in ids ==> x == j || x in ids - {j};
      i := if j < b then b else j + 1;
    }
  }

  // The step that takes a connection on while the daemon stops.
  lemma NextOf(s: State, k: Config, c: int) returns (what: ConnStep)
    requires Ending(s, k) && s.accept == AcceptDone && c in s.conns && s.conns[c] != Exited
    ensures ConnEnabled(s, c, what) && what != AddCommit
    ensures NextPlace(s, k, what) !in {Spawning, AddLocked} && ToGo(NextPlace(s, k, what)) < ToGo(s.conns[c])
  {
    hide CountsRight, WaitsRight, ShutdownFits, TimersFit;
    var i := FreshTimer(s.timers);
    assert At(s, c, s.conns[c]);
    match s.conns[c]
    case Spawning => assert false;
    case Handshake => what := HandshakeFails;
    case CapChecked => what := AddLock;
    case AddLocked => assert false;
    case Session => what := HandlerReturns;
    case Returned => what := Drop;
    case DropArm => what := DropArmRead;
    case DropArmReady => what := DropArmDo(i);
    case Leaving => what := ConnStep.FinishConn;
    case FinishArm => what := FinishArmRead;
    case FinishArmReady => what := FinishArmDo(i);
    case Closing => what := ConnStep.Exit;
  }

  lemma {:induction false} ConnEnds(s: State, k: Config, c: int) returns (steps: seq<Step>, t: State)
    requires Ending(s, k) && s.accept == AcceptDone && c in s.conns
    ensures Goes(s, k, steps, t) && Ending(t, k) && t.accept == AcceptDone && t.shutdown == s.shutdown
    ensures t.conns == s.conns[c := Exited]
    decreases ToGo(s.conns[c])
  {
    hide Goes, Inv, ConnEnabled, NextPlace;
    if s.conns[c] == Exited {
      steps, t := [], s;
      Standing(s, k);
      assert t.conns == s.conns[c := Exited];
    } else {
      var what := NextOf(s, k, c);
      var u := Step1(s, k, Conn(c, what));
      ConnStepKeepsEnding(s, k, c, what);
      var rest;
      rest, t := ConnEnds(u, k, c);
      GoesOn(s, k, [Conn(c, what)], u, rest, t);
      steps := [Conn(c, what)] + rest;
      assert t.conns == s.conns[c := Exited];
    }
  }

  lemma ConnStepKeepsEnding(s: State, k: Config, c: int, what: ConnStep)
    requires ConnEnabled(s, c, what) && what != AddCommit && s.mu == Free && (what == AddLock ==> s.stopping)
    ensures var t := DoConn(s, k, c, what);
            && t.mu == Free && t.stopping == s.stopping && t.accept == s.accept && t.shutdown == s.shutdown
            && t.conns == s.conns[c := NextPlace(s, k, what)]
  {
    hide ClearTimer, Arm, NextPlace;
  }

  lemma {:induction false} AllConnsEnd(s: State, k: Config) returns (steps: seq<Step>, t: State)
    requires Ending(s, k) && s.accept == AcceptDone
    ensures Goes(s, k, steps, t) && Ending(t, k) && t.accept == AcceptDone && t.shutdown == s.shutdown
    ensures forall c :: c in t.conns ==> t.conns[c] == Exited
    decreases |NotExited(s.conns)|
  {
    hide Goes, Inv;
    if c :| c in s.conns && s.conns[c] != Exited {
      var u;
      steps, u := ConnEnds(s, k, c);
      assert NotExited(u.conns) == NotExited(s.conns) - {c};
      assert c in NotExited(s.conns);
      var rest;
      rest, t := AllConnsEnd(u, k);
      GoesOn(s, k, steps, u, rest, t);
      steps := steps + rest;
    } else {
      steps, t := [], s;
      Standing(s, k);
    }
  }

  function NotExited(conns: map<int, ConnPc>): set<int> {
    set c | c in conns && conns[c] != Exited
  }

  // What the shutdown has still to do when nobody is left to wait for.
  function Rest(shutdown: Shutdown): nat {
    match shutdown
    case NotYet => 6
    case Won => 5
    case Drained => 4
    case Cancelled => 3
    case ConnsClosed => 2
    case Waited => 1
    case Finished => 0
  }

  lemma NobodyToWaitFor(s: State)
    requires WaitsRight(s) && s.accept == AcceptDone && forall c :: c in s.conns ==> s.conns[c] == Exited
    ensures s.wg == 0
  {
    assert forall c :: c in s.conns ==> !Live(s.conns[c]);
    assert LiveConns(s.conns) == {};
  }

  lemma {:induction false} ShutdownFinishes(s: State, k: Config) returns (steps: seq<Step>, t: State)
    requires Ending(s, k) && s.accept == AcceptDone && forall c :: c in s.conns ==> s.conns[c] == Exited
    ensures Goes(s, k, steps, t) && Inv(t, k) && t.shutdown == Finished && t.conns == s.conns
    decreases Rest(s.shutdown)
  {
    hide Goes, CountsRight, PlacesFit, TimersFit, WaitsRight;
    if s.shutdown == Finished {
      steps, t := [], s;
      Standing(s, k);
    } else {
      NobodyToWaitFor(s);
      var x := match s.shutdown
        case Won => StopStep.Begin
        case Drained => StopStep.Cancel
        case Cancelled => StopStep.CloseConns
        case ConnsClosed => StopStep.WaitDone
        case _ => StopStep.CleanUp;
      var u := Step1(s, k, Stop(x));
      var rest;
      rest, t := ShutdownFinishes(u, k);
      GoesOn(s, k, [Stop(x)], u, rest, t);
      steps := [Stop(x)] + rest;
    }
  }

  // A shutdown that has begun can be brought to its end, with every connection
  // through and the artifacts removed once, exactly when it is not the accept
  // loop that called for it and waits.
  lemma CanEndExactly(ss: seq<State>, steps: seq<Step>, k: Config, n: nat)
    requires Run(ss, steps, k) && n < |ss| && ss[n].stopping
    ensures ss[n].accept != InStop <==> exists more, t :: Goes(ss[n], k, more, t) && t.shutdown == Finished
    ensures ss[n].accept != InStop ==>
              exists more, t :: Goes(ss[n], k, more, t) && t.cleaned == 1 && t.accept == AcceptDone
                && forall c :: c in t.conns ==> t.conns[c] == Exited
  {
    hide Goes, Do, Enabled, CountsRight, WaitsRight, PlacesFit, TimersFit;
    EveryRunKeeps(ss, steps, k, n);
    if ss[n].accept != InStop {
      var a, s := MutexGetsFree(ss[n], k);
      var b, t := AcceptEnds(s, k);
      var c, u := AllConnsEnd(t, k);
      var d, v := ShutdownFinishes(u, k);
      GoesOn(ss[n], k, a, s, b, t);
      GoesOn(ss[n], k, a + b, t, c, u);
      GoesOn(ss[n], k, a + b + c, u, d, v);
      assert Goes(ss[n], k, a + b + c + d, v);
      WaitedMeansDone(v, k);
    } else if more, t :| Goes(ss[n], k, more, t) && t.shutdown == Finished {
      StaysStuck(ss[n], k, more, t);
    }
  }

  lemma WaitedMeansDone(s: State, k: Config)
    requires Inv(s, k) && s.shutdown == Finished
    ensures s.cleaned == 1 && s.accept == AcceptDone
  {
    hide CountsRight, PlacesFit, TimersFit;
    SomebodyWaitedFor(s);
  }

  lemma {:induction false} StaysStuck(s: State, k: Config, steps: seq<Step>, t: State)
    requires Inv(s, k) && s.accept == InStop && Goes(s, k, steps, t)
    ensures t.accept == InStop && t.shutdown != Finished
    decreases |steps|
  {
    hide Do, Enabled, CountsRight, WaitsRight, PlacesFit, TimersFit;
    if steps != [] {
      StuckStaysStuck(s, k, steps[0]);
      EveryStepKeeps(s, k, steps[0]);
      StaysStuck(Do(s, k, steps[0]), k, steps[1..], t);
    }
  }

  // ---- An idle daemon can stop ----------------------------------------------------------------

  // Nothing in flight, nobody at the mutex, a timeout, and not stopping yet.
  ghost predicate Idling(s: State, k: Config) {
    Inv(s, k) && !s.stopping && k.idleAfter > 0 && s.inFlight == 0 && s.mu == Free
  }

  ghost predicate StoppedIdle(t: State) {
    t.stopping && t.idleStop && t.cut == {}
  }

  lemma TimerStops(s: State, k: Config, i: int) returns (steps: seq<Step>, t: State)
    requires Idling(s, k) && (TimerAt(s, i, Pending) || TimerAt(s, i, Fired))
    ensures Goes(s, k, steps, t) && StoppedIdle(t)
  {
    hide Goes, WaitsRight, PlacesFit, TimersFit;
    ClientsInFlight(s);
    if TimerAt(s, i, Pending) {
      var u := Step1(s, k, Timer(i, Fire));
      t := Step1(u, k, Timer(i, Callback));
      GoesOn(s, k, [Timer(i, Fire)], u, [Timer(i, Callback)], t);
      steps := [Timer(i, Fire)] + [Timer(i, Callback)];
    } else {
      t := Step1(s, k, Timer(i, Callback));
      steps := [Timer(i, Callback)];
    }
  }

  // Once somebody is at the critical section of armIdleTimer there is a timer
  // after it.
  lemma ArmedStops(s: State, k: Config, step: Step, i: int) returns (steps: seq<Step>, t: State)
    requires Idling(s, k) && Enabled(s, step) && i !in s.timers
    requires (step.Timer? && step.tick == ArmDo(i)) || (step.Conn? && step.what == FinishArmDo(i))
    ensures Goes(s, k, steps, t) && StoppedIdle(t)
  {
    hide Goes, WaitsRight, PlacesFit, ShutdownFits;
    ClientsInFlight(s);
    var u := Step1(s, k, step);
    assert u.clients == s.clients && u.inFlight == s.inFlight && u.stopping == s.stopping && u.mu == Free;
    assert u.idleTimer.Some?;
    var rest;
    rest, t := TimerStops(u, k, u.idleTimer.value);
    GoesOn(s, k, [step], u, rest, t);
    steps := [step] + rest;
  }

  lemma GateStops(s: State, k: Config, read: Step, arm: Step, i: int) returns (steps: seq<Step>, t: State)
    requires Idling(s, k) && Enabled(s, read) && i !in s.timers
    requires || (read.Timer? && read.tick == ArmRead && arm == Timer(read.i, ArmDo(i)))
             || (read.Conn? && read.what == FinishArmRead && arm == Conn(read.c, FinishArmDo(i)))
    ensures Goes(s, k, steps, t) && StoppedIdle(t)
  {
    hide Goes, WaitsRight, PlacesFit, ShutdownFits, TimersFit, CountsRight;
    var u := Step1(s, k, read);
    assert u.clients == s.clients && u.inFlight == s.inFlight && u.stopping == s.stopping && u.mu == Free;
    assert i !in u.timers;
    var rest;
    rest, t := ArmedStops(u, k, arm, i);
    GoesOn(s, k, [read], u, rest, t);
    steps := [read] + rest;
  }

  // An idle daemon with a timeout is always on its way to stopping: timers and
  // goroutines that are there take it to a stop that cuts nobody, without
  // anything new happening to it.
  lemma IdleDaemonCanStop(ss: seq<State>, steps: seq<Step>, k: Config, n: nat)
    requires Run(ss, steps, k) && n < |ss| && !ss[n].stopping && k.idleAfter > 0
    requires ss[n].inFlight == 0 && ss[n].mu == Free
    ensures exists more, t :: Goes(ss[n], k, more, t) && StoppedIdle(t)
  {
    hide Goes, Do, Enabled, WaitsRight, PlacesFit, ShutdownFits, CountsRight;
    EveryRunKeeps(ss, steps, k, n);
    var s := ss[n];
    ClientsInFlight(s);
    var i := FreshTimer(s.timers);
    var more, t;
    if s.idleTimer.Some? {
      more, t := TimerStops(s, k, s.idleTimer.value);
    } else if c :| c in s.conns && (s.conns[c] == FinishArm || s.conns[c] == FinishArmReady) {
      ConnArms(s, c, i);
      if s.conns[c] == FinishArm {
        more, t := GateStops(s, k, Conn(c, FinishArmRead), Conn(c, FinishArmDo(i)), i);
      } else {
        more, t := ArmedStops(s, k, Conn(c, FinishArmDo(i)), i);
      }
    } else {
      assert CallbackRuns(s);
      var j :| j in s.timers && (s.timers[j] == Fired || s.timers[j] == ArmAgain || s.timers[j] == ArmReady);
      TimerArms(s, j, i);
      if s.timers[j] == Fired {
        more, t := TimerStops(s, k, j);
      } else if s.timers[j] == ArmAgain {
        more, t := GateStops(s, k, Timer(j, ArmRead), Timer(j, ArmDo(i)), i);
      } else {
        more, t := ArmedStops(s, k, Timer(j, ArmDo(i)), i);
      }
    }
  }

  lemma ConnArms(s: State, c: int, i: int)
    requires c in s.conns && i !in s.timers && s.mu == Free
    ensures s.conns[c] == FinishArm ==> Enabled(s, Conn(c, FinishArmRead))
    ensures s.conns[c] == FinishArmReady ==> Enabled(s, Conn(c, FinishArmDo(i)))
  {
  }

  lemma TimerArms(s: State, j: int, i: int)
    requires j in s.timers && i !in s.timers && s.mu == Free
    ensures s.timers[j] == ArmAgain ==> Enabled(s, Timer(j, ArmRead))
    ensures s.timers[j] == ArmReady ==> Enabled(s, Timer(j, ArmDo(i)))
  {
  }
}
