/** The critical sections of server.go as they are written, on the daemon's
    fields, each shown to be a step of the life it is part of. */
module DaemonSections {
  import opened Wrappers
  import opened Lifecycle

  class Daemon {
    var stopping: bool
    var clients: int
    var inFlight: int
    var conns: set<int>
    var idleTimer: Option<int>
    // The timers made so far and where each of them is.
    var timers: map<int, TimerPc>
    const idleAfter: int

    constructor (idleAfter: int)
      ensures Shows(Init(Config(idleAfter, 0))) && this.idleAfter == idleAfter
    {
      this.idleAfter := idleAfter;
      stopping, clients, inFlight, conns, idleTimer, timers := false, 0, 0, {}, None, map[];
      new;
      if idleAfter > 0 {
        idleTimer, timers := Some(0), map[0 := Pending];
      }
    }

    // The fields are those of state s.
    ghost predicate Shows(s: State)
      reads this
    {
      && stopping == s.stopping && clients == s.clients && inFlight == s.inFlight
      && conns == s.registered && idleTimer == s.idleTimer && timers == s.timers
    }

    // idleTimer.Stop(); idleTimer = nil
    method ClearIdleTimer(ghost s: State)
      requires Shows(s)
      modifies this`idleTimer, this`timers
      ensures Shows(ClearTimer(s))
    {
      if idleTimer.Some? {
        if idleTimer.value in timers && timers[idleTimer.value] == Pending {
          timers := timers[idleTimer.value := Dead];
        }
        idleTimer := None;
      }
    }

    // acceptLoop: refused when stopping, else counted before its goroutine starts.
    method CountAccepted(ghost s: State) returns (ok: bool)
      requires Shows(s) && s.accept.Got? && s.mu == Free
      modifies this
      ensures ok <==> !s.stopping
      ensures Shows(if ok then DoAccept(DoAccept(s, Lock), Count) else DoAccept(s, Lock))
    {
      if stopping {
        return false;
      }
      inFlight := inFlight + 1;
      ClearIdleTimer(s.(inFlight := s.inFlight + 1));
      return true;
    }

    // addClient: registers a session unless the daemon is stopping.
    method AddClient(c: int, k: Config, ghost s: State) returns (ok: bool)
      requires Shows(s) && At(s, c, CapChecked) && s.mu == Free
      modifies this
      ensures ok <==> !s.stopping
      ensures Shows(if ok then DoConn(DoConn(s, k, c, AddLock), k, c, AddCommit) else DoConn(s, k, c, AddLock))
    {
      if stopping {
        return false;
      }
      clients := clients + 1;
      conns := conns + {c};
      ClearIdleTimer(s.(clients := clients, registered := conns));
      return true;
    }

    // dropClient, up to the arming it decides on.
    method DropClient(c: int, k: Config, ghost s: State) returns (last: bool)
      requires Shows(s) && ConnEnabled(s, c, Drop)
      modifies this
      ensures Shows(DoConn(s, k, c, Drop))
      ensures last <==> At(DoConn(s, k, c, Drop), c, DropArm)
    {
      conns := conns - {c};
      if clients > 0 {
        clients := clients - 1;
      }
      last := clients == 0;
    }

    // finishConn, up to the arming it decides on.
    method FinishConn(c: int, k: Config, ghost s: State) returns (idle: bool)
      requires Shows(s) && ConnEnabled(s, c, ConnStep.FinishConn)
      modifies this
      ensures Shows(DoConn(s, k, c, ConnStep.FinishConn))
      ensures idle <==> At(DoConn(s, k, c, ConnStep.FinishConn), c, FinishArm)
    {
      if inFlight > 0 {
        inFlight := inFlight - 1;
      }
      idle := clients == 0 && inFlight == 0;
    }

    // armIdleTimer; `next` is the timer AfterFunc would hand out.
    method ArmIdleTimer(next: int, ghost s: State)
      requires Shows(s)
      modifies this`idleTimer, this`timers
      ensures Shows(if MayArm(s, Config(idleAfter, 0)) then Arm(s, next) else s)
    {
      if idleAfter <= 0 || stopping {
        return;
      }
      if clients > 0 || inFlight > 0 || idleTimer.Some? {
        return;
      }
      idleTimer, timers := Some(next), timers[next := Pending];
    }

    // stopIfIdle, up to the close of the listener.
    method StopIfIdleNow(ghost s: State) returns (stopped: bool)
      requires Shows(s)
      modifies this
      ensures Shows(StopIfIdle(s))
      ensures stopped <==> Idle(s) && !s.stopping
    {
      if clients > 0 || inFlight > 0 {
        return false;
      }
      if stopping {
        return false;
      }
      stopping := true;
      ClearIdleTimer(s.(stopping := true));
      return true;
    }

    // What the timer runs: stop an idle daemon, or look again whether to arm.
    method IdleTimeout(i: int, k: Config, ghost s: State) returns (again: bool)
      requires Shows(s) && TimerEnabled(s, i, Callback)
      modifies this
      ensures Shows(StopIfIdle(s))
      ensures DoTimer(s, k, i, Callback) == SetTimer(StopIfIdle(s), i, if again then ArmAgain else Dead)
    {
      var stopped := StopIfIdleNow(s);
      again := !stopped;
    }

    // The gate of armIdleTimer, read before its critical section.
    method WantsToArm(k: Config, ghost s: State) returns (wants: bool)
      requires Shows(s) && k.idleAfter == idleAfter
      ensures wants <==> NextPlace(s, k, DropArmRead) == DropArmReady
      ensures wants <==> NextPlace(s, k, FinishArmRead) == FinishArmReady
      ensures forall i :: DoTimer(s, k, i, ArmRead) == SetTimer(s, i, if wants then ArmReady else Dead)
    {
      return idleAfter > 0 && !stopping;
    }
  }
}
