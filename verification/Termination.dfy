/** Ending a daemon that holds the database lock: the pidfd paths of pidfd.go,
    recovery.go and lock.go, against processes that may exit and hand their
    pids on between any two steps. */
module Termination {
  import opened Wrappers
  import opened Processes
  import opened DaemonIdentity

  // ---- The protocols ---------------------------------------------------------------------

  // Ended: success. Skipped: not the target any more, nothing claimed.
  datatype Verdict = Ended | Skipped | Unsupported | Refused | SignalFailed | Survived

  // Between the two logs the client reached incarnation i alone, with SIGTERM
  // and after it perhaps SIGKILL.
  ghost predicate OnlySignals(before: seq<Delivery>, after: seq<Delivery>, i: int) {
    || after == before
    || after == before + [Delivery(TERM, i)]
    || after == before + [Delivery(TERM, i), Delivery(KILL, i)]
  }

  class Client {
    const kernel: Kernel
    const paths: Paths
    const self: int
    const selfExe: string
    const grace: nat
    const killGrace: nat

    constructor (kernel: Kernel, paths: Paths, self: int, selfExe: string, grace: nat, killGrace: nat)
      ensures this.kernel == kernel && this.paths == paths && this.self == self && this.selfExe == selfExe
    {
      this.kernel, this.paths, this.self, this.selfExe := kernel, paths, self, selfExe;
      this.grace, this.killGrace := grace, killGrace;
    }

    // Facts of incarnation i make it an invisible holder for root that this
    // client may signal.
    ghost predicate IsTarget(root: string, p: Process) {
      p.pid != self && IsInvisibleHolder(paths, root, p.facts.cmdline, p.facts.environ)
    }

    // Whoever held the pid from w to v is a target.
    ghost predicate TargetThroughout(w: World, v: World, root: string, pid: int) {
      forall i :: 0 <= i < |w| && Holds(v, i, pid) ==> IsTarget(root, v[i])
    }

    // A signal that still finds the pinned incarnation finds a target.
    lemma PinnedIsTarget(u: World, v: World, w: World, root: string, pid: int, i: int)
      requires TargetThroughout(u, v, root, pid) && Later(u, v) && Later(v, w)
      requires 0 <= i < |u| && u[i].pid == pid && i < |w| && w[i].life != Gone
      ensures IsTarget(root, w[i])
    {
      LaterKeeps(v, w, i);
      assert Holds(v, i, pid);
    }

    // The two reads of a recheck, from position k of a trace.
    ghost predicate Rechecks(t: seq<Call>, k: int, pid: int) {
      0 <= k < |t| - 1 && t[k].Read? && t[k + 1].Read? && t[k].pid == pid && t[k + 1].pid == pid
    }

    // Both came back, and what they found fits the profile.
    ghost predicate Fits(root: string, t: seq<Call>, k: int) {
      && 0 <= k < |t| - 1 && t[k].Read? && t[k + 1].Read? && t[k].facts.Some? && t[k + 1].facts.Some?
      && IsInvisibleHolder(paths, root, t[k].facts.value.cmdline, t[k + 1].facts.value.environ)
    }

    // A trace after which a pid is skipped: its last recheck did not fit, or
    // SIGTERM found the pinned incarnation gone.
    ghost predicate SkippedBy(root: string, pid: int, t: seq<Call>) {
      || (Rechecks(t, |t| - 2, pid) && !Fits(root, t, |t| - 2))
      || (t != [] && t[|t| - 1].Signalled? && t[|t| - 1].signal == TERM && t[|t| - 1].sent == NoSuchProcess)
    }

    // recovery.go: two reads of /proc and the predicate. A match says something
    // only about an incarnation that held the pid all the way through; a
    // running one that fits is matched unless a read was refused.
    method LiveInvisibleHolderMatch(root: string, pid: int) returns (match_: bool)
      requires kernel.Valid()
      modifies kernel`world, kernel`trace
      ensures kernel.Valid() && Later(old(kernel.world), kernel.world)
      ensures match_ ==> TargetThroughout(old(kernel.world), kernel.world, root, pid)
      ensures pid == self ==> !match_ && kernel.trace == old(kernel.trace)
      ensures pid != self ==>
                && old(kernel.trace) <= kernel.trace && |kernel.trace| == |old(kernel.trace)| + 2
                && Rechecks(kernel.trace, |old(kernel.trace)|, pid)
                && (match_ <==> Fits(root, kernel.trace, |old(kernel.trace)|))
      ensures pid != self && kernel.trace[|old(kernel.trace)|].facts.Some?
              && kernel.trace[|old(kernel.trace)| + 1].facts.Some? ==>
                forall i | 0 <= i < |old(kernel.world)| && Holds(kernel.world, i, pid)
                         && kernel.world[i].life == Running ::
                  IsTarget(root, kernel.world[i]) ==> match_
    {
      hide IsInvisibleHolder;
      if pid == self {
        LaterRefl(kernel.world);
        return false;
      }
      var first := kernel.ReadFacts(pid);
      ghost var atFirst := kernel.world;
      var second := kernel.ReadFacts(pid);
      LaterRefl(kernel.world);
      var cmdline := if first.Some? then first.value.cmdline else "";
      var environ := if second.Some? then second.value.environ else "";
      match_ := IsInvisibleHolder(paths, root, cmdline, environ);
      if match_ {
        EmptyIsNoHolder(paths, root, cmdline, environ);
        assert first.Some? && second.Some?;
        forall i | 0 <= i < |old(kernel.world)| && Holds(kernel.world, i, pid)
          ensures IsTarget(root, kernel.world[i])
        {
          ShownStillHolds(atFirst, kernel.world, pid, first.value, i);
          ShownStillHolds(kernel.world, kernel.world, pid, second.value, i);
        }
      }
      if first.Some? && second.Some? {
        forall i | 0 <= i < |old(kernel.world)| && Holds(kernel.world, i, pid) && kernel.world[i].life == Running
          ensures cmdline == kernel.world[i].facts.cmdline && environ == kernel.world[i].facts.environ
        {
          RunningShown(atFirst, kernel.world, pid, first.value, i);
          RunningShown(kernel.world, kernel.world, pid, second.value, i);
        }
      }
    }

    lemma RunningShown(w: World, v: World, pid: int, facts: Facts, i: int)
      requires Shows(w, pid, facts) && Later(w, v) && 0 <= i < |w| && Holds(v, i, pid) && v[i].life == Running
      ensures facts == v[i].facts
    {
      LaterKeeps(w, v, i);
      assert Holds(w, i, pid);
    }

    // pidfd.go: pin, recheck, SIGTERM, wait, recheck, SIGKILL, wait. Each
    // verdict has its reason in the trace.
    method TerminateViaPidfd(root: string, pid: int) returns (verdict: Verdict, ghost pinned: int)
      requires kernel.Valid()
      modifies kernel
      ensures kernel.Valid() && Later(old(kernel.world), kernel.world)
      ensures OnlySignals(old(kernel.log), kernel.log, pinned)
      ensures kernel.log != old(kernel.log) || verdict == Ended ==> Pinned(root, pid, pinned, kernel.world)
      ensures verdict == Ended ==> kernel.world[pinned].life == Gone
      ensures verdict == Survived && 0 <= pinned < |kernel.world| && kernel.world[pinned].life == Running ==>
                kernel.log == old(kernel.log) + [Delivery(TERM, pinned), Delivery(KILL, pinned)]
      ensures verdict != Refused && Attempted(root, pid, pinned, |old(kernel.trace)|, kernel.trace, verdict)
      ensures old(kernel.trace) <= kernel.trace
      ensures verdict == Survived && killGrace > 0 ==> exists i :: Holds(kernel.world, i, pid)
      ensures pid != self && Fits(root, kernel.trace, |old(kernel.trace)| + 1) && verdict != SignalFailed
              && 0 <= pinned < |kernel.world| && kernel.world[pinned].life == Running ==>
                old(kernel.log) + [Delivery(TERM, pinned)] <= kernel.log
    {
      hide IsInvisibleHolder, IsTarget, TargetThroughout, GoneSince, Later, OneHolder, Fits, Rechecks, Sends,
           SkippedBy, Attempted, Begun, Waited;
      pinned := -1;
      ghost var start, t0, log := kernel.world, kernel.trace, kernel.log;
      var fd := kernel.Open(pid);
      if fd == None {
        AttemptUnsupported(root, pid, pinned, t0, kernel.trace);
        return Unsupported, pinned;
      }
      pinned := fd.value;
      ghost var held := kernel.world;
      var match_ := LiveInvisibleHolderMatch(root, pid);
      ghost var checked, t1 := kernel.world, kernel.trace;
      LaterTrans(start, held, checked);
      if !match_ {
        AttemptUnfit(root, pid, pinned, t0, t1);
        return Skipped, pinned;
      }
      LaterKeeps(held, checked, pinned);
      var sent := kernel.Send(fd.value, TERM);
      ghost var termed, t2 := kernel.world, kernel.trace;
      AttemptBegins(root, pid, pinned, t0, t1, t2, sent);
      LaterTrans(start, checked, termed);
      LaterKeeps(checked, termed, pinned);
      if sent == NoSuchProcess {
        return Skipped, pinned;
      }
      PinnedIsTarget(held, checked, termed, root, pid, pinned);
      if sent == Denied {
        return SignalFailed, pinned;
      }
      verdict := Escalate(root, pid, fd.value, |t0|);
      LaterTrans(start, termed, kernel.world);
      assert log + [Delivery(TERM, pinned)] + [Delivery(KILL, pinned)]
          == log + [Delivery(TERM, pinned), Delivery(KILL, pinned)];
    }

    // The second half: wait, recheck, SIGKILL, wait. n is where the attempt
    // began in the trace.
    method Escalate(root: string, pid: int, fd: int, ghost n: nat) returns (verdict: Verdict)
      requires kernel.Valid() && Begun(root, pid, fd, n, kernel.trace) && Pinned(root, pid, fd, kernel.world)
      modifies kernel
      ensures kernel.Valid() && Later(old(kernel.world), kernel.world) && Pinned(root, pid, fd, kernel.world)
      ensures kernel.world[fd].life == Running ==> old(kernel.world)[fd].life == Running
      ensures kernel.log == old(kernel.log) || (kernel.log == old(kernel.log) + [Delivery(KILL, fd)]
                                                && old(kernel.world)[fd].life == Running)
      ensures verdict == Ended ==> kernel.world[fd].life == Gone
      ensures verdict == Survived && kernel.world[fd].life == Running ==>
                kernel.log == old(kernel.log) + [Delivery(KILL, fd)]
      ensures verdict in {Ended, Skipped, SignalFailed, Survived} && old(kernel.trace) <= kernel.trace
      ensures Attempted(root, pid, fd, n, kernel.trace, verdict) && Fits(root, kernel.trace, n + 1)
      ensures verdict == Survived && killGrace > 0 ==> exists i :: Holds(kernel.world, i, pid)
    {
      hide IsInvisibleHolder, IsTarget, TargetThroughout, GoneSince, Later, OneHolder, Fits, Rechecks, Sends,
           SkippedBy, Attempted, Begun, OnlySignals;
      ghost var start, t2 := kernel.world, kernel.trace;
      var exited := kernel.WaitForExit(pid, grace);
      ghost var waited, t3 := kernel.world, kernel.trace;
      BegunWaits(root, pid, fd, n, t2, t3, exited);
      PinnedLasts(root, pid, fd, start, waited);
      if exited {
        PinnedIsGone(start, waited, pid, fd);
        return Ended;
      }
      var match_ := LiveInvisibleHolderMatch(root, pid);
      ghost var rechecked, t4 := kernel.world, kernel.trace;
      BegunRechecks(root, pid, fd, n, t3, t4);
      LaterTrans(start, waited, rechecked);
      PinnedLasts(root, pid, fd, waited, rechecked);
      if !match_ {
        return Skipped;
      }
      var sent := kernel.Send(fd, KILL);
      ghost var killed, t5 := kernel.world, kernel.trace;
      BegunKills(root, pid, fd, n, t4, t5, sent);
      LaterTrans(start, rechecked, killed);
      PinnedLasts(root, pid, fd, rechecked, killed);
      if sent == Denied {
        return SignalFailed;
      }
      exited := kernel.WaitForExit(pid, killGrace);
      BegunWaits(root, pid, fd, n, t5, kernel.trace, exited);
      LaterTrans(start, killed, kernel.world);
      PinnedLasts(root, pid, fd, killed, kernel.world);
      if exited {
        PinnedIsGone(killed, kernel.world, pid, fd);
        return Ended;
      }
      return Survived;
    }

    lemma PinnedLasts(root: string, pid: int, i: int, w: World, v: World)
      requires Pinned(root, pid, i, w) && Later(w, v)
      ensures Pinned(root, pid, i, v)
      ensures v[i].life == Running ==> w[i].life == Running
      ensures w[i].life == Gone ==> v[i].life == Gone
    {
      hide IsTarget;
      LaterKeeps(w, v, i);
      SameTarget(w, v, root, i);
    }

    // What the trace from position n on says of an attempt with this verdict:
    // the pin comes first; where the recheck after it fits, SIGTERM is next, and
    // no signal comes but behind a recheck that fits; the first probe that finds
    // the pid free ends it; a skipped pid has its reason; a failure is a refused
    // signal; a survivor has had both signals.
    ghost predicate Attempted(root: string, pid: int, fd: int, n: int, t: seq<Call>, verdict: Verdict) {
      && 0 <= n < |t| && t[n] == Opened(pid, if verdict == Unsupported then None else Some(fd))
      && (verdict == Unsupported ==> |t| == n + 1)
      && (pid != self && verdict != Unsupported ==> Rechecks(t, n + 1, pid))
      && (pid != self && verdict != Unsupported && Fits(root, t, n + 1) ==> Sends(t, n + 3, fd, TERM))
      && SignalsRechecked(root, pid, n, t)
      && (forall k :: n <= k < |t| && t[k].Probed? && !t[k].alive ==> k == |t| - 1 && verdict == Ended)
      && (verdict == Skipped ==> pid == self || SkippedBy(root, pid, t))
      && (verdict == SignalFailed ==> t[|t| - 1].Signalled? && t[|t| - 1].fd == fd && t[|t| - 1].sent == Denied)
      && (verdict == Ended || verdict == Survived ==> Sends(t, n + 3, fd, TERM) && t[n + 3].sent == Done)
      && (verdict == Ended ==> t[|t| - 1] == Probed(pid, false))
      && (verdict == Survived ==> Killed(fd, n, t))
    }

    ghost predicate SignalsRechecked(root: string, pid: int, n: int, t: seq<Call>) {
      forall k :: 0 <= n <= k < |t| && t[k].Signalled? ==> Rechecks(t, k - 2, pid) && Fits(root, t, k - 2)
    }

    ghost predicate Killed(fd: int, n: int, t: seq<Call>) {
      exists k :: n + 3 < k < |t| && Sends(t, k, fd, KILL) && t[k].sent != Denied
    }

    ghost predicate Sends(t: seq<Call>, k: int, fd: int, signal: Signal) {
      0 <= k < |t| && t[k].Signalled? && t[k].fd == fd && t[k].signal == signal
    }

    lemma SameTarget(w: World, v: World, root: string, i: int)
      requires 0 <= i < |w| && i < |v| && w[i].pid == v[i].pid && w[i].facts == v[i].facts
      ensures IsTarget(root, v[i]) <==> IsTarget(root, w[i])
    {
    }

    lemma FitsLasts(root: string, t: seq<Call>, u: seq<Call>, k: nat)
      requires t <= u && k + 1 < |t|
      ensures Fits(root, u, k) <==> Fits(root, t, k)
    {
      hide IsInvisibleHolder;
      assert u[k] == t[k] && u[k + 1] == t[k + 1];
    }

    // The attempt from a SIGTERM that the kernel took, still under way.
    ghost predicate Begun(root: string, pid: int, fd: int, n: int, t: seq<Call>) {
      && pid != self && 0 <= n < |t| && t[n] == Opened(pid, Some(fd)) && Rechecks(t, n + 1, pid) && Fits(root, t, n + 1)
      && Sends(t, n + 3, fd, TERM) && t[n + 3].sent == Done && SignalsRechecked(root, pid, n, t)
      && forall k :: n <= k < |t| && t[k].Probed? ==> t[k].alive
    }

    lemma AttemptUnsupported(root: string, pid: int, fd: int, t0: seq<Call>, t: seq<Call>)
      requires t == t0 + [Opened(pid, None)]
      ensures Attempted(root, pid, fd, |t0|, t, Unsupported)
    {
    }

    lemma AttemptUnfit(root: string, pid: int, fd: int, t0: seq<Call>, t: seq<Call>)
      requires t0 + [Opened(pid, Some(fd))] <= t
      requires pid != self ==> |t| == |t0| + 3 && Rechecks(t, |t0| + 1, pid) && !Fits(root, t, |t0| + 1)
      requires pid == self ==> |t| == |t0| + 1
      ensures Attempted(root, pid, fd, |t0|, t, Skipped)
    {
      hide Fits;
      assert t[|t0|] == (t0 + [Opened(pid, Some(fd))])[|t0|];
    }

    // What was rechecked stays so when calls are added.
    lemma RechecksLast(root: string, pid: int, t: seq<Call>, u: seq<Call>)
      requires t <= u
      ensures forall k :: 0 <= k < |t| - 1 ==>
                (Rechecks(u, k, pid) <==> Rechecks(t, k, pid)) && (Fits(root, u, k) <==> Fits(root, t, k))
      ensures forall k :: 0 <= k < |t| ==> u[k] == t[k]
    {
      hide Fits;
      forall k | 0 <= k < |t| - 1
        ensures Rechecks(u, k, pid) <==> Rechecks(t, k, pid)
        ensures Fits(root, u, k) <==> Fits(root, t, k)
      {
        FitsLasts(root, t, u, k);
        assert u[k] == t[k] && u[k + 1] == t[k + 1];
      }
    }

    lemma AttemptBegins(root: string, pid: int, fd: int, t0: seq<Call>, t1: seq<Call>, t2: seq<Call>, sent: Sent)
      requires pid != self && t0 + [Opened(pid, Some(fd))] <= t1 && |t1| == |t0| + 3
      requires Rechecks(t1, |t0| + 1, pid) && Fits(root, t1, |t0| + 1) && t2 == t1 + [Signalled(fd, TERM, sent)]
      ensures sent == NoSuchProcess ==> Attempted(root, pid, fd, |t0|, t2, Skipped)
      ensures sent == Denied ==> Attempted(root, pid, fd, |t0|, t2, SignalFailed)
      ensures sent == Done ==> Begun(root, pid, fd, |t0|, t2)
      ensures Fits(root, t2, |t0| + 1)
    {
      RechecksLast(root, pid, t1, t2);
      assert t1[|t0|] == (t0 + [Opened(pid, Some(fd))])[|t0|];
      assert t2[|t0|] == t1[|t0|] && t2[|t0| + 1] == t1[|t0| + 1] && t2[|t0| + 2] == t1[|t0| + 2];
      hide Fits;
    }

    // Calls that are no signals and find nobody gone leave the attempt under way.
    lemma BegunGoesOn(root: string, pid: int, fd: int, n: nat, t: seq<Call>, u: seq<Call>)
      requires Begun(root, pid, fd, n, t) && t <= u
      requires forall k :: |t| <= k < |u| && u[k].Signalled? ==> Rechecks(u, k - 2, pid) && Fits(root, u, k - 2)
      ensures pid != self && n + 3 < |t| && Fits(root, u, n + 1) && SignalsRechecked(root, pid, n, u)
      ensures u[n] == Opened(pid, Some(fd)) && Rechecks(u, n + 1, pid) && Sends(u, n + 3, fd, TERM)
              && u[n + 3].sent == Done
      ensures forall k :: n <= k < |t| && u[k].Probed? ==> u[k].alive
      ensures (forall k :: |t| <= k < |u| && u[k].Probed? ==> u[k].alive) ==> Begun(root, pid, fd, n, u)
    {
      RechecksLast(root, pid, t, u);
      hide Fits, Rechecks;
      forall k | n <= k < |u| && u[k].Signalled?
        ensures Rechecks(u, k - 2, pid) && Fits(root, u, k - 2)
      {
        if k < |t| {
          assert Rechecks(t, k - 2, pid) && Fits(root, t, k - 2);
          RechecksInside(t, k - 2, pid);
        }
      }
    }

    lemma RechecksInside(t: seq<Call>, k: int, pid: int)
      requires Rechecks(t, k, pid)
      ensures 0 <= k < |t| - 1
    {
    }

    // A wait either sees the exit, and the attempt is over, or goes by.
    lemma BegunWaits(root: string, pid: int, fd: int, n: nat, t: seq<Call>, u: seq<Call>, exited: bool)
      requires Begun(root, pid, fd, n, t) && Waited(t, u, pid, exited)
      ensures pid != self && n < |u| && Fits(root, u, n + 1)
      ensures !exited ==> Begun(root, pid, fd, n, u) && (Killed(fd, n, t) ==> Attempted(root, pid, fd, n, u, Survived))
      ensures exited ==> Attempted(root, pid, fd, n, u, Ended)
    {
      BegunGoesOn(root, pid, fd, n, t, u);
      if Killed(fd, n, t) {
        var k :| n + 3 < k < |t| && Sends(t, k, fd, KILL) && t[k].sent != Denied;
        assert u[k] == t[k];
        assert Sends(u, k, fd, KILL);
      }
      hide Fits, Rechecks, SignalsRechecked, Sends, SkippedBy;
    }

    lemma BegunRechecks(root: string, pid: int, fd: int, n: nat, t: seq<Call>, u: seq<Call>)
      requires Begun(root, pid, fd, n, t) && t <= u && |u| == |t| + 2 && Rechecks(u, |t|, pid)
      ensures Begun(root, pid, fd, n, u) && Fits(root, u, n + 1)
      ensures !Fits(root, u, |t|) ==> Attempted(root, pid, fd, n, u, Skipped)
    {
      BegunGoesOn(root, pid, fd, n, t, u);
      hide Fits, SignalsRechecked, Sends;
    }

    lemma BegunKills(root: string, pid: int, fd: int, n: nat, t: seq<Call>, u: seq<Call>, sent: Sent)
      requires Begun(root, pid, fd, n, t) && Rechecks(t, |t| - 2, pid) && Fits(root, t, |t| - 2)
      requires u == t + [Signalled(fd, KILL, sent)]
      ensures Begun(root, pid, fd, n, u) && Fits(root, u, n + 1)
      ensures sent == Denied ==> Attempted(root, pid, fd, n, u, SignalFailed)
      ensures sent != Denied ==> Killed(fd, n, u)
    {
      RechecksLast(root, pid, t, u);
      BegunGoesOn(root, pid, fd, n, t, u);
      assert Sends(u, |t|, fd, KILL);
      hide Fits, Rechecks, SignalsRechecked, Sends, SkippedBy;
    }

    // recovery.go: a recheck, then the pidfd path where it fits.
    method TerminateInvisibleHolder(root: string, pid: int) returns (verdict: Verdict, ghost pinned: int)
      requires kernel.Valid()
      modifies kernel
      ensures kernel.Valid() && Later(old(kernel.world), kernel.world)
      ensures OnlySignals(old(kernel.log), kernel.log, pinned)
      ensures kernel.log != old(kernel.log) || verdict == Ended ==> Pinned(root, pid, pinned, kernel.world)
      ensures verdict == Ended ==> kernel.world[pinned].life == Gone
      ensures verdict != Refused && old(kernel.trace) <= kernel.trace
      ensures verdict == Skipped && pid != self ==> SkippedBy(root, pid, kernel.trace)
      ensures pid == self ==> verdict == Skipped && kernel.trace == old(kernel.trace)
      ensures pid != self ==>
                && Rechecks(kernel.trace, |old(kernel.trace)|, pid)
                && if Fits(root, kernel.trace, |old(kernel.trace)|) then
                     Attempted(root, pid, pinned, |old(kernel.trace)| + 2, kernel.trace, verdict)
                   else
                     verdict == Skipped && |kernel.trace| == |old(kernel.trace)| + 2
      ensures verdict == Survived && killGrace > 0 ==> exists i :: Holds(kernel.world, i, pid)
    {
      hide IsInvisibleHolder, IsTarget, TargetThroughout, Later, Fits;
      ghost var start, n := kernel.world, |kernel.trace|;
      pinned := -1;
      var match_ := LiveInvisibleHolderMatch(root, pid);
      if !match_ {
        return Skipped, pinned;
      }
      ghost var checked, t := kernel.world, kernel.trace;
      verdict, pinned := TerminateViaPidfd(root, pid);
      LaterTrans(start, checked, kernel.world);
      FitsLasts(root, t, kernel.trace, n);
    }

    ghost predicate Pinned(root: string, pid: int, i: int, w: World) {
      0 <= i < |w| && w[i].pid == pid && IsTarget(root, w[i])
    }

    // From log position n on, every signal reached a target.
    ghost predicate SignalsHitTargets(root: string, log: seq<Delivery>, n: nat, w: World) {
      forall k :: n <= k < |log| ==> 0 <= log[k].i < |w| && IsTarget(root, w[log[k].i])
    }

    // The incarnations in `dead` are targets, gone, and held these pids.
    ghost predicate DeadTargets(root: string, dead: seq<int>, pids: seq<int>, w: World) {
      && |dead| == |pids|
      && forall k :: 0 <= k < |dead| ==> Pinned(root, pids[k], dead[k], w) && w[dead[k]].life == Gone
    }

    lemma PassGoesOn(root: string, log: seq<Delivery>, n: nat, dead: seq<int>, pids: seq<int>, w: World, v: World)
      requires Later(w, v) && SignalsHitTargets(root, log, n, w) && DeadTargets(root, dead, pids, w)
      ensures SignalsHitTargets(root, log, n, v) && DeadTargets(root, dead, pids, v)
    {
      hide IsInvisibleHolder;
    }

    lemma PassSignals(root: string, before: seq<Delivery>, log: seq<Delivery>, n: nat, i: int, pid: int, w: World)
      requires n <= |before| && SignalsHitTargets(root, before, n, w) && OnlySignals(before, log, i)
      requires log != before ==> Pinned(root, pid, i, w)
      ensures |before| <= |log| && SignalsHitTargets(root, log, n, w)
    {
      hide IsTarget;
    }

    // recovery.go: a young pidfile whose process is alive. One whose process
    // has died gives no grace.
    method NewbornDaemonInStartupGrace(lock: Option<LockInfo>, now: int) returns (newborn: bool)
      requires kernel.Valid()
      modifies kernel`world, kernel`trace
      ensures old(kernel.trace) <= kernel.trace
      ensures kernel.Valid() && Later(old(kernel.world), kernel.world)
      ensures newborn ==> Young(lock, now) && exists i :: Holds(kernel.world, i, lock.value.pid)
      ensures Young(lock, now) && !newborn ==> GoneSince(old(kernel.world), kernel.world, lock.value.pid)
    {
      LaterRefl(kernel.world);
      if lock == None || lock.value.pid <= 0 || lock.value.startedAt <= 0 {
        return false;
      }
      var alive := kernel.IsProcessAlive(lock.value.pid);
      if !alive {
        VacantMeansGone(old(kernel.world), kernel.world, lock.value.pid);
        return false;
      }
      return now - lock.value.startedAt < STARTUP_GRACE;
    }

    // recovery.go: with a newborn daemon about, nobody is signalled; otherwise
    // every holder found in the scan is gone after. A young pidfile that gave
    // no grace names a process that is gone.
    method KillInvisibleHolderProcs(root: string, scan: seq<Snapshot>, lock: Option<LockInfo>, now: int)
      returns (killed: int, verdict: Verdict, ghost newborn: bool, ghost dead: seq<int>, ghost pids: seq<int>,
               ghost tried: seq<int>, ghost skips: seq<int>)
      requires kernel.Valid()
      requires forall j, k :: 0 <= j < k < |scan| ==> scan[j].pid != scan[k].pid
      modifies kernel
      ensures kernel.Valid() && Later(old(kernel.world), kernel.world)
      ensures |old(kernel.log)| <= |kernel.log| && kernel.log[..|old(kernel.log)|] == old(kernel.log)
      ensures SignalsHitTargets(root, kernel.log, |old(kernel.log)|, kernel.world)
      ensures newborn ==> Young(lock, now) && kernel.log == old(kernel.log)
      ensures Young(lock, now) && !newborn ==> GoneSince(old(kernel.world), kernel.world, lock.value.pid)
      ensures killed == |dead| && DeadTargets(root, dead, pids, kernel.world)
      ensures forall j, k :: 0 <= j < k < |dead| ==> dead[j] != dead[k]
      ensures tried <= Candidates(root, scan, newborn) && forall p :: p in pids ==> p in tried
      ensures verdict == Ended ==> tried == Candidates(root, scan, newborn)
      ensures old(kernel.trace) <= kernel.trace
      ensures PassShows(root, |old(kernel.trace)|, kernel.trace, tried, skips)
      ensures verdict == Ended ==> killed + |skips| == |tried|
      ensures verdict != Ended ==> killed + |skips| + 1 == |tried| && verdict in {Unsupported, SignalFailed, Survived}
    {
      hide IsTarget, OnlySignals, SignalsHitTargets, DeadTargets, Candidates, OneHolder;
      ghost var start := kernel.world;
      var spared := NewbornDaemonInStartupGrace(lock, now);
      newborn := spared;
      ghost var probed := kernel.world;
      killed, verdict, dead, pids, tried, skips := EndHolders(root, scan, spared);
      LaterTrans(start, probed, kernel.world);
    }

    // The pass over a scan. The scan is stale by now; only what each recheck
    // finds decides. No two holders are counted for one.
    method EndHolders(root: string, scan: seq<Snapshot>, newborn: bool)
      returns (killed: int, verdict: Verdict, ghost dead: seq<int>, ghost pids: seq<int>, ghost tried: seq<int>,
               ghost skips: seq<int>)
      requires kernel.Valid()
      requires forall j, k :: 0 <= j < k < |scan| ==> scan[j].pid != scan[k].pid
      modifies kernel
      ensures kernel.Valid() && Later(old(kernel.world), kernel.world)
      ensures |old(kernel.log)| <= |kernel.log| && kernel.log[..|old(kernel.log)|] == old(kernel.log)
      ensures SignalsHitTargets(root, kernel.log, |old(kernel.log)|, kernel.world)
      ensures newborn ==> kernel.log == old(kernel.log)
      ensures killed == |dead| && DeadTargets(root, dead, pids, kernel.world)
      ensures forall j, k :: 0 <= j < k < |dead| ==> dead[j] != dead[k]
      ensures tried <= Candidates(root, scan, newborn) && forall p :: p in pids ==> p in tried
      ensures verdict == Ended ==> tried == Candidates(root, scan, newborn)
      ensures old(kernel.trace) <= kernel.trace
      ensures PassShows(root, |old(kernel.trace)|, kernel.trace, tried, skips)
      ensures verdict == Ended ==> killed + |skips| == |tried|
      ensures verdict != Ended ==> killed + |skips| + 1 == |tried| && verdict in {Unsupported, SignalFailed, Survived}
    {
      hide IsInvisibleHolder, IsTarget, Later, OnlySignals, Attempted, Rechecks, SkippedBy, Fits, PassShows;
      killed, dead, pids, tried, skips := 0, [], [], [], [];
      ghost var start, n, m := kernel.world, |kernel.log|, |kernel.trace|;
      PassBegins(root, kernel.trace);
      LaterRefl(start);
      for k := 0 to |scan|
        invariant kernel.Valid() && Later(start, kernel.world)
        invariant n <= |kernel.log| && kernel.log[..n] == old(kernel.log)
        invariant SignalsHitTargets(root, kernel.log, n, kernel.world)
        invariant newborn ==> kernel.log == old(kernel.log)
        invariant killed == |dead| && DeadTargets(root, dead, pids, kernel.world)
        invariant forall p :: p in pids ==> exists j :: 0 <= j < k && scan[j].pid == p
        invariant forall i, j :: 0 <= i < j < |pids| ==> pids[i] != pids[j]
        invariant tried == Candidates(root, scan[..k], newborn) && forall p :: p in pids ==> p in tried
        invariant old(kernel.trace) <= kernel.trace && PassShows(root, m, kernel.trace, tried, skips)
        invariant killed + |skips| == |tried|
      {
        var p := scan[k];
        CandidatesOneMore(root, scan, k, newborn);
        if p.pid != self && IsInvisibleHolder(paths, root, p.cmdline, p.environ) && !newborn {
          ghost var before, log, trace := kernel.world, kernel.log, kernel.trace;
          ghost var pinned;
          verdict, pinned := TerminateInvisibleHolder(root, p.pid);
          PassShowsMore(root, m, trace, kernel.trace, tried, skips, p.pid, verdict == Skipped);
          tried := tried + [p.pid];
          skips := if verdict == Skipped then skips + [|kernel.trace|] else skips;
          LaterTrans(start, before, kernel.world);
          PassGoesOn(root, log, n, dead, pids, before, kernel.world);
          PassSignals(root, log, kernel.log, n, pinned, p.pid, kernel.world);
          LogGrows(log, kernel.log, pinned);
          if verdict != Ended && verdict != Skipped {
            DeadAreDistinct(root, dead, pids, kernel.world);
            CandidatesPrefix(root, scan, k + 1, newborn);
            return killed, verdict, dead, pids, tried, skips;
          }
          if verdict == Ended {
            assert forall i :: 0 <= i < |pids| ==> pids[i] in pids;
            killed := killed + 1;
            dead, pids := dead + [pinned], pids + [p.pid];
          }
        }
      }
      DeadAreDistinct(root, dead, pids, kernel.world);
      assert scan[..|scan|] == scan;
      verdict := Ended;
    }

    // What the trace from position n on says of a pass: each pid tried had its
    // recheck, and every skip, known by where it ends, has its reason.
    ghost predicate PassShows(root: string, n: nat, t: seq<Call>, tried: seq<int>, skips: seq<int>) {
      && (forall p :: p in tried ==> exists k :: n <= k && Rechecks(t, k, p))
      && (forall i :: i in skips ==> n < i <= |t| && SkipEnds(root, tried, t, i))
      && (forall i, j :: 0 <= i < j < |skips| ==> skips[i] < skips[j])
    }

    ghost predicate SkipEnds(root: string, tried: seq<int>, t: seq<Call>, i: int)
      requires 0 <= i <= |t|
    {
      exists p :: p in tried && SkippedBy(root, p, t[..i])
    }

    lemma PassBegins(root: string, t: seq<Call>)
      ensures PassShows(root, |t|, t, [], [])
    {
    }

    lemma PassShowsMore(root: string, n: nat, t: seq<Call>, u: seq<Call>, tried: seq<int>, skips: seq<int>,
                        pid: int, skipped: bool)
      requires n <= |t| && t <= u && PassShows(root, n, t, tried, skips)
      requires Rechecks(u, |t|, pid) && (skipped ==> SkippedBy(root, pid, u))
      ensures PassShows(root, n, u, tried + [pid], if skipped then skips + [|u|] else skips)
    {
      hide SkippedBy;
      assert forall i :: 0 <= i < |skips| ==> skips[i] in skips;
      var more := if skipped then skips + [|u|] else skips;
      forall p | p in tried + [pid]
        ensures exists k :: n <= k && Rechecks(u, k, p)
      {
        if p != pid {
          var k :| n <= k && Rechecks(t, k, p);
          assert u[k] == t[k] && u[k + 1] == t[k + 1];
          assert Rechecks(u, k, p);
        }
      }
      forall i | i in more
        ensures n < i <= |u| && SkipEnds(root, tried + [pid], u, i)
      {
        if i in skips {
          assert u[..i] == t[..i];
          var p :| p in tried && SkippedBy(root, p, t[..i]);
          assert p in tried + [pid];
        } else {
          assert u[..i] == u && pid in tried + [pid];
        }
      }
    }

    // The pids of a scan the pass goes after, in order.
    ghost function Candidates(root: string, scan: seq<Snapshot>, newborn: bool): seq<int> {
      if scan == [] then []
      else
        var p := scan[|scan| - 1];
        Candidates(root, scan[..|scan| - 1], newborn)
        + if p.pid != self && IsInvisibleHolder(paths, root, p.cmdline, p.environ) && !newborn then [p.pid] else []
    }

    lemma CandidatesOneMore(root: string, scan: seq<Snapshot>, k: nat, newborn: bool)
      requires k < |scan|
      ensures Candidates(root, scan[..k + 1], newborn) == Candidates(root, scan[..k], newborn)
           + if scan[k].pid != self && IsInvisibleHolder(paths, root, scan[k].cmdline, scan[k].environ) && !newborn
             then [scan[k].pid] else []
    {
      hide IsInvisibleHolder;
      assert scan[..k + 1][..k] == scan[..k];
    }

    lemma {:induction false} CandidatesPrefix(root: string, scan: seq<Snapshot>, k: nat, newborn: bool)
      requires k <= |scan|
      ensures Candidates(root, scan[..k], newborn) <= Candidates(root, scan, newborn)
      decreases |scan| - k
    {
      hide IsInvisibleHolder, Candidates;
      if k < |scan| {
        CandidatesOneMore(root, scan, k, newborn);
        CandidatesPrefix(root, scan, k + 1, newborn);
      } else {
        assert scan[..k] == scan;
      }
    }

    lemma LogGrows(before: seq<Delivery>, log: seq<Delivery>, i: int)
      requires OnlySignals(before, log, i)
      ensures |before| <= |log| && log[..|before|] == before
    {
    }

    lemma DeadAreDistinct(root: string, dead: seq<int>, pids: seq<int>, w: World)
      requires DeadTargets(root, dead, pids, w)
      requires forall i, j :: 0 <= i < j < |pids| ==> pids[i] != pids[j]
      ensures forall i, j :: 0 <= i < j < |dead| ==> dead[i] != dead[j]
    {
      hide IsTarget;
    }

    // ---- The recorded daemon -----------------------------------------------------------

    // Whoever held the recorded pid from w to v is the recorded daemon.
    ghost predicate RecordedThroughout(w: World, v: World, info: LockInfo, root: string) {
      forall i :: 0 <= i < |w| && Holds(v, i, info.pid) ==> IsRecordedDaemon(paths, selfExe, info, root, v[i].facts)
    }

    // The reads from position k of a trace identify the recorded daemon: start
    // time, command line, and then the executable or the environment.
    ghost predicate Identifies(info: LockInfo, root: string, t: seq<Call>, k: int) {
      && info.start > 0 && 0 <= k && k + 2 < |t| && t[k].Read? && t[k + 1].Read? && t[k + 2].Read?
      && t[k].facts.Some? && t[k].facts.value.start == info.start
      && t[k + 1].facts.Some? && CmdlineWorkdirMatches(paths, t[k + 1].facts.value.cmdline, root)
      && (|| (t[k + 2].facts.Some? && t[k + 2].facts.value.exe != ""
               && IsSelfBinary(paths, selfExe, t[k + 2].facts.value.exe))
          || (k + 3 < |t| && t[k + 3].Read? && t[k + 3].facts.Some?
              && HasDaemonEnvMarker(t[k + 3].facts.value.environ)))
    }

    // After `before` the client has only read entries of this pid.
    ghost predicate OnlyReads(before: seq<Call>, after: seq<Call>, pid: int) {
      && before <= after
      && forall k :: |before| <= k < |after| ==> after[k].Read? && after[k].pid == pid
    }

    ghost predicate AllCameBack(before: seq<Call>, after: seq<Call>) {
      forall k :: |before| <= k < |after| ==> after[k].Read? && after[k].facts.Some?
    }

    // The recorded daemon runs and has held its pid since w.
    ghost predicate RecordedRuns(w: World, v: World, info: LockInfo, root: string) {
      exists i :: 0 <= i < |w| && Holds(v, i, info.pid) && v[i].life == Running
        && IsRecordedDaemon(paths, selfExe, info, root, v[i].facts)
    }

    // lock.go: up to four reads of /proc, each on its own. A recorded daemon
    // that runs all along is recognised unless a read was refused.
    method VerifyDaemonIdentity(info: LockInfo, root: string) returns (ok: bool)
      requires kernel.Valid()
      modifies kernel`world, kernel`trace
      ensures kernel.Valid() && Later(old(kernel.world), kernel.world)
      ensures ok ==> RecordedThroughout(old(kernel.world), kernel.world, info, root)
      ensures OnlyReads(old(kernel.trace), kernel.trace, info.pid) && |kernel.trace| <= |old(kernel.trace)| + 4
      ensures ok <==> Identifies(info, root, kernel.trace, |old(kernel.trace)|)
      ensures AllCameBack(old(kernel.trace), kernel.trace) ==>
                RecordedRuns(old(kernel.world), kernel.world, info, root) ==> ok
    {
      hide CmdlineWorkdir, HasDaemonEnvMarker, IsSelfBinary, Shows, Later, OneHolder;
      ghost var w0 := kernel.world;
      LaterRefl(w0);
      if info.start <= 0 {
        return false;
      }
      var stat := kernel.ReadFacts(info.pid);
      ghost var w1 := kernel.world;
      assert kernel.trace[|old(kernel.trace)|] == Read(info.pid, stat);
      if stat == None || stat.value.start != info.start {
        RunningShows(w0, w1, w1, info.pid, stat);
        return false;
      }
      var first := kernel.ReadFacts(info.pid);
      ghost var w2 := kernel.world;
      LaterTrans(w0, w1, w2);
      assert kernel.trace[|old(kernel.trace)| + 1] == Read(info.pid, first);
      if first == None || !CmdlineWorkdirMatches(paths, first.value.cmdline, root) {
        RunningShows(w0, w2, w2, info.pid, first);
        return false;
      }
      var second := kernel.ReadFacts(info.pid);
      ghost var w3 := kernel.world;
      LaterTrans(w0, w2, w3);
      LaterTrans(w1, w2, w3);
      assert kernel.trace[|old(kernel.trace)| + 2] == Read(info.pid, second);
      if second.Some? && second.value.exe != "" && IsSelfBinary(paths, selfExe, second.value.exe) {
        LaterRefl(w3);
        Recorded(w0, w1, w2, w3, w3, info, root, stat.value, first.value, second.value);
        return true;
      }
      var third := kernel.ReadFacts(info.pid);
      ghost var w4 := kernel.world;
      LaterTrans(w0, w3, w4);
      LaterTrans(w1, w3, w4);
      LaterTrans(w2, w3, w4);
      assert kernel.trace[|old(kernel.trace)| + 3] == Read(info.pid, third);
      ok := third.Some? && HasDaemonEnvMarker(third.value.environ);
      if ok {
        LaterRefl(w4);
        Recorded(w0, w1, w2, w4, w4, info, root, stat.value, first.value, third.value);
      } else {
        RunningShows(w0, w3, w4, info.pid, second);
        LaterRefl(w4);
        RunningShows(w0, w4, w4, info.pid, third);
      }
    }

    // Whoever runs now and has held the pid since w0 showed its own facts.
    lemma RunningShows(w0: World, w: World, v: World, pid: int, facts: Option<Facts>)
      requires |w0| <= |w| && (w == v || Later(w, v)) && (facts.Some? ==> Shows(w, pid, facts.value))
      ensures facts.Some? ==>
                forall i :: 0 <= i < |w0| && Holds(v, i, pid) && v[i].life == Running ==> v[i].facts == facts.value
    {
      hide Shows;
      LaterRefl(v);
      if facts.Some? {
        forall i | 0 <= i < |w0| && Holds(v, i, pid) && v[i].life == Running
          ensures v[i].facts == facts.value
        {
          RunningShown(w, v, pid, facts.value, i);
        }
      }
    }

    // Three readings, none of them of somebody else if the pid was kept.
    lemma Recorded(w0: World, w1: World, w2: World, w3: World, now: World, info: LockInfo, root: string,
                   stat: Facts, first: Facts, last: Facts)
      requires |w0| <= |w1| && |w0| <= |w2| && |w0| <= |w3|
      requires Later(w1, now) && Later(w2, now) && Later(w3, now)
      requires Shows(w1, info.pid, stat) && Shows(w2, info.pid, first) && Shows(w3, info.pid, last)
      requires info.start > 0 && stat.start == info.start && CmdlineWorkdirMatches(paths, first.cmdline, root)
      requires (last.exe != "" && IsSelfBinary(paths, selfExe, last.exe)) || HasDaemonEnvMarker(last.environ)
      ensures RecordedThroughout(w0, now, info, root)
    {
      hide Shows, Later, IsSelfBinary, Split;
      forall i | 0 <= i < |w0| && Holds(now, i, info.pid)
        ensures IsRecordedDaemon(paths, selfExe, info, root, now[i].facts)
      {
        ShownStillHolds(w1, now, info.pid, stat, i);
        ShownStillHolds(w2, now, info.pid, first, i);
        ShownStillHolds(w3, now, info.pid, last, i);
      }
    }

    lemma PinnedIsRecorded(u: World, v: World, w: World, info: LockInfo, root: string, i: int)
      requires RecordedThroughout(u, v, info, root) && Later(u, v) && Later(v, w)
      requires 0 <= i < |u| && u[i].pid == info.pid && i < |w| && w[i].life != Gone
      ensures IsRecordedDaemon(paths, selfExe, info, root, w[i].facts)
    {
      hide IsRecordedDaemon;
      LaterKeeps(v, w, i);
      assert Holds(v, i, info.pid);
    }

    // Where the identity was verified from position k on, SIGTERM comes next.
    ghost predicate SendsAfter(t: seq<Call>, k: int, fd: int) {
      Sends(t, k + 3, fd, TERM) || Sends(t, k + 4, fd, TERM)
    }

    // The trace ends in a verification, from k on, that failed, and a probe that
    // found the pid taken.
    ghost predicate RefusedFrom(info: LockInfo, root: string, t: seq<Call>, k: int) {
      && 0 <= k < |t| && t[|t| - 1] == Probed(info.pid, true)
      && OnlyReads(t[..k], t[..|t| - 1], info.pid) && !Identifies(info, root, t[..|t| - 1], k)
    }

    // What the trace from position n on says of ending a recorded daemon.
    ghost predicate StaleShows(info: LockInfo, root: string, fd: int, n: int, t: seq<Call>, verdict: Verdict) {
      && 0 <= n <= |t|
      && (Identifies(info, root, t, n) ==> SendsAfter(t, n, fd))
      && (verdict == Refused ==> exists k :: n <= k && RefusedFrom(info, root, t, k))
      && (verdict == SignalFailed ==>
          t != [] && t[|t| - 1].Signalled? && t[|t| - 1].fd == fd && t[|t| - 1].sent == Denied)
      && (verdict == Survived ==>
          SendsAfter(t, n, fd) && exists k :: n <= k && Sends(t, k, fd, KILL) && t[k].sent != Denied)
      && SignalsVerified(info, root, n, t)
      && (forall k :: n <= k < |t| && t[k].Probed? && !t[k].alive ==> k == |t| - 1 && verdict == Ended)
    }

    // Every signal comes right behind the reads that identify the daemon.
    ghost predicate SignalsVerified(info: LockInfo, root: string, n: int, t: seq<Call>) {
      forall k :: 0 <= n <= k < |t| && t[k].Signalled? ==> VerifiedAt(info, root, t[..k], k)
    }

    ghost predicate VerifiedAt(info: LockInfo, root: string, t: seq<Call>, k: int) {
      Identifies(info, root, t, k - 3) || Identifies(info, root, t, k - 4)
    }

    ghost predicate NoneFree(n: int, t: seq<Call>) {
      forall k :: 0 <= n <= k < |t| && t[k].Probed? ==> t[k].alive
    }

    // lock.go: the same order of steps for the daemon a pidfile records.
    // Success in any of its forms means that the pinned incarnation is gone;
    // any other verdict has its reason in the trace.
    method TerminateStaleViaPidfd(fd: int, info: LockInfo, root: string) returns (verdict: Verdict)
      requires kernel.Valid() && 0 <= fd < |kernel.world| && kernel.world[fd].pid == info.pid
      modifies kernel
      ensures kernel.Valid() && Later(old(kernel.world), kernel.world)
      ensures OnlySignals(old(kernel.log), kernel.log, fd)
      ensures kernel.log != old(kernel.log) ==>
                IsRecordedDaemon(paths, selfExe, info, root, old(kernel.world)[fd].facts)
      ensures verdict == Ended ==> kernel.world[fd].life == Gone
      ensures verdict == Survived && kernel.world[fd].life == Running ==>
                kernel.log == old(kernel.log) + [Delivery(TERM, fd), Delivery(KILL, fd)]
      ensures verdict in {Ended, Refused, SignalFailed, Survived} && old(kernel.trace) <= kernel.trace
      ensures StaleShows(info, root, fd, |old(kernel.trace)|, kernel.trace, verdict)
      ensures verdict == Survived && killGrace > 0 ==> exists i :: Holds(kernel.world, i, info.pid)
      ensures Identifies(info, root, kernel.trace, |old(kernel.trace)|) && verdict != SignalFailed
              && kernel.world[fd].life == Running ==>
                old(kernel.log) + [Delivery(TERM, fd)] <= kernel.log
    {
      hide IsRecordedDaemon, RecordedThroughout, GoneSince, Later, OneHolder, Identifies, StaleShows, StaleBegun;
      ghost var start, t0, log := kernel.world, kernel.trace, kernel.log;
      var ok := VerifyDaemonIdentity(info, root);
      ghost var verified, t1 := kernel.world, kernel.trace;
      LaterKeeps(start, verified, fd);
      if !ok {
        verdict := RefusedUnlessGone(fd, info);
        LaterTrans(start, verified, kernel.world);
        StaleRefused(info, root, fd, t0, t1, kernel.trace, verdict);
        return;
      }
      var sent := kernel.Send(fd, TERM);
      ghost var termed, t2 := kernel.world, kernel.trace;
      StaleBegins(info, root, fd, t0, t1, t2, sent);
      LaterTrans(start, verified, termed);
      LaterKeeps(verified, termed, fd);
      if sent == NoSuchProcess {
        return Ended;
      }
      PinnedIsRecorded(start, verified, termed, info, root, fd);
      if sent == Denied {
        return SignalFailed;
      }
      verdict := EscalateStale(fd, info, root, |t0|);
      LaterTrans(start, termed, kernel.world);
      LaterKeeps(termed, kernel.world, fd);
      assert log + [Delivery(TERM, fd)] + [Delivery(KILL, fd)] == log + [Delivery(TERM, fd), Delivery(KILL, fd)];
    }

    // The second half: wait, verify again, SIGKILL, wait.
    method EscalateStale(fd: int, info: LockInfo, root: string, ghost n: nat) returns (verdict: Verdict)
      requires kernel.Valid() && 0 <= fd < |kernel.world| && kernel.world[fd].pid == info.pid
      requires StaleBegun(info, root, fd, n, kernel.trace)
      modifies kernel
      ensures kernel.Valid() && Later(old(kernel.world), kernel.world)
      ensures kernel.log == old(kernel.log) || (kernel.log == old(kernel.log) + [Delivery(KILL, fd)]
                                                && old(kernel.world)[fd].life == Running)
      ensures verdict == Ended ==> kernel.world[fd].life == Gone
      ensures verdict == Survived && kernel.world[fd].life == Running ==>
                kernel.log == old(kernel.log) + [Delivery(KILL, fd)]
      ensures verdict in {Ended, Refused, SignalFailed, Survived} && old(kernel.trace) <= kernel.trace
      ensures StaleShows(info, root, fd, n, kernel.trace, verdict)
      ensures verdict == Survived && killGrace > 0 ==> exists i :: Holds(kernel.world, i, info.pid)
    {
      hide IsRecordedDaemon, RecordedThroughout, GoneSince, Later, OneHolder, Identifies, StaleShows, StaleBegun;
      ghost var start, t2 := kernel.world, kernel.trace;
      var exited := kernel.WaitForExit(info.pid, grace);
      ghost var waited, t3 := kernel.world, kernel.trace;
      StaleWaits(info, root, fd, n, t2, t3, exited);
      LaterKeeps(start, waited, fd);
      if exited {
        PinnedIsGone(start, waited, info.pid, fd);
        return Ended;
      }
      var ok := VerifyDaemonIdentity(info, root);
      ghost var rechecked, t4 := kernel.world, kernel.trace;
      StaleReads(info, root, fd, n, t3, t4);
      LaterTrans(start, waited, rechecked);
      LaterKeeps(waited, rechecked, fd);
      if !ok {
        verdict := RefusedUnlessGone(fd, info);
        LaterTrans(start, rechecked, kernel.world);
        StaleThenRefused(info, root, fd, n, t3, t4, kernel.trace, verdict);
        return;
      }
      var sent := kernel.Send(fd, KILL);
      ghost var killed, t5 := kernel.world, kernel.trace;
      StaleKills(info, root, fd, n, t3, t4, t5, sent);
      LaterTrans(start, rechecked, killed);
      LaterKeeps(rechecked, killed, fd);
      if sent == Denied {
        return SignalFailed;
      }
      exited := kernel.WaitForExit(info.pid, killGrace);
      StaleWaits(info, root, fd, n, t5, kernel.trace, exited);
      LaterTrans(start, killed, kernel.world);
      LaterKeeps(killed, kernel.world, fd);
      if exited {
        PinnedIsGone(killed, kernel.world, info.pid, fd);
        return Ended;
      }
      return Survived;
    }

    // The daemon was verified and the kernel took SIGTERM.
    ghost predicate StaleBegun(info: LockInfo, root: string, fd: int, n: int, t: seq<Call>) {
      && 0 <= n && Identifies(info, root, t, n) && SendsAfter(t, n, fd)
      && SignalsVerified(info, root, n, t) && NoneFree(n, t)
    }

    // Signals verified and probes taken stay so when calls are added that are
    // neither, or a signal that is verified itself.
    lemma VerifiedLasts(info: LockInfo, root: string, n: nat, t: seq<Call>, u: seq<Call>)
      requires n <= |t| && t <= u && SignalsVerified(info, root, n, t) && NoneFree(n, t)
      requires forall k :: |t| <= k < |u| && u[k].Signalled? ==> VerifiedAt(info, root, u[..k], k)
      ensures SignalsVerified(info, root, n, u)
      ensures forall k :: n <= k < |t| && u[k].Probed? ==> u[k].alive
    {
      hide VerifiedAt;
      forall k | n <= k < |u| && u[k].Signalled?
        ensures VerifiedAt(info, root, u[..k], k)
      {
        if k < |t| {
          assert t[k] == u[k] && u[..k] == t[..k];
        }
      }
      assert forall k :: n <= k < |t| ==> u[k] == t[k];
    }

    lemma NothingSince(info: LockInfo, root: string, t: seq<Call>, u: seq<Call>, pid: int)
      requires OnlyReads(t, u, pid)
      ensures SignalsVerified(info, root, |t|, u) && NoneFree(|t|, u)
    {
    }

    lemma StaleRefused(info: LockInfo, root: string, fd: int, t0: seq<Call>, t1: seq<Call>, t: seq<Call>,
                       verdict: Verdict)
      requires OnlyReads(t0, t1, info.pid) && !Identifies(info, root, t1, |t0|)
      requires t == t1 + [Probed(info.pid, verdict == Refused)] && (verdict == Ended || verdict == Refused)
      ensures StaleShows(info, root, fd, |t0|, t, verdict) && !Identifies(info, root, t, |t0|)
    {
      IdentityLasts(info, root, t1, t, |t0|);
      NothingSince(info, root, t0, t1, info.pid);
      VerifiedLasts(info, root, |t0|, t1, t);
      hide Identifies, SignalsVerified;
      assert t[..|t0|] == t0 && t[..|t| - 1] == t1;
      if verdict == Refused {
        assert RefusedFrom(info, root, t, |t0|);
      }
    }

    // A probe or a signal behind the reads changes nothing of what they say.
    lemma IdentityLasts(info: LockInfo, root: string, t: seq<Call>, u: seq<Call>, k: nat)
      requires t <= u && k <= |t| && (|t| < |u| ==> !u[|t|].Read?)
      ensures Identifies(info, root, u, k) <==> Identifies(info, root, t, k)
    {
      hide CmdlineWorkdirMatches, HasDaemonEnvMarker, IsSelfBinary;
      assert forall j :: 0 <= j < |t| ==> u[j] == t[j];
    }

    lemma StaleBegins(info: LockInfo, root: string, fd: int, t0: seq<Call>, t1: seq<Call>, t2: seq<Call>, sent: Sent)
      requires OnlyReads(t0, t1, info.pid) && Identifies(info, root, t1, |t0|) && t2 == t1 + [Signalled(fd, TERM, sent)]
      requires |t1| <= |t0| + 4
      ensures StaleBegun(info, root, fd, |t0|, t2)
      ensures sent == Denied ==> StaleShows(info, root, fd, |t0|, t2, SignalFailed)
      ensures StaleShows(info, root, fd, |t0|, t2, Ended)
    {
      IdentityLasts(info, root, t1, t2, |t0|);
      IdentityNeedsReads(info, root, t1, |t0|);
      NothingSince(info, root, t0, t1, info.pid);
      assert t2[..|t1|] == t1;
      assert VerifiedAt(info, root, t2[..|t1|], |t1|) by {
        hide Identifies;
        assert |t0| == |t1| - 3 || |t0| == |t1| - 4;
      }
      VerifiedLasts(info, root, |t0|, t1, t2);
      hide Identifies, SignalsVerified;
      assert Sends(t2, |t1|, fd, TERM);
    }

    lemma IdentityNeedsReads(info: LockInfo, root: string, t: seq<Call>, k: int)
      requires Identifies(info, root, t, k)
      ensures k + 3 <= |t|
    {
    }

    lemma StaleGoesOn(info: LockInfo, root: string, fd: int, n: nat, t: seq<Call>, u: seq<Call>)
      requires StaleBegun(info, root, fd, n, t) && t <= u
      requires forall k :: |t| <= k < |u| && u[k].Signalled? ==> VerifiedAt(info, root, u[..k], k)
      ensures n < |t| && Identifies(info, root, u, n) && SendsAfter(u, n, fd) && SignalsVerified(info, root, n, u)
      ensures forall k :: n <= k < |t| && u[k].Probed? ==> u[k].alive
      ensures (forall k :: |t| <= k < |u| && u[k].Probed? ==> u[k].alive) ==> StaleBegun(info, root, fd, n, u)
    {
      IdentityNeedsReads(info, root, t, n);
      VerifiedLasts(info, root, n, t, u);
      hide SignalsVerified, VerifiedAt, CmdlineWorkdirMatches, HasDaemonEnvMarker, IsSelfBinary;
      assert forall j :: 0 <= j < |t| ==> u[j] == t[j];
    }

    // SIGKILL has been taken.
    ghost predicate StaleKilled(fd: int, n: int, t: seq<Call>) {
      exists k :: n <= k && Sends(t, k, fd, KILL) && t[k].sent != Denied
    }

    lemma StaleWaits(info: LockInfo, root: string, fd: int, n: nat, t: seq<Call>, u: seq<Call>, exited: bool)
      requires StaleBegun(info, root, fd, n, t) && Waited(t, u, info.pid, exited)
      ensures n < |t|
      ensures !exited ==> StaleBegun(info, root, fd, n, u)
      ensures !exited && StaleKilled(fd, n, t) ==> StaleShows(info, root, fd, n, u, Survived)
      ensures exited ==> StaleShows(info, root, fd, n, u, Ended)
    {
      StaleGoesOn(info, root, fd, n, t, u);
      if StaleKilled(fd, n, t) {
        var k :| n <= k && Sends(t, k, fd, KILL) && t[k].sent != Denied;
        assert u[k] == t[k];
        assert Sends(u, k, fd, KILL);
      }
      hide Identifies, SignalsVerified, SendsAfter, Sends;
    }

    lemma StaleReads(info: LockInfo, root: string, fd: int, n: nat, t: seq<Call>, u: seq<Call>)
      requires StaleBegun(info, root, fd, n, t) && OnlyReads(t, u, info.pid)
      ensures StaleBegun(info, root, fd, n, u) && n < |t|
    {
      StaleGoesOn(info, root, fd, n, t, u);
    }

    lemma StaleThenRefused(info: LockInfo, root: string, fd: int, n: nat, t3: seq<Call>, t4: seq<Call>, t: seq<Call>,
                           verdict: Verdict)
      requires StaleBegun(info, root, fd, n, t4) && n <= |t3| && OnlyReads(t3, t4, info.pid)
      requires !Identifies(info, root, t4, |t3|)
      requires t == t4 + [Probed(info.pid, verdict == Refused)] && (verdict == Ended || verdict == Refused)
      ensures StaleShows(info, root, fd, n, t, verdict)
    {
      StaleGoesOn(info, root, fd, n, t4, t);
      hide Identifies, SendsAfter, SignalsVerified;
      assert t[..|t3|] == t3 && t[..|t| - 1] == t4;
      if verdict == Refused {
        assert RefusedFrom(info, root, t, |t3|);
      }
    }

    lemma StaleKills(info: LockInfo, root: string, fd: int, n: nat, t3: seq<Call>, t4: seq<Call>,
                     t: seq<Call>, sent: Sent)
      requires StaleBegun(info, root, fd, n, t4) && n <= |t3| && OnlyReads(t3, t4, info.pid)
      requires Identifies(info, root, t4, |t3|) && |t4| <= |t3| + 4 && t == t4 + [Signalled(fd, KILL, sent)]
      ensures StaleBegun(info, root, fd, n, t)
      ensures sent == Denied ==> StaleShows(info, root, fd, n, t, SignalFailed)
      ensures sent != Denied ==> StaleKilled(fd, n, t)
    {
      IdentityNeedsReads(info, root, t4, |t3|);
      assert t[..|t4|] == t4;
      assert VerifiedAt(info, root, t[..|t4|], |t4|) by {
        hide Identifies;
        assert |t3| == |t4| - 3 || |t3| == |t4| - 4;
      }
      StaleGoesOn(info, root, fd, n, t4, t);
      hide Identifies, SendsAfter, SignalsVerified;
      assert Sends(t, |t4|, fd, KILL);
    }

    // The pid is free: the daemon went by itself. It is not: refuse to signal.
    method RefusedUnlessGone(fd: int, info: LockInfo) returns (verdict: Verdict)
      requires kernel.Valid() && 0 <= fd < |kernel.world| && kernel.world[fd].pid == info.pid
      modifies kernel`world, kernel`trace
      ensures kernel.Valid() && Later(old(kernel.world), kernel.world)
      ensures verdict == Ended || verdict == Refused
      ensures verdict == Ended ==> kernel.world[fd].life == Gone
      ensures verdict == Refused ==> exists i :: Holds(kernel.world, i, info.pid)
      ensures kernel.trace == old(kernel.trace) + [Probed(info.pid, verdict == Refused)]
    {
      var alive := kernel.IsProcessAlive(info.pid);
      if !alive {
        VacantMeansGone(old(kernel.world), kernel.world, info.pid);
        return Ended;
      }
      return Refused;
    }

    // lock.go: the daemon recorded in the pidfile, when there is a record.
    // Success leaves nobody that held the recorded pid at the call, and only
    // the recorded daemon of this project was ever signalled. A verified daemon
    // is pinned; where it is not verified nothing more is done.
    method KillStaleDaemon(info: Option<LockInfo>, root: string) returns (verdict: Verdict, ghost pinned: int)
      requires kernel.Valid()
      modifies kernel
      ensures kernel.Valid() && Later(old(kernel.world), kernel.world)
      ensures OnlySignals(old(kernel.log), kernel.log, pinned)
      ensures kernel.log != old(kernel.log) ==>
                info.Some? && 0 <= pinned < |kernel.world| && kernel.world[pinned].pid == info.value.pid
                && IsRecordedDaemon(paths, selfExe, info.value, root, kernel.world[pinned].facts)
      ensures verdict == Ended && info.Some? && info.value.pid > 0 ==>
                GoneSince(old(kernel.world), kernel.world, info.value.pid)
      ensures info == None || info.value.pid <= 0 ==> verdict == Ended && kernel.trace == old(kernel.trace)
      ensures info.Some? && info.value.pid > 0 ==>
                StalePass(info.value, root, |old(kernel.trace)|, pinned, kernel.trace, verdict)
    {
      hide IsRecordedDaemon, RecordedThroughout, Later, GoneSince, OneHolder, Identifies, StaleShows, StalePass;
      pinned := -1;
      ghost var start, t0 := kernel.world, kernel.trace;
      LaterRefl(start);
      if info == None || info.value.pid <= 0 {
        return Ended, pinned;
      }
      var pid := info.value.pid;
      var alive := kernel.IsProcessAlive(pid);
      ghost var probed, t1 := kernel.world, kernel.trace;
      if !alive {
        VacantMeansGone(start, probed, pid);
        PassEndsAtProbe(info.value, root, pinned, t0, t1);
        return Ended, pinned;
      }
      var ok := VerifyDaemonIdentity(info.value, root);
      LaterTrans(start, probed, kernel.world);
      if !ok {
        PassEndsRefused(info.value, root, pinned, t0, t1, kernel.trace);
        return Refused, pinned;
      }
      ghost var verified, t2 := kernel.world, kernel.trace;
      var fd := kernel.Open(pid);
      LaterTrans(start, verified, kernel.world);
      ghost var t3 := kernel.trace;
      if fd == None {
        PassOpens(info.value, root, pinned, t0, t1, t2, t3, fd, t3, Unsupported);
        return Unsupported, pinned;
      }
      pinned := fd.value;
      ghost var held := kernel.world;
      verdict := TerminateStaleViaPidfd(fd.value, info.value, root);
      PassOpens(info.value, root, pinned, t0, t1, t2, t3, fd, kernel.trace, verdict);
      LaterKeeps(held, kernel.world, pinned);
      LaterTrans(start, held, kernel.world);
      if verdict == Ended {
        OnlyHolderGone(start, held, kernel.world, pid, pinned);
      }
    }

    // What the trace from position n on says of a whole pass over a record: a
    // probe first; a dead pid ends it; else a verification; where that fails
    // the pass is refused, where it holds the pid is pinned, and the rest is as
    // ending a pinned daemon goes.
    ghost predicate StalePass(info: LockInfo, root: string, n: int, fd: int, t: seq<Call>, verdict: Verdict) {
      && 0 <= n < |t| && t[n].Probed? && t[n].pid == info.pid
      && if !t[n].alive then verdict == Ended && |t| == n + 1
         else if !Identifies(info, root, t, n + 1) then verdict == Refused && OnlyReads(t[..n + 1], t, info.pid)
         else exists k :: n + 4 <= k <= n + 5 && PinsAt(info, root, fd, k, t, verdict)
    }

    ghost predicate PinsAt(info: LockInfo, root: string, fd: int, k: int, t: seq<Call>, verdict: Verdict) {
      && 0 <= k < |t| && t[k] == Opened(info.pid, if verdict == Unsupported then None else Some(fd))
      && if verdict == Unsupported then |t| == k + 1 else StaleShows(info, root, fd, k + 1, t, verdict)
    }

    lemma PassEndsAtProbe(info: LockInfo, root: string, fd: int, t0: seq<Call>, t: seq<Call>)
      requires t == t0 + [Probed(info.pid, false)]
      ensures StalePass(info, root, |t0|, fd, t, Ended)
    {
    }

    lemma PassEndsRefused(info: LockInfo, root: string, fd: int, t0: seq<Call>, t1: seq<Call>, t: seq<Call>)
      requires t1 == t0 + [Probed(info.pid, true)] && OnlyReads(t1, t, info.pid) && !Identifies(info, root, t, |t1|)
      ensures StalePass(info, root, |t0|, fd, t, Refused)
    {
      hide Identifies;
      assert t[|t0|] == t1[|t0|];
      assert t[..|t0| + 1] == t1;
    }

    lemma PassOpens(info: LockInfo, root: string, fd: int, t0: seq<Call>, t1: seq<Call>, t2: seq<Call>, t3: seq<Call>,
                    got: Option<int>, t: seq<Call>, verdict: Verdict)
      requires t1 == t0 + [Probed(info.pid, true)] && OnlyReads(t1, t2, info.pid) && Identifies(info, root, t2, |t1|)
      requires |t2| <= |t1| + 4 && t3 == t2 + [Opened(info.pid, got)] && t3 <= t
      requires if got == None then verdict == Unsupported && t == t3
               else got == Some(fd) && verdict != Unsupported && StaleShows(info, root, fd, |t3|, t, verdict)
      ensures StalePass(info, root, |t0|, fd, t, verdict)
    {
      IdentityNeedsReads(info, root, t2, |t1|);
      assert t[|t0|] == t1[|t0|] by { assert t[|t0|] == t3[|t0|] == t2[|t0|]; }
      assert t[|t2|] == t3[|t2|];
      IdentityLasts(info, root, t2, t, |t1|);
      hide Identifies, StaleShows;
      assert PinsAt(info, root, fd, |t2|, t, verdict);
    }

    lemma OnlyHolderGone(u: World, v: World, w: World, pid: int, i: int)
      requires OneHolder(v) && Later(u, v) && Later(v, w) && Holds(v, i, pid) && w[i].life == Gone
      ensures GoneSince(u, w, pid)
    {
      forall j | 0 <= j < |u| && u[j].pid == pid
        ensures w[j].life == Gone
      {
        if Holds(v, j, pid) {
          HeldByOne(v, i, j, pid);
        }
      }
    }
  }

  datatype Snapshot = Snapshot(pid: int, cmdline: string, environ: string)
}
