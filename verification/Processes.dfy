/** Processes as a client sees them through pids: incarnations are born, exit,
    are reaped, and their pids go to others. */
module Processes {
  import opened Wrappers

  // What /proc shows of an incarnation. None of it changes while it lives.
  datatype Facts = Facts(start: int, cmdline: string, environ: string, exe: string)

  datatype Life = Running | Zombie | Gone

  datatype Process = Process(pid: int, facts: Facts, life: Life)

  // Incarnations in order of birth. A pid belongs to the one that is not Gone.
  type World = seq<Process>

  datatype Event = Spawn(pid: int, facts: Facts) | Exit(i: int) | Reap(i: int)

  datatype Signal = TERM | KILL

  datatype Delivery = Delivery(signal: Signal, i: int)

  predicate Holds(w: World, i: int, pid: int) {
    0 <= i < |w| && w[i].pid == pid && w[i].life != Gone
  }

  ghost predicate OneHolder(w: World) {
    && (forall i :: 0 <= i < |w| ==> w[i].pid > 0)
    && (forall i, j, pid :: Holds(w, i, pid) && Holds(w, j, pid) ==> i == j)
  }

  // A pid is given out only while nobody holds it; a process that exits keeps
  // its pid until it is reaped.
  function Happen(w: World, e: Event): World {
    match e
    case Spawn(pid, facts) =>
      if pid > 0 && forall i :: 0 <= i < |w| ==> !Holds(w, i, pid) then w + [Process(pid, facts, Running)] else w
    case Exit(i) => if 0 <= i < |w| && w[i].life == Running then w[i := w[i].(life := Zombie)] else w
    case Reap(i) => if 0 <= i < |w| && w[i].life == Zombie then w[i := w[i].(life := Gone)] else w
  }

  function HappenAll(w: World, es: seq<Event>): World {
    if es == [] then w else Happen(HappenAll(w, es[..|es| - 1]), es[|es| - 1])
  }

  // v may follow w: nobody is forgotten, nobody changes, nobody comes back.
  ghost predicate Later(w: World, v: World) {
    && |w| <= |v|
    && (forall i :: 0 <= i < |w| ==> w[i].pid == v[i].pid && w[i].facts == v[i].facts)
    && (forall i :: 0 <= i < |w| && w[i].life == Gone ==> v[i].life == Gone)
    && (forall i :: 0 <= i < |w| && w[i].life == Zombie ==> v[i].life != Running)
  }

  lemma LaterTrans(u: World, v: World, w: World)
    requires Later(u, v) && Later(v, w)
    ensures Later(u, w)
  {
  }

  lemma {:induction false} EventsGoForward(w: World, es: seq<Event>)
    requires OneHolder(w)
    ensures OneHolder(HappenAll(w, es)) && Later(w, HappenAll(w, es))
  {
    if es != [] {
      EventsGoForward(w, es[..|es| - 1]);
      EventGoesForward(HappenAll(w, es[..|es| - 1]), es[|es| - 1]);
    }
  }

  lemma EventGoesForward(w: World, e: Event)
    requires OneHolder(w)
    ensures OneHolder(Happen(w, e)) && Later(w, Happen(w, e))
  {
    var v := Happen(w, e);
    assert forall i, pid :: Holds(v, i, pid) ==> Holds(w, i, pid) || (i == |w| && e.Spawn? && pid == e.pid);
  }

  lemma LaterKeeps(w: World, v: World, i: int)
    requires Later(w, v) && 0 <= i < |w|
    ensures 0 <= i < |v| && v[i].pid == w[i].pid && v[i].facts == w[i].facts
    ensures v[i].life != Gone ==> w[i].life != Gone
    ensures v[i].life == Running ==> w[i].life == Running
  {
  }

  lemma LaterRefl(w: World)
    ensures Later(w, w)
  {
  }

  // Everybody of w who ever had the pid is gone in v.
  ghost predicate GoneSince(w: World, v: World, pid: int) {
    forall i :: 0 <= i < |w| && i < |v| && w[i].pid == pid ==> v[i].life == Gone
  }

  lemma PinnedIsGone(w: World, v: World, pid: int, i: int)
    requires GoneSince(w, v, pid) && 0 <= i < |w| && i < |v| && w[i].pid == pid
    ensures v[i].life == Gone
  {
  }

  lemma VacantMeansGone(u: World, w: World, pid: int)
    requires Later(u, w) && forall i :: !Holds(w, i, pid)
    ensures GoneSince(u, w, pid)
  {
    forall i | 0 <= i < |u| && u[i].pid == pid
      ensures w[i].life == Gone
    {
      assert !Holds(w, i, pid);
    }
  }

  // While an incarnation is there, its pid has been its own all along.
  lemma HeldThroughout(w: World, v: World, i: int, pid: int)
    requires Later(w, v) && 0 <= i < |w| && Holds(v, i, pid)
    ensures Holds(w, i, pid)
  {
  }

  lemma HeldByOne(w: World, i: int, j: int, pid: int)
    requires OneHolder(w) && Holds(w, i, pid) && Holds(w, j, pid)
    ensures i == j
  {
  }

  // What a read of the pid's /proc entries found in w.
  ghost predicate Shows(w: World, pid: int, facts: Facts) {
    forall i :: Holds(w, i, pid) ==>
      facts == if w[i].life == Running then w[i].facts else Facts(w[i].facts.start, "", "", "")
  }

  // It still says who an incarnation is that has kept the pid until v.
  lemma ShownStillHolds(w: World, v: World, pid: int, facts: Facts, i: int)
    requires Shows(w, pid, facts) && Later(w, v) && 0 <= i < |w| && Holds(v, i, pid)
    ensures facts.start == v[i].facts.start
    ensures facts.cmdline != "" ==> facts.cmdline == v[i].facts.cmdline
    ensures facts.environ != "" ==> facts.environ == v[i].facts.environ
    ensures facts.exe != "" ==> facts.exe == v[i].facts.exe
  {
    HeldThroughout(w, v, i, pid);
  }

  datatype Sent = Done | NoSuchProcess | Denied

  // What a client asked for and the answer it got.
  datatype Call =
    | Opened(pid: int, pinned: Option<int>)
    | Read(pid: int, facts: Option<Facts>)
    | Signalled(fd: int, signal: Signal, sent: Sent)
    | Probed(pid: int, alive: bool)

  // After `before` the client has only probed this pid: it was taken each time,
  // but for the last probe of a wait that saw the exit.
  ghost predicate Waited(before: seq<Call>, after: seq<Call>, pid: int, exited: bool) {
    && before <= after && (exited ==> |before| < |after|)
    && forall k :: |before| <= k < |after| ==> after[k] == Probed(pid, k < |after| - 1 || !exited)
  }

  // The system calls and /proc reads of a client. Anything may happen to
  // processes before each of them. `log` has the signals that arrived, `trace`
  // every call with its answer.
  class Kernel {
    var world: World
    var log: seq<Delivery>
    ghost var trace: seq<Call>

    ghost predicate Valid()
      reads this
    {
      OneHolder(world)
    }

    // What the other processes of the machine did meanwhile.
    method Meanwhile()
      requires Valid()
      modifies this`world
      ensures Valid() && Later(old(world), world)
    {
      var es: seq<Event> := *;
      EventsGoForward(world, es);
      world := HappenAll(world, es);
    }

    // pidfd_open(2): pins whoever holds the pid now, or fails.
    method Open(pid: int) returns (fd: Option<int>)
      requires Valid()
      modifies this`world, this`trace
      ensures Valid() && Later(old(world), world)
      ensures fd.Some? ==> Holds(world, fd.value, pid)
      ensures trace == old(trace) + [Opened(pid, fd)]
    {
      Meanwhile();
      var refused: bool := *;
      fd := None;
      if !refused && exists i :: 0 <= i < |world| && Holds(world, i, pid) {
        var i :| 0 <= i < |world| && Holds(world, i, pid);
        fd := Some(i);
      }
      trace := trace + [Opened(pid, fd)];
    }

    // The facts a read of /proc/<pid> finds: those of the pid's holder at that
    // moment, or None when there is none or the read is refused. A zombie has
    // nothing but its start time to show.
    method ReadFacts(pid: int) returns (facts: Option<Facts>)
      requires Valid()
      modifies this`world, this`trace
      ensures Valid() && Later(old(world), world)
      ensures facts.Some? ==> Shows(world, pid, facts.value)
      ensures trace == old(trace) + [Read(pid, facts)]
    {
      Meanwhile();
      var refused: bool := *;
      facts := None;
      if !refused && exists i :: 0 <= i < |world| && Holds(world, i, pid) {
        var i :| 0 <= i < |world| && Holds(world, i, pid);
        facts := Some(if world[i].life == Running then world[i].facts else Facts(world[i].facts.start, "", "", ""));
      }
      trace := trace + [Read(pid, facts)];
    }

    // pidfd_send_signal(2): reaches the pinned incarnation or nobody.
    method Send(fd: int, signal: Signal) returns (sent: Sent)
      requires Valid() && 0 <= fd < |world|
      modifies this
      ensures Valid() && Later(old(world), world)
      ensures sent == NoSuchProcess <==> world[fd].life == Gone
      ensures log == if sent == Done && world[fd].life == Running then old(log) + [Delivery(signal, fd)] else old(log)
      ensures trace == old(trace) + [Signalled(fd, signal, sent)]
    {
      Meanwhile();
      var denied: bool := *;
      sent := if world[fd].life == Gone then NoSuchProcess else if denied then Denied else Done;
      if sent == Done && world[fd].life == Running {
        log := log + [Delivery(signal, fd)];
      }
      trace := trace + [Signalled(fd, signal, sent)];
    }

    // kill(pid, 0): false only when nobody holds the pid.
    method IsProcessAlive(pid: int) returns (alive: bool)
      requires Valid()
      modifies this`world, this`trace
      ensures Valid() && Later(old(world), world)
      ensures !alive <==> forall i :: !Holds(world, i, pid)
      ensures trace == old(trace) + [Probed(pid, alive)]
    {
      Meanwhile();
      alive := pid > 0 && exists i :: 0 <= i < |world| && Holds(world, i, pid);
      trace := trace + [Probed(pid, alive)];
    }

    // lock.go: polls until the pid is free or the polls are used up.
    method WaitForExit(pid: int, polls: nat) returns (exited: bool)
      requires Valid()
      modifies this`world, this`trace
      ensures Valid() && Later(old(world), world)
      ensures exited ==> GoneSince(old(world), world, pid)
      ensures !exited && polls > 0 ==> exists i :: Holds(world, i, pid)
      ensures Waited(old(trace), trace, pid, exited) && |trace| - |old(trace)| <= polls
      ensures !exited ==> |trace| - |old(trace)| == polls
    {
      for n := 0 to polls
        invariant Valid() && Later(old(world), world)
        invariant n > 0 ==> exists i :: Holds(world, i, pid)
        invariant Waited(old(trace), trace, pid, false) && |trace| == |old(trace)| + n
      {
        var alive := IsProcessAlive(pid);
        if !alive {
          VacantMeansGone(old(world), world, pid);
          return true;
        }
      }
      return false;
    }
  }
}
