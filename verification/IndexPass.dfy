/** A full rebuild (orchestrator.go): the worker pool under every schedule and
    every moment of shutdown, and when the schema revision may be marked. */
module IndexPass {

  // How one job ended: indexed, failed with the old rows kept, failed, panicked.
  datatype Result = Indexed | Kept | Failed | Panicked

  // Idle: at the channel. Got: a job received, the shutdown not looked at yet.
  datatype WorkerPc = Idle | Got(j: nat) | Running(j: nat) | Exited

  datatype Phase = Starting | Wiped | Pooling | Joined | Resolving | Synthesizing | Deciding | Marked | GivenUp

  // `sending`: the feeder has looked at the signal and is at its blocking send
  // of job `next`. `hard` collects what makes IndexAll return an error besides the jobs.
  datatype State = State(
    signal: bool, phase: Phase, jobs: nat, next: nat, sending: bool, closed: bool, queue: seq<nat>,
    workers: map<int, WorkerPc>, results: map<nat, Result>, skipped: set<nat>, errs: set<nat>, hard: bool)

  datatype Step =
    | Shutdown
    | Wipe(ok: bool) | Collect(ok: bool, found: nat, pool: nat, pruned: bool)
    | LookUp | Feed | StopFeeding
    | Receive(w: int) | Look(w: int) | Finish(w: int, result: Result) | Leave(w: int)
    | Join | Recheck | Resolve(resolved: bool) | Synthesize(done: bool) | Decide(marked: bool)

  predicate Bad(r: Result) {
    r == Failed || r == Panicked
  }

  predicate At(s: State, w: int, pc: WorkerPc) {
    w in s.workers && s.workers[w] == pc
  }

  predicate Enabled(s: State, capacity: nat, step: Step) {
    match step
    case Shutdown => true
    case Wipe(_) => s.phase == Starting
    case Collect(_, found, pool, _) => s.phase == Wiped && (found > 0 ==> pool > 0)
    case LookUp => s.phase == Pooling && !s.closed && !s.sending && !s.signal && s.next < s.jobs
    case Feed => s.phase == Pooling && s.sending && |s.queue| < capacity
    case StopFeeding => s.phase == Pooling && !s.closed && !s.sending && (s.signal || s.next == s.jobs)
    case Receive(w) => At(s, w, Idle) && s.queue != []
    case Look(w) => w in s.workers && s.workers[w].Got?
    case Finish(w, _) => w in s.workers && s.workers[w].Running?
    case Leave(w) => At(s, w, Idle) && s.queue == [] && s.closed
    case Join => s.phase == Pooling && s.closed && forall w :: w in s.workers ==> s.workers[w] == Exited
    case Recheck => s.phase == Joined
    case Resolve(_) => s.phase == Resolving
    case Synthesize(_) => s.phase == Synthesizing
    case Decide(_) => s.phase == Deciding
  }

  function Pool(n: nat): (workers: map<int, WorkerPc>)
    ensures forall w :: w in workers ==> 0 <= w < n && workers[w] == Idle
    ensures forall w :: 0 <= w < n ==> w in workers
  {
    if n == 0 then map[] else Pool(n - 1)[n - 1 := Idle]
  }

  function Worker(s: State, w: int, pc: WorkerPc): State {
    s.(workers := s.workers[w := pc])
  }

  function Do(s: State, capacity: nat, step: Step): State
    requires Enabled(s, capacity, step)
  {
    match step
    case Shutdown => s.(signal := true)
    case Wipe(ok) => s.(phase := if ok then Wiped else GivenUp)
    case Collect(ok, found, pool, pruned) =>
      if !ok || s.signal then s.(phase := GivenUp)
      else s.(phase := Pooling, jobs := found, hard := s.hard || !pruned, workers := Pool(pool))
    case LookUp => s.(sending := true)
    case Feed => s.(queue := s.queue + [s.next], next := s.next + 1, sending := false)
    case StopFeeding => s.(closed := true)
    case Receive(w) => Worker(s, w, Got(s.queue[0])).(queue := s.queue[1..])
    case Look(w) =>
      var j := s.workers[w].j;
      if s.signal then Worker(s, w, Idle).(skipped := s.skipped + {j}) else Worker(s, w, Running(j))
    case Finish(w, result) =>
      var j := s.workers[w].j;
      Worker(s, w, Idle).(results := s.results[j := result], errs := if Bad(result) then s.errs + {j} else s.errs)
    case Leave(w) => Worker(s, w, Exited)
    case Join => s.(phase := Joined)
    case Recheck => s.(phase := if s.signal then GivenUp else Resolving)
    case Resolve(resolved) => s.(hard := s.hard || !resolved, phase := if s.signal then GivenUp else Synthesizing)
    case Synthesize(done) => s.(hard := s.hard || !done, phase := Deciding)
    case Decide(marked) => s.(phase := if s.errs == {} && !s.hard && marked then Marked else GivenUp)
  }

  function Init(): State {
    State(false, Starting, 0, 0, false, false, [], map[], map[], {}, {}, false)
  }

  // ---- The invariant ---------------------------------------------------------------------------

  ghost predicate Held(s: State, j: nat) {
    exists w :: w in s.workers && (s.workers[w] == Got(j) || s.workers[w] == Running(j))
  }

  // Every job fed is still queued, with a worker, done, or thrown out.
  ghost predicate Accounted(s: State) {
    forall j: nat :: j < s.next ==> Placed(s, j)
  }

  ghost predicate Placed(s: State, j: nat) {
    j in s.queue || Held(s, j) || j in s.results || j in s.skipped
  }

  // No shutdown seen means that nothing was cut short: a signal never goes
  // back, so none before either.
  ghost predicate NothingCut(s: State) {
    !s.signal ==> s.skipped == {} && (s.closed ==> s.next == s.jobs)
  }

  ghost predicate BadOnesListed(s: State) {
    forall j :: j in s.results && Bad(s.results[j]) ==> j in s.errs
  }

  ghost predicate PoolEmpties(s: State) {
    && (forall w :: At(s, w, Exited) ==> s.closed && s.queue == [])
    && (s.phase == Joined ==> s.closed && forall w :: w in s.workers ==> s.workers[w] == Exited)
    && (s.phase in {Starting, Wiped} ==> s.workers == map[] && s.queue == [] && s.next == 0 && !s.closed && !s.sending)
    && (s.sending ==> !s.closed && s.next < s.jobs)
    && (s.phase != Pooling ==> forall w :: w in s.workers ==> s.workers[w] == Exited)
    && (s.phase in {Pooling, Joined} && s.jobs > 0 ==> 0 in s.workers)
  }

  ghost predicate AllRan(s: State) {
    forall j: nat :: j < s.jobs ==> j in s.results
  }

  ghost predicate Certified(s: State) {
    && (s.phase in {Resolving, Synthesizing, Deciding, Marked} ==> AllRan(s))
    && (s.phase == Marked ==> s.errs == {} && !s.hard)
  }

  ghost predicate Inv(s: State) {
    Accounted(s) && NothingCut(s) && BadOnesListed(s) && PoolEmpties(s) && Certified(s)
  }

  // ---- Every step keeps it ------------------------------------------------------------------------

  lemma HeldStays(s: State, t: State, w: int, pc: WorkerPc, j: nat)
    requires Held(s, j) && t.workers == s.workers[w := pc] && w in s.workers
    ensures Held(t, j) || s.workers[w] == Got(j) || s.workers[w] == Running(j)
  {
    var v :| v in s.workers && (s.workers[v] == Got(j) || s.workers[v] == Running(j));
    if v != w {
      assert v in t.workers && t.workers[v] == s.workers[v];
    }
  }

  lemma JobKept(s: State, capacity: nat, step: Step, j: nat)
    requires PoolEmpties(s) && Enabled(s, capacity, step) && Placed(s, j) && j < s.next
    ensures Placed(Do(s, capacity, step), j)
  {
    var t := Do(s, capacity, step);
    match step
    case Receive(w) =>
      assert s.queue == [s.queue[0]] + s.queue[1..];
      if j == s.queue[0] {
        assert t.workers[w] == Got(j);
      } else if Held(s, j) {
        HeldStays(s, t, w, t.workers[w], j);
      }
    case Look(w) =>
      if s.workers[w].j == j {
        assert t.workers[w] == Running(j) || j in t.skipped;
      } else if Held(s, j) {
        HeldStays(s, t, w, t.workers[w], j);
      }
    case Finish(w, result) =>
      if s.workers[w].j != j && Held(s, j) {
        HeldStays(s, t, w, t.workers[w], j);
      }
    case Leave(w) =>
      if Held(s, j) {
        HeldStays(s, t, w, Exited, j);
      }
    case Wipe(_) =>
    case Collect(_, _, _, _) =>
    case _ => assert t.workers == s.workers;
  }

  lemma AccountedKept(s: State, capacity: nat, step: Step)
    requires Accounted(s) && PoolEmpties(s) && Enabled(s, capacity, step)
    ensures Accounted(Do(s, capacity, step))
  {
    hide PoolEmpties;
    var t := Do(s, capacity, step);
    forall j: nat | j < t.next
      ensures Placed(t, j)
    {
      if j < s.next {
        hide Placed;
        JobKept(s, capacity, step, j);
      } else {
        assert j in t.queue;
      }
    }
  }

  lemma PoolKept(s: State, capacity: nat, step: Step)
    requires PoolEmpties(s) && Enabled(s, capacity, step)
    ensures PoolEmpties(Do(s, capacity, step))
  {
    var t := Do(s, capacity, step);
    match step
    case Receive(w) => assert forall v :: At(t, v, Exited) ==> At(s, v, Exited);
    case Look(w) => assert forall v :: At(t, v, Exited) ==> At(s, v, Exited);
    case Finish(w, result) => assert forall v :: At(t, v, Exited) ==> At(s, v, Exited);
    case Leave(w) => assert forall v :: At(t, v, Exited) ==> At(s, v, Exited) || v == w;
    case _ => assert forall v :: At(t, v, Exited) ==> At(s, v, Exited);
  }

  // At the recheck after the join: no signal yet, so everything was fed and
  // nothing thrown out; the pool is empty, so every job has its result.
  lemma JoinedPoolRanAll(s: State)
    requires Accounted(s) && NothingCut(s) && PoolEmpties(s) && s.phase == Joined && !s.signal
    ensures AllRan(s)
  {
    forall j: nat | j < s.jobs
      ensures j in s.results
    {
      assert Placed(s, j) && !Held(s, j);
      assert At(s, 0, Exited);
    }
  }

  lemma CutKept(s: State, capacity: nat, step: Step)
    requires NothingCut(s) && PoolEmpties(s) && Enabled(s, capacity, step)
    ensures NothingCut(Do(s, capacity, step))
  {
  }

  lemma BadKept(s: State, capacity: nat, step: Step)
    requires BadOnesListed(s) && Enabled(s, capacity, step)
    ensures BadOnesListed(Do(s, capacity, step))
  {
  }

  lemma CertifiedKept(s: State, capacity: nat, step: Step)
    requires Inv(s) && Enabled(s, capacity, step)
    ensures Certified(Do(s, capacity, step))
  {
    hide Accounted, BadOnesListed;
    if step == Recheck && !s.signal {
      JoinedPoolRanAll(s);
    }
  }

  lemma EveryStepKeeps(s: State, capacity: nat, step: Step)
    requires Inv(s) && Enabled(s, capacity, step)
    ensures Inv(Do(s, capacity, step))
  {
    hide Accounted, NothingCut, BadOnesListed, PoolEmpties, Certified, Do, Enabled;
    AccountedKept(s, capacity, step);
    CutKept(s, capacity, step);
    BadKept(s, capacity, step);
    PoolKept(s, capacity, step);
    CertifiedKept(s, capacity, step);
  }

  ghost predicate Run(ss: seq<State>, steps: seq<Step>, capacity: nat) {
    && |ss| == |steps| + 1 && ss[0] == Init()
    && forall i :: 0 <= i < |steps| ==> Enabled(ss[i], capacity, steps[i]) && ss[i + 1] == Do(ss[i], capacity, steps[i])
  }

  lemma {:induction false} EveryRunKeeps(ss: seq<State>, steps: seq<Step>, capacity: nat, n: nat)
    requires Run(ss, steps, capacity) && n < |ss|
    ensures Inv(ss[n])
  {
    hide Do, Enabled;
    if n > 0 {
      EveryRunKeeps(ss, steps, capacity, n - 1);
      EveryStepKeeps(ss[n - 1], capacity, steps[n - 1]);
    }
  }

  // A rebuild that marks the schema revision has taken every collected job to
  // its end without a hard error or a panic, whatever the schedule and
  // whenever shutdown was signalled.
  lemma MarkedMeansComplete(ss: seq<State>, steps: seq<Step>, capacity: nat, n: nat)
    requires Run(ss, steps, capacity) && n < |ss| && ss[n].phase == Marked
    ensures forall j: nat :: j < ss[n].jobs ==> j in ss[n].results && ss[n].results[j] in {Indexed, Kept}
    ensures !ss[n].hard
  {
    hide Do, Enabled, Accounted, NothingCut, PoolEmpties;
    EveryRunKeeps(ss, steps, capacity, n);
  }

  // A signal seen before the recheck is never forgotten: no such run marks.
  lemma {:induction false} SignalledRunsDoNotMark(ss: seq<State>, steps: seq<Step>, capacity: nat, m: nat, n: nat)
    requires Run(ss, steps, capacity) && m <= n < |ss|
    requires ss[m].signal && ss[m].phase in {Starting, Wiped, Pooling, Joined, Resolving}
    ensures ss[n].signal && ss[n].phase in {Starting, Wiped, Pooling, Joined, Resolving, GivenUp}
  {
    hide Do, Enabled;
    if m < n {
      SignalledRunsDoNotMark(ss, steps, capacity, m, n - 1);
      SignalStays(ss[n - 1], capacity, steps[n - 1]);
    }
  }

  lemma SignalStays(s: State, capacity: nat, step: Step)
    requires Enabled(s, capacity, step) && s.signal
    requires s.phase in {Starting, Wiped, Pooling, Joined, Resolving, GivenUp}
    ensures var t := Do(s, capacity, step);
            t.signal && t.phase in {Starting, Wiped, Pooling, Joined, Resolving, GivenUp}
  {
  }

  // ---- What a mark says of the phases -----------------------------------------------------

  // What the step reports of itself: the wipe, the collection with its prune,
  // the resolution, the synthesis and the mark may each fail.
  predicate Succeeds(step: Step) {
    match step
    case Wipe(ok) => ok
    case Collect(ok, _, _, pruned) => ok && pruned
    case Resolve(resolved) => resolved
    case Synthesize(done) => done
    case Decide(marked) => marked
    case _ => true
  }

  function Stage(phase: Phase): int {
    match phase
    case Starting => 0
    case Wiped => 1
    case Pooling => 2
    case Joined => 3
    case Resolving => 4
    case Synthesizing => 5
    case Deciding => 6
    case Marked => 7
    case GivenUp => 8
  }

  // The step that ends each stage.
  predicate Ends(step: Step, stage: int) {
    match stage
    case 0 => step.Wipe?
    case 1 => step.Collect?
    case 2 => step == Join
    case 3 => step == Recheck
    case 4 => step.Resolve?
    case 5 => step.Synthesize?
    case _ => stage == 6 && step.Decide?
  }

  lemma StageMoves(s: State, capacity: nat, step: Step)
    requires Enabled(s, capacity, step) && s.phase != Marked && s.phase != GivenUp
    ensures var t := Do(s, capacity, step);
            t.phase != GivenUp ==> Stage(t.phase) == Stage(s.phase) + if Ends(step, Stage(s.phase)) then 1 else 0
  {
    hide Pool, At;
    match step
    case Wipe(_) =>
    case Collect(_, _, _, _) =>
    case Join =>
    case Recheck =>
    case Resolve(_) =>
    case Synthesize(_) =>
    case Decide(_) =>
    case _ =>
  }

  lemma StageSucceeds(s: State, capacity: nat, step: Step)
    requires Enabled(s, capacity, step)
    ensures var t := Do(s, capacity, step); t.phase != GivenUp && !t.hard ==> Succeeds(step) && !s.hard
  {
    hide Pool, At;
  }

  lemma EndIsFinal(s: State, capacity: nat, step: Step)
    requires Enabled(s, capacity, step) && (s.phase == Marked || s.phase == GivenUp)
    requires forall w :: w in s.workers ==> s.workers[w] == Exited
    ensures Do(s, capacity, step).phase == s.phase && Do(s, capacity, step).hard == s.hard
    ensures step == Shutdown
  {
  }

  ghost predicate AllSucceeded(steps: seq<Step>, n: nat)
    requires n <= |steps|
  {
    forall i :: 0 <= i < n ==> Succeeds(steps[i])
  }

  ghost predicate Happened(steps: seq<Step>, n: nat, stage: int)
    requires n <= |steps|
  {
    exists i :: 0 <= i < n && Ends(steps[i], stage)
  }

  lemma {:induction false} StagesBehind(ss: seq<State>, steps: seq<Step>, capacity: nat, n: nat)
    requires Run(ss, steps, capacity) && n < |ss| && ss[n].phase != GivenUp && !ss[n].hard
    ensures AllSucceeded(steps, n)
    ensures forall stage :: 0 <= stage < Stage(ss[n].phase) ==> Happened(steps, n, stage)
  {
    hide Do, Enabled, Succeeds, Ends;
    if n > 0 {
      EveryRunKeeps(ss, steps, capacity, n - 1);
      assert ss[n] == Do(ss[n - 1], capacity, steps[n - 1]);
      if ss[n - 1].phase == Marked || ss[n - 1].phase == GivenUp {
        ShutdownSucceeds();
        EndIsFinal(ss[n - 1], capacity, steps[n - 1]);
      } else {
        StageMoves(ss[n - 1], capacity, steps[n - 1]);
        StageSucceeds(ss[n - 1], capacity, steps[n - 1]);
      }
      StagesBehind(ss, steps, capacity, n - 1);
      forall stage | 0 <= stage < Stage(ss[n].phase)
        ensures Happened(steps, n, stage)
      {
        if stage < Stage(ss[n - 1].phase) {
          assert Happened(steps, n - 1, stage);
        } else {
          assert Ends(steps[n - 1], stage);
        }
      }
    }
  }

  lemma ShutdownSucceeds()
    ensures Succeeds(Shutdown)
  {
  }

  // A marked revision means more than the jobs: every phase was gone through,
  // and none of the wipe, the collection, the prune, the resolution, the
  // synthesis or the mark itself failed.
  lemma MarkedMeansEveryPhaseSucceeded(ss: seq<State>, steps: seq<Step>, capacity: nat, n: nat)
    requires Run(ss, steps, capacity) && n < |ss| && ss[n].phase == Marked
    ensures forall i :: 0 <= i < n ==>
              && (steps[i].Wipe? ==> steps[i].ok) && (steps[i].Collect? ==> steps[i].ok && steps[i].pruned)
              && (steps[i].Resolve? ==> steps[i].resolved) && (steps[i].Synthesize? ==> steps[i].done)
              && (steps[i].Decide? ==> steps[i].marked)
    ensures (exists i :: 0 <= i < n && steps[i].Wipe?) && (exists i :: 0 <= i < n && steps[i].Collect?)
    ensures (exists i :: 0 <= i < n && steps[i] == Join) && (exists i :: 0 <= i < n && steps[i].Resolve?)
    ensures (exists i :: 0 <= i < n && steps[i].Synthesize?) && (exists i :: 0 <= i < n && steps[i].Decide?)
  {
    hide Do, Enabled;
    MarkedMeansComplete(ss, steps, capacity, n);
    StagesBehind(ss, steps, capacity, n);
    assert forall stage :: 0 <= stage < 7 ==> Happened(steps, n, stage);
    assert Happened(steps, n, 0) && Happened(steps, n, 1) && Happened(steps, n, 2);
    assert Happened(steps, n, 4) && Happened(steps, n, 5) && Happened(steps, n, 6);
  }

  // ---- Each job once, and hardly any after the signal -------------------------------------------

  // No job is in two places: queued in order, with one worker, done, thrown out.
  ghost predicate OnePlace(s: State) {
    && (forall i, j :: 0 <= i < j < |s.queue| ==> s.queue[i] < s.queue[j])
    && (forall i :: 0 <= i < |s.queue| ==> s.queue[i] < s.next && NotTaken(s, s.queue[i]))
    && (forall v, w, j: nat :: HoldsJob(s, v, j) && HoldsJob(s, w, j) ==> v == w)
    && (forall w, j: nat :: HoldsJob(s, w, j) ==> j < s.next && j !in s.results && j !in s.skipped)
    && (forall j :: j in s.results || j in s.skipped ==> j < s.next)
    && s.results.Keys !! s.skipped
  }

  ghost predicate HoldsJob(s: State, w: int, j: nat) {
    At(s, w, Got(j)) || At(s, w, Running(j))
  }

  ghost predicate NotTaken(s: State, j: nat) {
    j !in s.results && j !in s.skipped && forall w :: !HoldsJob(s, w, j)
  }

  lemma ReceivePlaces(s: State, capacity: nat, w: int)
    requires OnePlace(s) && Enabled(s, capacity, Receive(w))
    ensures OnePlace(Do(s, capacity, Receive(w)))
  {
    var t := Do(s, capacity, Receive(w));
    assert forall v, j: nat :: HoldsJob(t, v, j) <==> (v != w && HoldsJob(s, v, j)) || (v == w && j == s.queue[0]);
    hide HoldsJob;
    assert forall i :: 0 <= i < |t.queue| ==> t.queue[i] == s.queue[i + 1];
  }

  lemma LookPlaces(s: State, capacity: nat, w: int)
    requires OnePlace(s) && Enabled(s, capacity, Look(w))
    ensures OnePlace(Do(s, capacity, Look(w)))
  {
    var t := Do(s, capacity, Look(w));
    var j := s.workers[w].j;
    assert HoldsJob(s, w, j);
    assert forall v, j: nat :: HoldsJob(t, v, j) <==> HoldsJob(s, v, j) && !(s.signal && v == w);
    hide HoldsJob;
    assert t.queue == s.queue && t.next == s.next && t.results == s.results;
    assert t.skipped == if s.signal then s.skipped + {j} else s.skipped;
  }

  lemma FinishPlaces(s: State, capacity: nat, w: int, result: Result)
    requires OnePlace(s) && Enabled(s, capacity, Finish(w, result))
    ensures OnePlace(Do(s, capacity, Finish(w, result)))
  {
    var t := Do(s, capacity, Finish(w, result));
    assert HoldsJob(s, w, s.workers[w].j);
    assert forall v, j: nat :: HoldsJob(t, v, j) <==> HoldsJob(s, v, j) && v != w;
    hide HoldsJob;
  }

  // Steps that leave queue, workers' jobs, results and skipped alone, or feed.
  lemma OtherPlaces(s: State, t: State)
    requires OnePlace(s) && (forall v, j: nat :: HoldsJob(t, v, j) <==> HoldsJob(s, v, j))
    requires t.results == s.results && t.skipped == s.skipped
    requires (t.queue == s.queue && t.next == s.next) || (t.queue == s.queue + [s.next] && t.next == s.next + 1)
    ensures OnePlace(t)
  {
    hide HoldsJob;
  }

  lemma OnePlaceKept(s: State, capacity: nat, step: Step)
    requires OnePlace(s) && PoolEmpties(s) && Enabled(s, capacity, step)
    ensures OnePlace(Do(s, capacity, step))
  {
    hide OnePlace;
    var t := Do(s, capacity, step);
    match step
    case Receive(w) => ReceivePlaces(s, capacity, w);
    case Look(w) => LookPlaces(s, capacity, w);
    case Finish(w, result) => FinishPlaces(s, capacity, w, result);
    case _ => OtherPlaces(s, t);
  }

  lemma {:induction false} EveryJobInOnePlace(ss: seq<State>, steps: seq<Step>, capacity: nat, n: nat)
    requires Run(ss, steps, capacity) && n < |ss|
    ensures OnePlace(ss[n])
  {
    hide Do, Enabled, OnePlace;
    if n > 0 {
      EveryJobInOnePlace(ss, steps, capacity, n - 1);
      EveryRunKeeps(ss, steps, capacity, n - 1);
      OnePlaceKept(ss[n - 1], capacity, steps[n - 1]);
    } else {
      NothingPlaced();
    }
  }

  lemma NothingPlaced()
    ensures OnePlace(Init())
  {
  }

  // A job gets one result: the step that gives it finds none there.
  lemma NoJobRunsTwice(ss: seq<State>, steps: seq<Step>, capacity: nat, n: nat)
    requires Run(ss, steps, capacity) && n < |steps| && steps[n].Finish?
    ensures steps[n].w in ss[n].workers && ss[n].workers[steps[n].w].Running?
    ensures ss[n].workers[steps[n].w].j !in ss[n].results
  {
    hide Do;
    EveryJobInOnePlace(ss, steps, capacity, n);
    assert HoldsJob(ss[n], steps[n].w, ss[n].workers[steps[n].w].j);
  }

  lemma FeedsNoMore(s: State, capacity: nat, step: Step)
    requires s.signal && Enabled(s, capacity, step)
    ensures var t := Do(s, capacity, step);
            t.signal && t.next + (if t.sending then 1 else 0) <= s.next + (if s.sending then 1 else 0)
  {
  }

  // After the signal the feeder sends at most the one job it was about to.
  lemma {:induction false} AtMostOneMoreIsFed(ss: seq<State>, steps: seq<Step>, capacity: nat, m: nat, n: nat)
    requires Run(ss, steps, capacity) && m <= n < |ss| && ss[m].signal
    ensures ss[n].signal && ss[n].next + (if ss[n].sending then 1 else 0)
            <= ss[m].next + (if ss[m].sending then 1 else 0)
  {
    hide Do, Enabled;
    if m < n {
      AtMostOneMoreIsFed(ss, steps, capacity, m, n - 1);
      FeedsNoMore(ss[n - 1], capacity, steps[n - 1]);
    }
  }

  // ---- And a pass that marks --------------------------------------------------------------------

  // The steps lead from s to t.
  ghost predicate Goes(s: State, capacity: nat, steps: seq<Step>, t: State)
    decreases |steps|
  {
    if steps == [] then s == t
    else Enabled(s, capacity, steps[0]) && Goes(Do(s, capacity, steps[0]), capacity, steps[1..], t)
  }

  lemma {:induction false} GoesOn(s: State, capacity: nat, a: seq<Step>, t: State, b: seq<Step>, u: State)
    requires Goes(s, capacity, a, t) && Goes(t, capacity, b, u)
    ensures Goes(s, capacity, a + b, u)
    decreases |a|
  {
    hide Do, Enabled;
    if a == [] {
      assert a + b == b;
    } else {
      assert (a + b)[1..] == a[1..] + b;
      GoesOn(Do(s, capacity, a[0]), capacity, a[1..], t, b, u);
    }
  }

  lemma Then(s: State, capacity: nat, a: seq<Step>, t: State, step: Step) returns (b: seq<Step>, u: State)
    requires Goes(s, capacity, a, t) && Enabled(t, capacity, step)
    ensures u == Do(t, capacity, step) && Goes(s, capacity, b, u)
  {
    hide Do, Enabled;
    u := Do(t, capacity, step);
    assert [step][1..] == [] && Goes(u, capacity, [], u);
    assert Goes(t, capacity, [step], u);
    GoesOn(s, capacity, a, t, [step], u);
    b := a + [step];
  }

  // A pool of one worker, the first `done` jobs indexed, nothing under way.
  ghost predicate Clean(s: State, jobs: nat, done: nat) {
    && !s.signal && s.phase == Pooling && s.jobs == jobs && s.next == done <= jobs && !s.sending && !s.closed
    && s.queue == [] && s.workers == map[0 := Idle] && s.errs == {} && !s.hard && s.skipped == {}
    && forall j: nat :: j in s.results <==> j < done
  }

  // The same with the job queued, or with the worker.
  ghost predicate AtJob(s: State, jobs: nat, done: nat, queue: seq<nat>, pc: WorkerPc) {
    && !s.signal && s.phase == Pooling && s.jobs == jobs && s.next == done + 1 <= jobs && !s.sending && !s.closed
    && s.queue == queue && s.workers == map[0 := pc] && s.errs == {} && !s.hard && s.skipped == {}
    && forall j: nat :: j in s.results <==> j < done
  }

  lemma JobFed(s0: State, capacity: nat, a: seq<Step>, s: State, jobs: nat, done: nat) returns (b: seq<Step>, t: State)
    requires Goes(s0, capacity, a, s) && Clean(s, jobs, done) && done < jobs && capacity > 0
    ensures Goes(s0, capacity, b, t) && AtJob(t, jobs, done, [done], Idle)
  {
    hide Goes;
    b, t := Then(s0, capacity, a, s, LookUp);
    b, t := Then(s0, capacity, b, t, Feed);
    assert t.queue == [done];
  }

  lemma JobTaken(s0: State, capacity: nat, a: seq<Step>, s: State, jobs: nat, done: nat)
    returns (b: seq<Step>, t: State)
    requires Goes(s0, capacity, a, s) && AtJob(s, jobs, done, [done], Idle)
    ensures Goes(s0, capacity, b, t) && AtJob(t, jobs, done, [], Running(done))
  {
    hide Goes;
    b, t := Then(s0, capacity, a, s, Receive(0));
    assert t.queue == [] && t.workers == map[0 := Got(done)];
    b, t := Then(s0, capacity, b, t, Look(0));
    assert t.workers == map[0 := Running(done)];
  }

  lemma OneMoreJob(s0: State, capacity: nat, a: seq<Step>, s: State, jobs: nat, done: nat)
    returns (b: seq<Step>, t: State)
    requires Goes(s0, capacity, a, s) && Clean(s, jobs, done) && done < jobs && capacity > 0
    ensures Goes(s0, capacity, b, t) && Clean(t, jobs, done + 1)
  {
    hide Goes;
    b, t := JobFed(s0, capacity, a, s, jobs, done);
    b, t := JobTaken(s0, capacity, b, t, jobs, done);
    b, t := Then(s0, capacity, b, t, Finish(0, Indexed));
    assert t.workers == map[0 := Idle];
  }

  lemma {:induction false} JobsInTurn(capacity: nat, jobs: nat, done: nat) returns (a: seq<Step>, t: State)
    requires done <= jobs && capacity > 0
    ensures Goes(Init(), capacity, a, t) && Clean(t, jobs, done)
  {
    hide Goes;
    if done == 0 {
      assert Goes(Init(), capacity, [], Init()) by { Standing(capacity); }
      a, t := Then(Init(), capacity, [], Init(), Wipe(true));
      a, t := Then(Init(), capacity, a, t, Collect(true, jobs, 1, true));
      assert Pool(1) == map[0 := Idle];
    } else {
      a, t := JobsInTurn(capacity, jobs, done - 1);
      a, t := OneMoreJob(Init(), capacity, a, t, jobs, done - 1);
    }
  }

  lemma Standing(capacity: nat)
    ensures Goes(Init(), capacity, [], Init())
  {
  }

  // However many jobs there are, a pass in which nothing goes wrong and nobody
  // signals takes every one of them and marks the revision.
  lemma UndisturbedPassMarks(capacity: nat, jobs: nat) returns (a: seq<Step>, t: State)
    requires capacity > 0
    ensures Goes(Init(), capacity, a, t) && t.phase == Marked && t.jobs == jobs
    ensures forall j: nat :: j < jobs ==> j in t.results
  {
    hide Goes;
    a, t := JobsInTurn(capacity, jobs, jobs);
    a, t := Then(Init(), capacity, a, t, StopFeeding);
    a, t := Then(Init(), capacity, a, t, Leave(0));
    a, t := Then(Init(), capacity, a, t, Join);
    a, t := Then(Init(), capacity, a, t, Recheck);
    a, t := Then(Init(), capacity, a, t, Resolve(true));
    a, t := Then(Init(), capacity, a, t, Synthesize(true));
    a, t := Then(Init(), capacity, a, t, Decide(true));
  }
}
