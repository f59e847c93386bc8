/** The daemon's life (server.go) as a step system: the accept loop, one
    goroutine per connection, idle timers and their callbacks, the watchdog,
    and whoever calls Stop. A critical section that reads the stopping flag is
    two steps, because Stop flips the flag without the mutex. */
module Lifecycle {
  import opened Wrappers

  // Where a connection's goroutine is. Spawning: counted, not started yet.
  datatype ConnPc =
    | Spawning | Handshake | CapChecked | AddLocked | Session | Returned
    | DropArm | DropArmReady | Leaving | FinishArm | FinishArmReady | Closing | Exited

  datatype AcceptPc =
    | Listening | Got(c: int) | Locked(c: int) | Spawn(c: int) | GivingUp | InStop | AcceptDone

  // Pending: armed. Fired: its callback has not looked at the daemon yet.
  // ArmAgain, ArmReady: the callback is in armIdleTimer.
  datatype TimerPc = Pending | Fired | ArmAgain | ArmReady | Dead

  datatype Mutex = Free | ByAccept | ByConn(c: int)

  // How far the one shutdown has come.
  datatype Shutdown = NotYet | Won | Drained | Cancelled | ConnsClosed | Waited | Finished

  // `registered` is the conns map of the daemon, `cut` the sessions a shutdown
  // has closed, `cleaned` how often the artifacts were removed.
  datatype State = State(
    stopping: bool, shutdown: Shutdown, idleStop: bool, mu: Mutex,
    accept: AcceptPc, conns: map<int, ConnPc>, registered: set<int>, clients: int, inFlight: int,
    timers: map<int, TimerPc>, idleTimer: Option<int>, wg: int, cut: set<int>, cleaned: int)

  datatype Config = Config(idleAfter: int, maxSessions: int)

  datatype AcceptStep = TakeConn(id: int) | Lock | Count | Start | Fails(fifth: bool) | GiveUp | ReturnFromStop

  datatype ConnStep =
    | HandshakeFails | CheckCap | AddLock | AddCommit | HandlerReturns
    | Drop | DropArmRead | DropArmDo(t: int) | FinishConn | FinishArmRead | FinishArmDo(t: int) | Exit

  datatype TimerStep = Fire | Callback | ArmRead | ArmDo(next: int)

  datatype StopStep = Watchdog | CallStop | Begin | Cancel | CloseConns | WaitDone | CleanUp

  datatype Step = Accept(a: AcceptStep) | Conn(c: int, what: ConnStep)
    | Timer(i: int, tick: TimerStep) | Stop(x: StopStep)

  // ---- Pieces of the code ---------------------------------------------------------------

  // idleTimer.Stop(); idleTimer = nil. A timer that has fired runs on.
  function ClearTimer(s: State): (t: State)
    ensures t == s.(idleTimer := None, timers := t.timers)
  {
    match s.idleTimer
    case None => s
    case Some(i) =>
      s.(idleTimer := None,
         timers := if i in s.timers && s.timers[i] == Pending then s.timers[i := Dead] else s.timers)
  }

  // The critical section of armIdleTimer; i is the timer it would make.
  function Arm(s: State, i: int): (t: State)
    ensures t == s.(idleTimer := t.idleTimer, timers := t.timers)
  {
    if s.clients > 0 || s.inFlight > 0 || s.idleTimer.Some? then s
    else s.(idleTimer := Some(i), timers := s.timers[i := Pending])
  }

  predicate At(s: State, c: int, pc: ConnPc) {
    c in s.conns && s.conns[c] == pc
  }

  predicate TimerAt(s: State, i: int, pc: TimerPc) {
    i in s.timers && s.timers[i] == pc
  }

  predicate MayArm(s: State, k: Config) {
    k.idleAfter > 0 && !s.stopping
  }

  predicate Idle(s: State) {
    s.clients <= 0 && s.inFlight <= 0
  }

  // stopIfIdle, with the mutex held.
  function StopIfIdle(s: State): State {
    if !Idle(s) || s.stopping then s
    else ClearTimer(s).(stopping := true, shutdown := Drained, idleStop := true)
  }

  // Stop up to its compare-and-swap.
  function StopFlag(s: State): State {
    if s.stopping then s else s.(stopping := true, shutdown := Won)
  }

  predicate AcceptEnabled(s: State, a: AcceptStep) {
    match a
    case TakeConn(id) => s.accept == Listening && id !in s.conns
    case Lock => s.accept.Got? && s.mu == Free
    case Count => s.accept.Locked?
    case Start => s.accept.Spawn?
    case Fails(_) => s.accept == Listening
    case GiveUp => s.accept == GivingUp
    case ReturnFromStop => s.accept == InStop && s.shutdown == Finished
  }

  function LoopEnds(s: State): State {
    s.(accept := AcceptDone, wg := s.wg - 1)
  }

  function DoAccept(s: State, a: AcceptStep): State
    requires AcceptEnabled(s, a)
  {
    match a
    case TakeConn(id) => s.(accept := Got(id))
    case Lock => if s.stopping then LoopEnds(s) else s.(accept := Locked(s.accept.c), mu := ByAccept)
    case Count =>
      ClearTimer(s).(conns := s.conns[s.accept.c := Spawning], inFlight := s.inFlight + 1,
                     accept := Spawn(s.accept.c), mu := Free)
    case Start => s.(conns := s.conns[s.accept.c := Handshake], wg := s.wg + 1, accept := Listening)
    case Fails(fifth) => if s.stopping then LoopEnds(s) else if fifth then s.(accept := GivingUp) else s
    case GiveUp => if s.stopping then LoopEnds(s) else StopFlag(s).(accept := InStop)
    case ReturnFromStop => LoopEnds(s)
  }

  predicate NeedsMutex(what: ConnStep) {
    what in {CheckCap, AddLock, Drop, FinishConn} || what.DropArmDo? || what.FinishArmDo?
  }

  function PlaceOf(what: ConnStep): ConnPc {
    match what
    case HandshakeFails => Handshake
    case CheckCap => Handshake
    case AddLock => CapChecked
    case AddCommit => AddLocked
    case HandlerReturns => Session
    case Drop => Returned
    case DropArmRead => DropArm
    case DropArmDo(_) => DropArmReady
    case FinishConn => Leaving
    case FinishArmRead => FinishArm
    case FinishArmDo(_) => FinishArmReady
    case Exit => Closing
  }

  predicate ConnEnabled(s: State, c: int, what: ConnStep) {
    && At(s, c, PlaceOf(what))
    && (NeedsMutex(what) ==> s.mu == Free)
    && (what.DropArmDo? || what.FinishArmDo? ==> what.t !in s.timers)
  }

  function OneLower(n: int): int {
    if n > 0 then n - 1 else n
  }

  // Where a step takes the goroutine.
  function NextPlace(s: State, k: Config, what: ConnStep): ConnPc {
    match what
    case HandshakeFails => Leaving
    case CheckCap => if s.clients >= k.maxSessions then Leaving else CapChecked
    case AddLock => if s.stopping then Leaving else AddLocked
    case AddCommit => Session
    case HandlerReturns => Returned
    case Drop => if OneLower(s.clients) == 0 then DropArm else Leaving
    case DropArmRead => if MayArm(s, k) then DropArmReady else Leaving
    case DropArmDo(_) => Leaving
    case FinishConn => if s.clients == 0 && OneLower(s.inFlight) == 0 then FinishArm else Closing
    case FinishArmRead => if MayArm(s, k) then FinishArmReady else Closing
    case FinishArmDo(_) => Closing
    case Exit => Exited
  }

  // What a step does to the daemon's fields.
  function Fields(s: State, c: int, what: ConnStep): (t: State)
    ensures t.conns == s.conns && t.accept == s.accept && t.stopping == s.stopping && t.shutdown == s.shutdown
    ensures t.idleStop == s.idleStop && t.cut == s.cut && t.cleaned == s.cleaned
  {
    match what
    case AddLock => if s.stopping then s else s.(mu := ByConn(c))
    case AddCommit => ClearTimer(s).(registered := s.registered + {c}, clients := s.clients + 1, mu := Free)
    case Drop => s.(registered := s.registered - {c}, clients := OneLower(s.clients))
    case DropArmDo(t) => Arm(s, t)
    case FinishConn => s.(inFlight := OneLower(s.inFlight))
    case FinishArmDo(t) => Arm(s, t)
    case Exit => s.(wg := s.wg - 1)
    case _ => s
  }

  function DoConn(s: State, k: Config, c: int, what: ConnStep): State {
    Fields(s, c, what).(conns := s.conns[c := NextPlace(s, k, what)])
  }

  predicate TimerEnabled(s: State, i: int, tick: TimerStep) {
    match tick
    case Fire => TimerAt(s, i, Pending)
    case Callback => TimerAt(s, i, Fired) && s.mu == Free
    case ArmRead => TimerAt(s, i, ArmAgain)
    case ArmDo(next) => TimerAt(s, i, ArmReady) && s.mu == Free && next !in s.timers
  }

  function SetTimer(s: State, i: int, pc: TimerPc): State {
    s.(timers := s.timers[i := pc])
  }

  function DoTimer(s: State, k: Config, i: int, tick: TimerStep): State {
    match tick
    case Fire => SetTimer(s, i, Fired)
    case Callback => SetTimer(StopIfIdle(s), i, if Idle(s) && !s.stopping then Dead else ArmAgain)
    case ArmRead => SetTimer(s, i, if MayArm(s, k) then ArmReady else Dead)
    case ArmDo(next) => SetTimer(Arm(s, next), i, Dead)
  }

  predicate StopEnabled(s: State, x: StopStep) {
    match x
    case Watchdog => s.mu == Free
    case CallStop => true
    case Begin => s.shutdown == Won && s.mu == Free
    case Cancel => s.shutdown == Drained
    case CloseConns => s.shutdown == Cancelled && s.mu == Free
    case WaitDone => s.shutdown == ConnsClosed && s.wg == 0
    case CleanUp => s.shutdown == Waited
  }

  function DoStop(s: State, x: StopStep): State {
    match x
    case Watchdog => StopIfIdle(s)
    case CallStop => StopFlag(s)
    case Begin => ClearTimer(s).(shutdown := Drained)
    case Cancel => s.(shutdown := Cancelled)
    case CloseConns => s.(shutdown := ConnsClosed, cut := s.cut + s.registered)
    case WaitDone => s.(shutdown := Waited)
    case CleanUp => s.(shutdown := Finished, cleaned := s.cleaned + 1)
  }

  predicate Enabled(s: State, step: Step) {
    match step
    case Accept(a) => AcceptEnabled(s, a)
    case Conn(c, what) => ConnEnabled(s, c, what)
    case Timer(i, tick) => TimerEnabled(s, i, tick)
    case Stop(x) => StopEnabled(s, x)
  }

  function Do(s: State, k: Config, step: Step): State
    requires Enabled(s, step)
  {
    match step
    case Accept(a) => DoAccept(s, a)
    case Conn(c, what) => DoConn(s, k, c, what)
    case Timer(i, tick) => DoTimer(s, k, i, tick)
    case Stop(x) => DoStop(s, x)
  }

  function Init(k: Config): State {
    State(false, NotYet, false, Free, Listening, map[], {}, 0, 0,
          if k.idleAfter > 0 then map[0 := Pending] else map[], if k.idleAfter > 0 then Some(0) else None,
          1, {}, 0)
  }

  // ---- The invariant --------------------------------------------------------------------

  predicate Counted(pc: ConnPc) {
    pc !in {FinishArm, FinishArmReady, Closing, Exited}
  }

  predicate Live(pc: ConnPc) {
    pc != Spawning && pc != Exited
  }

  predicate InSession(pc: ConnPc) {
    pc == Session || pc == Returned
  }

  function CountedConns(conns: map<int, ConnPc>): set<int> {
    set c | c in conns && Counted(conns[c])
  }

  function RegisteredConns(conns: map<int, ConnPc>): set<int> {
    set c | c in conns && InSession(conns[c])
  }

  function LiveConns(conns: map<int, ConnPc>): set<int> {
    set c | c in conns && Live(conns[c])
  }

  // inFlight counts the connections between the accept loop's count and their
  // own finishConn, clients the registered sessions among them.
  ghost predicate CountsRight(s: State) {
    && s.inFlight == |CountedConns(s.conns)|
    && s.clients == |s.registered|
    && s.registered == RegisteredConns(s.conns)
  }

  // The wait group holds the accept loop and every started, unfinished
  // connection goroutine.
  ghost predicate WaitsRight(s: State) {
    s.wg == |LiveConns(s.conns)| + if s.accept == AcceptDone then 0 else 1
  }

  ghost predicate PlacesFit(s: State) {
    && (s.accept.Got? || s.accept.Locked? ==> s.accept.c !in s.conns)
    && (s.accept.Spawn? ==> At(s, s.accept.c, Spawning))
    && (forall c :: At(s, c, Spawning) ==> s.accept == Spawn(c))
    && (s.mu == ByAccept <==> s.accept.Locked?)
    && (forall c :: At(s, c, AddLocked) <==> s.mu == ByConn(c))
  }

  // The critical section that starts a shutdown is over.
  predicate Past(s: State) {
    s.shutdown != NotYet && s.shutdown != Won
  }

  ghost predicate ShutdownFits(s: State) {
    && (s.stopping <==> s.shutdown != NotYet)
    && (Past(s) ==> s.mu == Free)
    && (!Past(s) ==> s.cut == {})
    && (s.idleStop ==> Past(s) && s.inFlight == 0 && s.cut == {})
    && (s.shutdown in {ConnsClosed, Waited, Finished} ==> s.registered <= s.cut)
    && (s.accept == InStop ==> s.stopping && s.shutdown != Waited && s.shutdown != Finished)
    && (s.shutdown == Waited || s.shutdown == Finished ==> s.wg == 0)
    && s.cleaned == (if s.shutdown == Finished then 1 else 0)
  }

  predicate ConnRearms(s: State) {
    exists c :: c in s.conns && (s.conns[c] == FinishArm || s.conns[c] == FinishArmReady)
  }

  predicate CallbackRuns(s: State) {
    exists i :: i in s.timers && (s.timers[i] == Fired || s.timers[i] == ArmAgain || s.timers[i] == ArmReady)
  }

  // An armed timer means an idle daemon; an idle daemon that is to stop some
  // day has a timer armed or firing, or somebody about to arm it.
  ghost predicate TimersFit(s: State, k: Config) {
    && (s.idleTimer.Some? ==> Idle(s))
    && (forall i :: TimerAt(s, i, Pending) ==> s.idleTimer == Some(i))
    && (s.idleTimer.Some? && !s.stopping ==>
          TimerAt(s, s.idleTimer.value, Pending) || TimerAt(s, s.idleTimer.value, Fired))
    && (!s.stopping && k.idleAfter > 0 && Idle(s) ==> s.idleTimer.Some? || ConnRearms(s) || CallbackRuns(s))
  }

  ghost predicate Inv(s: State, k: Config) {
    CountsRight(s) && WaitsRight(s) && PlacesFit(s) && ShutdownFits(s) && TimersFit(s, k)
  }

  lemma InitFits(k: Config)
    ensures Inv(Init(k), k)
  {
    assert CountedConns(map[]) == {} && LiveConns(map[]) == {} && RegisteredConns(map[]) == {};
    if k.idleAfter > 0 {
      assert TimerAt(Init(k), 0, Pending);
    }
  }

  // ---- Sizes of the sets ------------------------------------------------------------------

  lemma OneMore(a: set<int>, c: int)
    ensures |a + {c}| == if c in a then |a| else |a| + 1
  {
    assert c in a ==> a + {c} == a;
  }

  lemma OneLess(a: set<int>, c: int)
    ensures |a - {c}| == if c in a then |a| - 1 else |a|
  {
    assert c !in a ==> a - {c} == a;
  }

  lemma CountedSet(conns: map<int, ConnPc>, c: int, pc: ConnPc)
    ensures CountedConns(conns[c := pc]) ==
              if Counted(pc) then CountedConns(conns) - {c} + {c} else CountedConns(conns) - {c}
  {
  }

  lemma CountedMoves(conns: map<int, ConnPc>, c: int, pc: ConnPc)
    ensures |CountedConns(conns[c := pc])| == |CountedConns(conns)|
              - (if c in CountedConns(conns) then 1 else 0) + (if Counted(pc) then 1 else 0)
  {
    hide CountedConns;
    CountedSet(conns, c, pc);
    OneLess(CountedConns(conns), c);
    OneMore(CountedConns(conns) - {c}, c);
  }

  lemma LiveSet(conns: map<int, ConnPc>, c: int, pc: ConnPc)
    ensures LiveConns(conns[c := pc]) == if Live(pc) then LiveConns(conns) - {c} + {c} else LiveConns(conns) - {c}
  {
  }

  lemma LiveMoves(conns: map<int, ConnPc>, c: int, pc: ConnPc)
    ensures |LiveConns(conns[c := pc])| == |LiveConns(conns)|
              - (if c in LiveConns(conns) then 1 else 0) + (if Live(pc) then 1 else 0)
  {
    hide LiveConns;
    LiveSet(conns, c, pc);
    OneLess(LiveConns(conns), c);
    OneMore(LiveConns(conns) - {c}, c);
  }

  // A registered session is counted in flight.
  lemma ClientsInFlight(s: State)
    requires CountsRight(s)
    ensures 0 <= s.clients <= s.inFlight
    ensures s.clients == 0 ==> s.registered == {}
  {
    var a, b := RegisteredConns(s.conns), CountedConns(s.conns);
    assert forall c :: c in a ==> c in b;
    assert a + (b - a) == b && a * (b - a) == {};
  }

  // ---- Every kind of step keeps every part --------------------------------------------------

  lemma AcceptKeepsPlaces(s: State, a: AcceptStep)
    requires PlacesFit(s) && AcceptEnabled(s, a)
    ensures PlacesFit(DoAccept(s, a))
  {
    hide ClearTimer;
    var t := DoAccept(s, a);
    if a == Count || a == Start {
      assert forall d, p :: d != s.accept.c ==> (At(t, d, p) <==> At(s, d, p));
    } else {
      assert forall d, p :: At(t, d, p) <==> At(s, d, p);
    }
  }

  lemma ConnKeepsPlaces(s: State, k: Config, c: int, what: ConnStep)
    requires PlacesFit(s) && ConnEnabled(s, c, what)
    ensures PlacesFit(DoConn(s, k, c, what))
  {
    hide ClearTimer, Arm, MayArm, OneLower;
    var t := DoConn(s, k, c, what);
    assert forall d, p :: d != c ==> (At(t, d, p) <==> At(s, d, p));
    assert t.accept == s.accept;
  }

  lemma AcceptKeepsCounts(s: State, a: AcceptStep)
    requires PlacesFit(s) && CountsRight(s) && AcceptEnabled(s, a)
    ensures CountsRight(DoAccept(s, a))
  {
    hide ClearTimer;
    if a == Count {
      CountedMoves(s.conns, s.accept.c, Spawning);
      assert RegisteredConns(s.conns[s.accept.c := Spawning]) == RegisteredConns(s.conns);
    } else if a == Start {
      CountedMoves(s.conns, s.accept.c, Handshake);
      assert At(s, s.accept.c, Spawning);
      assert RegisteredConns(s.conns[s.accept.c := Handshake]) == RegisteredConns(s.conns);
    }
  }

  lemma RegisteredSet(conns: map<int, ConnPc>, c: int, pc: ConnPc)
    ensures RegisteredConns(conns[c := pc])
         == if InSession(pc) then RegisteredConns(conns) + {c} else RegisteredConns(conns) - {c}
  {
  }

  lemma ConnKeepsCounts(s: State, k: Config, c: int, what: ConnStep)
    requires CountsRight(s) && ConnEnabled(s, c, what)
    ensures CountsRight(DoConn(s, k, c, what))
  {
    hide CountedConns, RegisteredConns, ClearTimer, Arm, MayArm, NeedsMutex;
    var pc := NextPlace(s, k, what);
    CountedMoves(s.conns, c, pc);
    RegisteredSet(s.conns, c, pc);
    SetsAt(s, c);
    OneMore(s.registered, c);
    OneLess(s.registered, c);
    assert c in s.registered ==> s.registered + {c} == s.registered;
    assert c !in s.registered ==> s.registered - {c} == s.registered;
  }

  lemma SetsAt(s: State, c: int)
    requires c in s.conns
    ensures c in CountedConns(s.conns) <==> Counted(s.conns[c])
    ensures c in RegisteredConns(s.conns) <==> InSession(s.conns[c])
    ensures c in LiveConns(s.conns) <==> Live(s.conns[c])
    ensures Counted(s.conns[c]) ==> |CountedConns(s.conns)| > 0
    ensures InSession(s.conns[c]) ==> |RegisteredConns(s.conns)| > 0
  {
  }

  lemma AcceptKeepsWaits(s: State, a: AcceptStep)
    requires PlacesFit(s) && WaitsRight(s) && AcceptEnabled(s, a)
    ensures WaitsRight(DoAccept(s, a))
  {
    hide ClearTimer, LiveConns;
    if a == Count {
      LiveMoves(s.conns, s.accept.c, Spawning);
      NotThere(s.conns, s.accept.c);
    } else if a == Start {
      LiveMoves(s.conns, s.accept.c, Handshake);
      SetsAt(s, s.accept.c);
    }
  }

  lemma NotThere(conns: map<int, ConnPc>, c: int)
    requires c !in conns
    ensures c !in LiveConns(conns)
  {
  }

  lemma ConnKeepsWaits(s: State, k: Config, c: int, what: ConnStep)
    requires WaitsRight(s) && ConnEnabled(s, c, what)
    ensures WaitsRight(DoConn(s, k, c, what))
  {
    hide LiveConns, ClearTimer, Arm, MayArm, NeedsMutex, OneLower;
    LiveMoves(s.conns, c, NextPlace(s, k, what));
    SetsAt(s, c);
  }

  lemma SomebodyWaitedFor(s: State)
    requires WaitsRight(s)
    ensures s.wg >= 0
    ensures s.accept != AcceptDone ==> s.wg > 0
    ensures forall c :: c in s.conns && Live(s.conns[c]) ==> s.wg > 0
  {
    forall c | c in s.conns && Live(s.conns[c])
      ensures s.wg > 0
    {
      assert c in LiveConns(s.conns);
    }
  }

  lemma AcceptKeepsShutdown(s: State, a: AcceptStep)
    requires PlacesFit(s) && ShutdownFits(s) && WaitsRight(s) && AcceptEnabled(s, a)
    ensures ShutdownFits(DoAccept(s, a))
  {
    hide ClearTimer, WaitsRight;
    SomebodyWaitedFor(s);
  }

  lemma ConnKeepsShutdown(s: State, k: Config, c: int, what: ConnStep)
    requires PlacesFit(s) && ShutdownFits(s) && WaitsRight(s) && CountsRight(s) && ConnEnabled(s, c, what)
    ensures ShutdownFits(DoConn(s, k, c, what))
  {
    hide ClearTimer, Arm, WaitsRight, CountsRight, MayArm;
    SomebodyWaitedFor(s);
  }

  lemma StopKeepsShutdown(s: State, x: StopStep)
    requires ShutdownFits(s) && WaitsRight(s) && CountsRight(s) && StopEnabled(s, x)
    ensures ShutdownFits(DoStop(s, x))
  {
    hide ClearTimer, WaitsRight, CountsRight;
    SomebodyWaitedFor(s);
    ClientsInFlight(s);
  }

  lemma TimerKeepsShutdown(s: State, k: Config, i: int, tick: TimerStep)
    requires ShutdownFits(s) && CountsRight(s) && TimerEnabled(s, i, tick)
    ensures ShutdownFits(DoTimer(s, k, i, tick))
  {
    hide ClearTimer, Arm, CountsRight, MayArm;
    ClientsInFlight(s);
  }

  // ---- The timers -----------------------------------------------------------------------------

  lemma ClearedHasNone(s: State, k: Config)
    requires TimersFit(s, k)
    ensures forall i :: !TimerAt(ClearTimer(s), i, Pending)
    ensures CallbackRuns(s) ==> CallbackRuns(ClearTimer(s))
  {
    forall i
      ensures !TimerAt(ClearTimer(s), i, Pending)
    {
      assert TimerAt(s, i, Pending) ==> s.idleTimer == Some(i);
    }
    if CallbackRuns(s) {
      var i :| i in s.timers && (s.timers[i] == Fired || s.timers[i] == ArmAgain || s.timers[i] == ArmReady);
      assert ClearTimer(s).timers[i] == s.timers[i];
    }
  }

  lemma ArmFits(s: State, k: Config, i: int)
    requires TimersFit(s, k) && i !in s.timers
    ensures TimersFit(Arm(s, i), k)
    ensures Idle(s) ==> Arm(s, i).idleTimer.Some?
    ensures forall j :: j in s.timers ==> j in Arm(s, i).timers && Arm(s, i).timers[j] == s.timers[j]
  {
    var t := Arm(s, i);
    assert forall j, pc :: j != i ==> (TimerAt(t, j, pc) <==> TimerAt(s, j, pc));
  }

  lemma AcceptKeepsTimers(s: State, k: Config, a: AcceptStep)
    requires TimersFit(s, k) && CountsRight(s) && PlacesFit(s) && AcceptEnabled(s, a)
    ensures TimersFit(DoAccept(s, a), k)
  {
    hide CountsRight;
    ClientsInFlight(s);
    var t := DoAccept(s, a);
    if a == Count {
      hide ClearTimer;
      ClearedHasNone(s, k);
    } else if a == Start {
      assert TimersFit(t, k) by { StartKeepsTimers(s, k); }
    } else {
      SameTimers(s, t, k);
    }
  }

  lemma SameTimers(s: State, t: State, k: Config)
    requires TimersFit(s, k) && t.conns == s.conns && t.timers == s.timers && t.idleTimer == s.idleTimer
    requires t.clients == s.clients && t.inFlight == s.inFlight && (s.stopping ==> t.stopping)
    ensures TimersFit(t, k)
  {
    assert forall i, pc :: TimerAt(t, i, pc) <==> TimerAt(s, i, pc);
    assert ConnRearms(s) ==> ConnRearms(t);
    assert CallbackRuns(s) ==> CallbackRuns(t);
  }

  // Another connection that is about to arm a timer still is.
  lemma RearmsStay(s: State, t: State, c: int, pc: ConnPc)
    requires ConnRearms(s) && t.conns == s.conns[c := pc] && !At(s, c, FinishArm) && !At(s, c, FinishArmReady)
    ensures ConnRearms(t)
  {
    var d :| d in s.conns && (s.conns[d] == FinishArm || s.conns[d] == FinishArmReady);
    assert d != c && t.conns[d] == s.conns[d];
  }

  lemma StartKeepsTimers(s: State, k: Config)
    requires TimersFit(s, k) && PlacesFit(s) && AcceptEnabled(s, Start)
    ensures TimersFit(DoAccept(s, Start), k)
  {
    var t := DoAccept(s, Start);
    assert forall i, pc :: TimerAt(t, i, pc) <==> TimerAt(s, i, pc);
    if ConnRearms(s) {
      RearmsStay(s, t, s.accept.c, Handshake);
    }
    assert CallbackRuns(s) ==> CallbackRuns(t);
  }

  // A counted goroutine moves: the daemon is not idle before it and not after.
  lemma CountedStepKeepsTimers(s: State, k: Config, c: int, what: ConnStep)
    requires TimersFit(s, k) && s.inFlight > 0 && s.clients >= 0 && ConnEnabled(s, c, what)
    requires what != FinishConn && !what.DropArmDo? && !what.FinishArmDo?
    ensures TimersFit(DoConn(s, k, c, what), k)
  {
    hide MayArm, NextPlace;
    if what == AddCommit {
      hide ClearTimer;
      ClearedHasNone(s, k);
    } else {
      var t := DoConn(s, k, c, what);
      assert forall i, pc :: TimerAt(t, i, pc) <==> TimerAt(s, i, pc);
    }
  }

  // The last one to leave sees to the timer.
  lemma FinishKeepsTimers(s: State, k: Config, c: int)
    requires TimersFit(s, k) && s.inFlight > 0 && s.clients >= 0 && ConnEnabled(s, c, FinishConn)
    ensures TimersFit(DoConn(s, k, c, FinishConn), k)
  {
    hide MayArm;
    var t := DoConn(s, k, c, FinishConn);
    assert forall i, pc :: TimerAt(t, i, pc) <==> TimerAt(s, i, pc);
    if Idle(t) {
      assert c in t.conns && t.conns[c] == FinishArm;
    }
  }

  lemma LeavingKeepsTimers(s: State, k: Config, c: int, what: ConnStep)
    requires TimersFit(s, k) && ConnEnabled(s, c, what) && (what == FinishArmRead || what == Exit)
    ensures TimersFit(DoConn(s, k, c, what), k)
  {
    var t := DoConn(s, k, c, what);
    assert forall i, pc :: TimerAt(t, i, pc) <==> TimerAt(s, i, pc);
    assert CallbackRuns(s) ==> CallbackRuns(t);
    if what == Exit {
      if ConnRearms(s) {
        RearmsStay(s, t, c, Exited);
      }
    } else if MayArm(s, k) {
      assert c in t.conns && t.conns[c] == FinishArmReady;
    }
  }

  lemma ArmingKeepsTimers(s: State, k: Config, c: int, what: ConnStep)
    requires TimersFit(s, k) && ConnEnabled(s, c, what) && (what.DropArmDo? || what.FinishArmDo?)
    ensures TimersFit(DoConn(s, k, c, what), k)
  {
    hide Arm;
    ArmFits(s, k, what.t);
    var u, t := Arm(s, what.t), DoConn(s, k, c, what);
    assert forall i, pc :: TimerAt(t, i, pc) <==> TimerAt(u, i, pc);
  }

  lemma ConnKeepsTimers(s: State, k: Config, c: int, what: ConnStep)
    requires TimersFit(s, k) && CountsRight(s) && ConnEnabled(s, c, what)
    ensures TimersFit(DoConn(s, k, c, what), k)
  {
    hide TimersFit, CountsRight;
    ClientsInFlight(s);
    CountedMeansInFlight(s, c);
    if what.DropArmDo? || what.FinishArmDo? {
      ArmingKeepsTimers(s, k, c, what);
    } else if what == FinishArmRead || what == Exit {
      LeavingKeepsTimers(s, k, c, what);
    } else if what == FinishConn {
      FinishKeepsTimers(s, k, c);
    } else {
      CountedStepKeepsTimers(s, k, c, what);
    }
  }

  lemma CountedMeansInFlight(s: State, c: int)
    requires CountsRight(s) && c in s.conns
    ensures Counted(s.conns[c]) ==> s.inFlight > 0
  {
    SetsAt(s, c);
  }

  lemma StopIfIdleKeepsTimers(s: State, k: Config)
    requires TimersFit(s, k)
    ensures TimersFit(StopIfIdle(s), k)
  {
    hide ClearTimer;
    ClearedHasNone(s, k);
    assert Idle(s) && !s.stopping ==>
           forall i :: TimerAt(StopIfIdle(s), i, Pending) <==> TimerAt(ClearTimer(s), i, Pending);
  }

  lemma StopKeepsTimers(s: State, k: Config, x: StopStep)
    requires TimersFit(s, k) && ShutdownFits(s) && StopEnabled(s, x)
    ensures TimersFit(DoStop(s, x), k)
  {
    hide TimersFit, ClearTimer;
    match x
    case Watchdog => StopIfIdleKeepsTimers(s, k);
    case Begin => BeginKeepsTimers(s, k);
    case _ => SameTimers(s, DoStop(s, x), k);
  }

  lemma BeginKeepsTimers(s: State, k: Config)
    requires TimersFit(s, k) && s.stopping
    ensures TimersFit(DoStop(s, Begin), k)
  {
    hide ClearTimer;
    ClearedHasNone(s, k);
    assert forall i :: TimerAt(DoStop(s, Begin), i, Pending) <==> TimerAt(ClearTimer(s), i, Pending);
  }

  // A fired timer that is the daemon's own stops it, another's rearms.
  lemma CallbackKeepsTimers(s: State, k: Config, i: int)
    requires TimersFit(s, k) && TimerEnabled(s, i, Callback)
    ensures TimersFit(DoTimer(s, k, i, Callback), k)
  {
    hide ClearTimer;
    ClearedHasNone(s, k);
    var t := DoTimer(s, k, i, Callback);
    if Idle(s) && !s.stopping {
      assert forall j :: j != i ==> (TimerAt(t, j, Pending) <==> TimerAt(ClearTimer(s), j, Pending));
    } else {
      assert forall j, pc :: j != i ==> (TimerAt(t, j, pc) <==> TimerAt(s, j, pc));
    }
  }

  lemma ArmReadKeepsTimers(s: State, k: Config, i: int)
    requires TimersFit(s, k) && TimerEnabled(s, i, ArmRead)
    ensures TimersFit(DoTimer(s, k, i, ArmRead), k)
  {
    var t := DoTimer(s, k, i, ArmRead);
    assert forall j, pc :: j != i ==> (TimerAt(t, j, pc) <==> TimerAt(s, j, pc));
    assert i in t.timers && (MayArm(s, k) ==> t.timers[i] == ArmReady);
  }

  lemma ArmDoKeepsTimers(s: State, k: Config, i: int, next: int)
    requires TimersFit(s, k) && TimerEnabled(s, i, ArmDo(next))
    ensures TimersFit(DoTimer(s, k, i, ArmDo(next)), k)
  {
    hide Arm;
    ArmFits(s, k, next);
    var u, t := Arm(s, next), DoTimer(s, k, i, ArmDo(next));
    assert u.timers[i] == ArmReady;
    assert forall j, pc :: j != i ==> (TimerAt(t, j, pc) <==> TimerAt(u, j, pc));
  }

  lemma FireKeepsTimers(s: State, k: Config, i: int)
    requires TimersFit(s, k) && TimerEnabled(s, i, Fire)
    ensures TimersFit(DoTimer(s, k, i, Fire), k)
  {
    var t := DoTimer(s, k, i, Fire);
    assert forall j, pc :: j != i ==> (TimerAt(t, j, pc) <==> TimerAt(s, j, pc));
    assert TimerAt(t, i, Fired);
  }

  lemma TimerKeepsTimers(s: State, k: Config, i: int, tick: TimerStep)
    requires TimersFit(s, k) && TimerEnabled(s, i, tick)
    ensures TimersFit(DoTimer(s, k, i, tick), k)
  {
    hide TimersFit;
    match tick
    case Fire => FireKeepsTimers(s, k, i);
    case Callback => CallbackKeepsTimers(s, k, i);
    case ArmRead => ArmReadKeepsTimers(s, k, i);
    case ArmDo(next) => ArmDoKeepsTimers(s, k, i, next);
  }

  // ---- All of it, over every run ----------------------------------------------------------------

  lemma EveryStepKeeps(s: State, k: Config, step: Step)
    requires Inv(s, k) && Enabled(s, step)
    ensures Inv(Do(s, k, step), k)
  {
    hide CountsRight, WaitsRight, PlacesFit, ShutdownFits, TimersFit, ClearTimer, Arm;
    match step
    case Accept(a) =>
      AcceptKeepsPlaces(s, a);
      AcceptKeepsCounts(s, a);
      AcceptKeepsWaits(s, a);
      AcceptKeepsShutdown(s, a);
      AcceptKeepsTimers(s, k, a);
    case Conn(c, what) =>
      ConnKeepsPlaces(s, k, c, what);
      ConnKeepsCounts(s, k, c, what);
      ConnKeepsWaits(s, k, c, what);
      ConnKeepsShutdown(s, k, c, what);
      ConnKeepsTimers(s, k, c, what);
    case Timer(i, tick) =>
      OthersUntouched(s, DoTimer(s, k, i, tick));
      TimerKeepsShutdown(s, k, i, tick);
      TimerKeepsTimers(s, k, i, tick);
    case Stop(x) =>
      OthersUntouched(s, DoStop(s, x));
      StopKeepsShutdown(s, x);
      StopKeepsTimers(s, k, x);
  }

  lemma OthersUntouched(s: State, t: State)
    requires t.conns == s.conns && t.registered == s.registered && t.clients == s.clients && t.inFlight == s.inFlight
    requires t.mu == s.mu && t.accept == s.accept && t.wg == s.wg
    ensures CountsRight(s) ==> CountsRight(t)
    ensures WaitsRight(s) ==> WaitsRight(t)
    ensures PlacesFit(s) ==> PlacesFit(t)
  {
    assert forall c, pc :: At(t, c, pc) <==> At(s, c, pc);
  }

  ghost predicate Run(ss: seq<State>, steps: seq<Step>, k: Config) {
    && |ss| == |steps| + 1 && ss[0] == Init(k)
    && forall i :: 0 <= i < |steps| ==> Enabled(ss[i], steps[i]) && ss[i + 1] == Do(ss[i], k, steps[i])
  }

  lemma {:induction false} EveryRunKeeps(ss: seq<State>, steps: seq<Step>, k: Config, n: nat)
    requires Run(ss, steps, k) && n < |ss|
    ensures Inv(ss[n], k)
  {
    hide Inv, Do, Enabled;
    if n == 0 {
      InitFits(k);
    } else {
      EveryRunKeeps(ss, steps, k, n - 1);
      EveryStepKeeps(ss[n - 1], k, steps[n - 1]);
    }
  }

  // Sessions are counted in flight, and the artifacts go once at most, after
  // the accept loop and every connection goroutine are through.
  lemma RunsCountAndCleanOnce(ss: seq<State>, steps: seq<Step>, k: Config, n: nat)
    requires Run(ss, steps, k) && n < |ss|
    ensures ss[n].inFlight == |CountedConns(ss[n].conns)| && ss[n].clients == |ss[n].registered| <= ss[n].inFlight
    ensures ss[n].cleaned <= 1
    ensures ss[n].cleaned == 1 || ss[n].shutdown == Waited ==>
              ss[n].accept == AcceptDone && (forall c :: c in ss[n].conns ==> !Live(ss[n].conns[c]))
  {
    hide Do, Enabled, TimersFit, PlacesFit;
    EveryRunKeeps(ss, steps, k, n);
    ClientsInFlight(ss[n]);
    SomebodyWaitedFor(ss[n]);
  }

  // A stop that found the daemon idle cuts no session, then or later.
  lemma IdleStopCutsNobody(ss: seq<State>, steps: seq<Step>, k: Config, n: nat)
    requires Run(ss, steps, k) && n < |ss| && ss[n].idleStop
    ensures ss[n].cut == {} && ss[n].registered == {} && ss[n].inFlight == 0
  {
    hide Do, Enabled, TimersFit, PlacesFit, WaitsRight, CountsRight;
    EveryRunKeeps(ss, steps, k, n);
    ClientsInFlight(ss[n]);
  }

  // A stop closes every session it finds: none is still registered uncut.
  lemma StopCutsEverySession(ss: seq<State>, steps: seq<Step>, k: Config, n: nat)
    requires Run(ss, steps, k) && n < |ss| && ss[n].shutdown in {ConnsClosed, Waited, Finished}
    ensures ss[n].registered <= ss[n].cut && ss[n].stopping
  {
    hide Do, Enabled, TimersFit, PlacesFit, WaitsRight, CountsRight;
    EveryRunKeeps(ss, steps, k, n);
  }

  ghost predicate NobodyJoins(s: State, t: State) {
    Past(t) && t.registered <= s.registered && t.inFlight <= s.inFlight
  }

  lemma NobodyAccepted(s: State, a: AcceptStep)
    requires Past(s) && s.mu == Free && s.stopping && PlacesFit(s) && AcceptEnabled(s, a)
    ensures NobodyJoins(s, DoAccept(s, a))
  {
    hide ClearTimer;
  }

  lemma NobodyAdded(s: State, k: Config, c: int, what: ConnStep)
    requires Past(s) && s.mu == Free && s.inFlight >= 0 && PlacesFit(s) && ConnEnabled(s, c, what)
    ensures NobodyJoins(s, DoConn(s, k, c, what))
  {
    hide ClearTimer, Arm, NextPlace;
  }

  lemma NobodyByTimer(s: State, k: Config, i: int, tick: TimerStep)
    requires Past(s) && s.stopping
    ensures NobodyJoins(s, DoTimer(s, k, i, tick))
  {
    hide ClearTimer, Arm, MayArm;
  }

  // Once the shutdown's critical section is over nobody registers any more
  // and nothing new is counted in flight.
  lemma NobodyJoinsAShutdown(s: State, k: Config, step: Step)
    requires Inv(s, k) && Past(s) && Enabled(s, step)
    ensures var t := Do(s, k, step); Past(t) && t.registered <= s.registered && t.inFlight <= s.inFlight
  {
    hide CountsRight, WaitsRight, PlacesFit, TimersFit, DoAccept, DoConn, DoTimer;
    ClientsInFlight(s);
    match step
    case Accept(a) => NobodyAccepted(s, a);
    case Conn(c, what) => NobodyAdded(s, k, c, what);
    case Timer(i, tick) => NobodyByTimer(s, k, i, tick);
    case Stop(x) =>
  }

  // In any run an armed timer means no clients and nothing in flight, and an
  // idle daemon with a timeout has a timer or a goroutine on its way to one.
  lemma NoTimerIsLost(ss: seq<State>, steps: seq<Step>, k: Config, n: nat)
    requires Run(ss, steps, k) && n < |ss|
    ensures (exists i :: TimerAt(ss[n], i, Pending)) ==> ss[n].clients == 0 && ss[n].inFlight == 0
    ensures !ss[n].stopping && k.idleAfter > 0 && ss[n].inFlight == 0 ==>
              || (exists i :: TimerAt(ss[n], i, Pending)) || CallbackRuns(ss[n]) || ConnRearms(ss[n])
  {
    hide Do, Enabled, PlacesFit, WaitsRight, CountsRight, ShutdownFits, ConnRearms;
    EveryRunKeeps(ss, steps, k, n);
    ClientsInFlight(ss[n]);
  }

  // The accept loop may call Stop itself, after five failures. It then waits
  // for its own entry in the wait group: the shutdown never gets past that, in
  // whatever order the others go on.
  lemma {:induction false} AcceptLoopsOwnStopNeverEnds(ss: seq<State>, steps: seq<Step>, k: Config, m: nat, n: nat)
    requires Run(ss, steps, k) && m <= n < |ss| && ss[m].accept == InStop
    ensures ss[n].accept == InStop && ss[n].wg > 0 && ss[n].cleaned == 0
  {
    hide Inv, Do, Enabled;
    EveryRunKeeps(ss, steps, k, n);
    if m < n {
      AcceptLoopsOwnStopNeverEnds(ss, steps, k, m, n - 1);
      EveryRunKeeps(ss, steps, k, n - 1);
      StuckStaysStuck(ss[n - 1], k, steps[n - 1]);
    }
    StuckCleansNothing(ss[n], k);
  }

  // It comes to that in every configuration, when the first five accepts fail.
  lemma FiveFailuresGetThere(k: Config) returns (ss: seq<State>, steps: seq<Step>)
    ensures Run(ss, steps, k) && ss[|steps|].accept == InStop
  {
    var start := Init(k);
    var once, fifth := Accept(Fails(false)), Accept(Fails(true));
    steps := [once, once, once, once, fifth, Accept(GiveUp)];
    var given := Do(start, k, fifth);
    assert Do(start, k, once) == start;
    ss := [start, start, start, start, start, given, Do(given, k, Accept(GiveUp))];
  }

  lemma StuckStaysStuck(s: State, k: Config, step: Step)
    requires Inv(s, k) && s.accept == InStop && Enabled(s, step)
    ensures Do(s, k, step).accept == InStop
  {
    hide CountsRight, WaitsRight, PlacesFit, TimersFit, NextPlace;
  }

  lemma StuckCleansNothing(s: State, k: Config)
    requires Inv(s, k) && s.accept == InStop
    ensures s.wg > 0 && s.cleaned == 0
  {
    hide CountsRight, PlacesFit, TimersFit;
    SomebodyWaitedFor(s);
  }
}
