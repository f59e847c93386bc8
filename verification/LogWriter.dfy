/** The non-blocking log writer (safelog/nonblock.go) as a step system: writers
    that queue or drop, the drain goroutine, flush requests that may time out
    and leave their request behind, and Close. */
module LogWriter {
  import opened Wrappers

  type Line = string

  // A Write that got past the closed check: it counts its entry, then sends it
  // or takes the count back.
  datatype WriterPc = Entered(b: Line) | Counted(b: Line) | Dropping | Leaving

  // The drain goroutine; the Flush forms are inside drainAndAck.
  datatype DrainPc =
    | Select | Hand(b: Line) | Wrote
    | FlushSelect(ack: int) | FlushHand(ack: int, b: Line) | FlushWrote(ack: int) | Exited

  // Where Flush is: about to queue its ack, about to throw out a stale one,
  // about to try again, waiting.
  datatype FlushPc = NoFlush | Queue(ack: int) | Discard(ack: int) | Requeue(ack: int) | Waiting(ack: int)

  // Closing: the flag is set, Close waits in flushLocked.
  datatype ClosePc = Open | Closing | ChannelClosed

  // `accepted` is every line ever queued, `out` what dst was given, `asked`
  // how many lines were queued when each flush was asked for.
  datatype State = State(
    ch: seq<Line>, closing: ClosePc, pending: int, request: Option<int>, acked: set<int>,
    writers: map<int, WriterPc>, drain: DrainPc, flush: FlushPc,
    accepted: seq<Line>, out: seq<Line>, asked: map<int, nat>)

  datatype WriterStep = Enter(line: Line) | Count | Send | Drop | TakeBack | Leave

  datatype DrainStep = Take | Write | Uncount | TakeRequest | Acknowledge | TakeNothing | Exit

  datatype FlushStep = Call(ack: int) | TryQueue | DiscardStale | TryAgain | Return

  datatype CloseStep = SetFlag | CloseChannel

  datatype Step = Writer(w: int, ws: WriterStep) | Drain(ds: DrainStep) | Flush(fs: FlushStep) | Close(cs: CloseStep)

  predicate WriterAt(s: State, w: int, pc: WriterPc) {
    w in s.writers && s.writers[w] == pc
  }

  predicate WriterEnabled(s: State, capacity: nat, w: int, ws: WriterStep) {
    match ws
    case Enter(_) => w !in s.writers && s.closing == Open
    case Count => w in s.writers && s.writers[w].Entered?
    case Send => w in s.writers && s.writers[w].Counted? && |s.ch| < capacity
    case Drop => w in s.writers && s.writers[w].Counted? && |s.ch| >= capacity
    case TakeBack => WriterAt(s, w, Dropping)
    case Leave => WriterAt(s, w, Leaving)
  }

  function DoWriter(s: State, w: int, ws: WriterStep): State
    requires !ws.Enter? ==> w in s.writers
    requires ws == Count ==> s.writers[w].Entered?
    requires ws == Send ==> s.writers[w].Counted?
  {
    match ws
    case Enter(line) => s.(writers := s.writers[w := Entered(line)])
    case Count => s.(writers := s.writers[w := Counted(s.writers[w].b)], pending := s.pending + 1)
    case Send =>
      var b := s.writers[w].b;
      s.(writers := s.writers[w := Leaving], ch := s.ch + [b], accepted := s.accepted + [b])
    case Drop => s.(writers := s.writers[w := Dropping])
    case TakeBack => s.(writers := s.writers[w := Leaving], pending := s.pending - 1)
    case Leave => s.(writers := s.writers - {w})
  }

  // A receive from a closed, empty channel is always ready.
  predicate DrainEnabled(s: State, ds: DrainStep) {
    match ds
    case Take => (s.drain.Select? || s.drain.FlushSelect?) && s.ch != []
    case Write => s.drain.Hand? || s.drain.FlushHand?
    case Uncount => s.drain.Wrote? || s.drain.FlushWrote?
    case TakeRequest => s.drain.Select? && s.request.Some?
    case Acknowledge => s.drain.FlushSelect? && s.ch == [] && s.closing != ChannelClosed
    case TakeNothing => s.drain.FlushSelect? && s.ch == [] && s.closing == ChannelClosed
    case Exit => s.drain.Select? && s.ch == [] && s.closing == ChannelClosed
  }

  function DoDrain(s: State, ds: DrainStep): State
    requires DrainEnabled(s, ds)
  {
    match ds
    case Take =>
      s.(ch := s.ch[1..], drain := if s.drain.Select? then Hand(s.ch[0]) else FlushHand(s.drain.ack, s.ch[0]))
    case Write => s.(out := s.out + [s.drain.b], drain := if s.drain.Hand? then Wrote else FlushWrote(s.drain.ack))
    case Uncount => s.(pending := s.pending - 1, drain := if s.drain.Wrote? then Select else FlushSelect(s.drain.ack))
    case TakeRequest => s.(request := None, drain := FlushSelect(s.request.value))
    case Acknowledge => s.(acked := s.acked + {s.drain.ack}, drain := Select)
    case TakeNothing => s.(drain := FlushWrote(s.drain.ack))
    case Exit => s.(drain := Exited)
  }

  predicate FlushEnabled(s: State, fs: FlushStep) {
    match fs
    case Call(ack) => s.flush == NoFlush && ack !in s.asked && s.closing == Open
    case TryQueue => s.flush.Queue?
    case DiscardStale => s.flush.Discard?
    case TryAgain => s.flush.Requeue?
    case Return => s.flush.Waiting?
  }

  // One flush at a time: flushMu. Return is by the ack or by the timeout.
  function DoFlush(s: State, fs: FlushStep): State
    requires FlushEnabled(s, fs)
  {
    match fs
    case Call(ack) => s.(flush := Queue(ack), asked := s.asked[ack := |s.accepted|])
    case TryQueue =>
      if s.request == None then s.(request := Some(s.flush.ack), flush := Waiting(s.flush.ack))
      else s.(flush := Discard(s.flush.ack))
    case DiscardStale => s.(request := None, flush := Requeue(s.flush.ack))
    case TryAgain =>
      if s.request == None then s.(request := Some(s.flush.ack), flush := Waiting(s.flush.ack))
      else s.(flush := Waiting(s.flush.ack))
    case Return => s.(flush := NoFlush)
  }

  // Close holds flushMu, and takes the write lock, which waits for every Write
  // between its check and its send, to close the channel.
  predicate CloseEnabled(s: State, cs: CloseStep) {
    match cs
    case SetFlag => s.closing == Open && s.flush == NoFlush
    case CloseChannel => s.closing == Closing && s.writers == map[]
  }

  function DoClose(s: State, cs: CloseStep): State {
    match cs
    case SetFlag => s.(closing := Closing)
    case CloseChannel => s.(closing := ChannelClosed)
  }

  predicate Enabled(s: State, capacity: nat, step: Step) {
    match step
    case Writer(w, ws) => WriterEnabled(s, capacity, w, ws)
    case Drain(ds) => DrainEnabled(s, ds)
    case Flush(fs) => FlushEnabled(s, fs)
    case Close(cs) => CloseEnabled(s, cs)
  }

  function Do(s: State, capacity: nat, step: Step): State
    requires Enabled(s, capacity, step)
  {
    match step
    case Writer(w, ws) => DoWriter(s, w, ws)
    case Drain(ds) => DoDrain(s, ds)
    case Flush(fs) => DoFlush(s, fs)
    case Close(cs) => DoClose(s, cs)
  }

  function Init(): State {
    State([], Open, 0, None, {}, map[], Select, NoFlush, [], [], map[])
  }

  // ---- The invariant --------------------------------------------------------------------------

  // The line received and not yet handed to dst.
  function InHand(s: State): seq<Line> {
    if s.drain.Hand? || s.drain.FlushHand? then [s.drain.b] else []
  }

  // Received entries not yet taken off the counter.
  function Handled(s: State): int {
    if s.drain.Hand? || s.drain.FlushHand? || s.drain.Wrote? || s.drain.FlushWrote? then 1 else 0
  }

  function MidSend(writers: map<int, WriterPc>): set<int> {
    set w | w in writers && (writers[w].Counted? || writers[w].Dropping?)
  }

  // dst gets the accepted lines in order: those before the one in hand and
  // those still queued.
  ghost predicate InOrder(s: State) {
    s.out + InHand(s) + s.ch == s.accepted
  }

  ghost predicate CountsEntries(s: State) {
    s.closing != ChannelClosed ==> s.pending == |s.ch| + Handled(s) + |MidSend(s.writers)|
  }

  ghost predicate AcksHold(s: State) {
    && (forall a :: a in s.asked ==> s.asked[a] <= |s.accepted|)
    && (forall a :: a in s.acked ==> a in s.asked && s.asked[a] <= |s.out|)
    && (s.request.Some? ==> s.request.value in s.asked)
    && (s.drain.FlushSelect? || s.drain.FlushHand? || s.drain.FlushWrote? ==> s.drain.ack in s.asked)
    && (s.flush != NoFlush ==> s.flush.ack in s.asked)
  }

  ghost predicate ClosesCleanly(s: State) {
    && (s.closing == ChannelClosed ==> s.writers == map[])
    && (s.drain == Exited ==> s.closing == ChannelClosed && s.ch == [])
    && (s.closing != Open ==> s.flush == NoFlush)
  }

  ghost predicate Inv(s: State) {
    InOrder(s) && CountsEntries(s) && AcksHold(s) && ClosesCleanly(s)
  }

  lemma MidSendOneMore(writers: map<int, WriterPc>, w: int, pc: WriterPc)
    requires w in writers && writers[w].Entered? && pc.Counted?
    ensures |MidSend(writers[w := pc])| == |MidSend(writers)| + 1
  {
    assert MidSend(writers[w := pc]) == MidSend(writers) + {w};
  }

  lemma MidSendOneLess(writers: map<int, WriterPc>, w: int)
    requires w in writers && (writers[w].Counted? || writers[w].Dropping?)
    ensures |MidSend(writers[w := Leaving])| == |MidSend(writers)| - 1
  {
    assert MidSend(writers[w := Leaving]) == MidSend(writers) - {w};
  }

  lemma WriterKeeps(s: State, capacity: nat, w: int, ws: WriterStep)
    requires Inv(s) && WriterEnabled(s, capacity, w, ws)
    ensures Inv(DoWriter(s, w, ws))
  {
    var t := DoWriter(s, w, ws);
    match ws
    case Count => MidSendOneMore(s.writers, w, t.writers[w]);
    case Send =>
      MidSendOneLess(s.writers, w);
      assert s.out + InHand(s) + (s.ch + [s.writers[w].b]) == (s.out + InHand(s) + s.ch) + [s.writers[w].b];
    case TakeBack => MidSendOneLess(s.writers, w);
    case _ => assert MidSend(t.writers) == MidSend(s.writers);
  }

  lemma DrainKeeps(s: State, ds: DrainStep)
    requires Inv(s) && DrainEnabled(s, ds)
    ensures Inv(DoDrain(s, ds))
  {
    var t := DoDrain(s, ds);
    match ds
    case Take => assert s.out + [] + s.ch == s.out + [s.ch[0]] + s.ch[1..];
    case Write => assert s.out + [s.drain.b] + s.ch == (s.out + [s.drain.b]) + [] + s.ch;
    case Acknowledge => assert s.out + [] + [] == s.out;
    case _ =>
  }

  lemma FlushKeeps(s: State, fs: FlushStep)
    requires Inv(s) && FlushEnabled(s, fs)
    ensures Inv(DoFlush(s, fs))
  {
  }

  lemma CloseKeeps(s: State, cs: CloseStep)
    requires Inv(s) && CloseEnabled(s, cs)
    ensures Inv(DoClose(s, cs))
  {
  }

  lemma EveryStepKeeps(s: State, capacity: nat, step: Step)
    requires Inv(s) && Enabled(s, capacity, step)
    ensures Inv(Do(s, capacity, step))
  {
    hide Inv, DoWriter, DoDrain, DoFlush, DoClose;
    match step
    case Writer(w, ws) => WriterKeeps(s, capacity, w, ws);
    case Drain(ds) => DrainKeeps(s, ds);
    case Flush(fs) => FlushKeeps(s, fs);
    case Close(cs) => CloseKeeps(s, cs);
  }

  ghost predicate Run(ss: seq<State>, steps: seq<Step>, capacity: nat) {
    && |ss| == |steps| + 1 && ss[0] == Init()
    && forall i :: 0 <= i < |steps| ==> Enabled(ss[i], capacity, steps[i]) && ss[i + 1] == Do(ss[i], capacity, steps[i])
  }

  lemma {:induction false} EveryRunKeeps(ss: seq<State>, steps: seq<Step>, capacity: nat, n: nat)
    requires Run(ss, steps, capacity) && n < |ss|
    ensures Inv(ss[n])
  {
    hide Do, Enabled;
    if n == 0 {
      assert MidSend(map[]) == {};
    } else {
      EveryRunKeeps(ss, steps, capacity, n - 1);
      EveryStepKeeps(ss[n - 1], capacity, steps[n - 1]);
    }
  }

  // ---- What it says of every run -----------------------------------------------------------------

  // dst has a prefix of the accepted lines; while the channel is open the
  // counter is exact: queued, in hand, and mid-send.
  lemma OutputIsInOrder(ss: seq<State>, steps: seq<Step>, capacity: nat, n: nat)
    requires Run(ss, steps, capacity) && n < |ss|
    ensures ss[n].out <= ss[n].accepted
    ensures ss[n].closing != ChannelClosed ==>
              ss[n].pending == |ss[n].ch| + Handled(ss[n]) + |MidSend(ss[n].writers)|
    ensures ss[n].closing != ChannelClosed ==> ss[n].pending >= |ss[n].accepted| - |ss[n].out|
  {
    hide Do, Enabled;
    EveryRunKeeps(ss, steps, capacity, n);
    assert ss[n].out + InHand(ss[n]) + ss[n].ch == ss[n].out + (InHand(ss[n]) + ss[n].ch);
  }

  // A flush that was acknowledged: everything queued when it was called is
  // out, in order, whatever other flushes timed out before it. The acks they
  // left behind make no difference.
  lemma AcknowledgedFlushIsComplete(ss: seq<State>, steps: seq<Step>, capacity: nat, m: nat, n: nat, ack: int)
    requires Run(ss, steps, capacity) && m < n < |ss|
    requires steps[m] == Flush(Call(ack)) && ack in ss[n].acked
    ensures ss[m].accepted <= ss[n].out
  {
    hide Do, Enabled, InHand, MidSend;
    EveryRunKeeps(ss, steps, capacity, n);
    AskedAtCall(ss, steps, capacity, m, n, ack);
    AcceptedGrows(ss, steps, capacity, m, n);
    PrefixOf(ss[n]);
  }

  lemma PrefixOf(s: State)
    requires InOrder(s)
    ensures s.out <= s.accepted
  {
    assert s.out + InHand(s) + s.ch == s.out + (InHand(s) + s.ch);
  }

  lemma StepGrows(s: State, capacity: nat, step: Step)
    requires Enabled(s, capacity, step)
    ensures s.accepted <= Do(s, capacity, step).accepted
    ensures forall a :: a in s.asked ==>
              a in Do(s, capacity, step).asked && Do(s, capacity, step).asked[a] == s.asked[a]
  {
  }

  lemma {:induction false} AcceptedGrows(ss: seq<State>, steps: seq<Step>, capacity: nat, m: nat, n: nat)
    requires Run(ss, steps, capacity) && m <= n < |ss|
    ensures ss[m].accepted <= ss[n].accepted
  {
    hide Do, Enabled;
    if m < n {
      AcceptedGrows(ss, steps, capacity, m, n - 1);
      StepGrows(ss[n - 1], capacity, steps[n - 1]);
    }
  }

  lemma {:induction false} AskedAtCall(ss: seq<State>, steps: seq<Step>, capacity: nat, m: nat, n: nat, ack: int)
    requires Run(ss, steps, capacity) && m < n < |ss| && steps[m] == Flush(Call(ack))
    ensures ack in ss[n].asked && ss[n].asked[ack] == |ss[m].accepted|
  {
    if n == m + 1 {
      assert ss[n] == Do(ss[m], capacity, steps[m]);
    } else {
      hide Do, Enabled;
      AskedAtCall(ss, steps, capacity, m, n - 1, ack);
      StepGrows(ss[n - 1], capacity, steps[n - 1]);
    }
  }

  // No send meets a closed channel: Close waits for every Write under way.
  lemma NoSendOnAClosedChannel(ss: seq<State>, steps: seq<Step>, capacity: nat, n: nat)
    requires Run(ss, steps, capacity) && n < |steps| && steps[n].Writer? && steps[n].ws == Send
    ensures ss[n].closing != ChannelClosed
  {
    hide Do;
    EveryRunKeeps(ss, steps, capacity, n);
  }

  // While Close waits in flushLocked the channel is still open, so the drain
  // goroutine cannot have ended: that wait always runs into its timeout.
  lemma CloseWaitsOutItsTimeout(ss: seq<State>, steps: seq<Step>, capacity: nat, n: nat)
    requires Run(ss, steps, capacity) && n < |ss| && ss[n].closing == Closing
    ensures ss[n].drain != Exited
  {
    hide Do, Enabled;
    EveryRunKeeps(ss, steps, capacity, n);
  }

  // A flush request left behind by a timeout and picked up after the channel
  // is closed is never answered, and the drain goroutine never ends.
  predicate InFlush(s: State) {
    s.drain.FlushSelect? || s.drain.FlushHand? || s.drain.FlushWrote?
  }

  lemma {:induction false} LateRequestIsNeverAnswered(ss: seq<State>, steps: seq<Step>, capacity: nat, m: nat, n: nat)
    requires Run(ss, steps, capacity) && m <= n < |ss|
    requires ss[m].closing == ChannelClosed && InFlush(ss[m])
    ensures ss[n].closing == ChannelClosed && InFlush(ss[n]) && ss[n].drain.ack == ss[m].drain.ack
    ensures ss[n].acked == ss[m].acked
  {
    if m < n {
      LateRequestIsNeverAnswered(ss, steps, capacity, m, n - 1);
      assert ss[n] == Do(ss[n - 1], capacity, steps[n - 1]);
    }
  }

  // A flush that times out, a close, and the goroutine is caught.
  lemma CaughtAfterClose(capacity: nat) returns (ss: seq<State>, steps: seq<Step>)
    ensures Run(ss, steps, capacity) && ss[|steps|].closing == ChannelClosed && InFlush(ss[|steps|])
  {
    var s0 := Init();
    steps := [Flush(Call(0)), Flush(TryQueue), Flush(Return), Close(SetFlag), Close(CloseChannel), Drain(TakeRequest)];
    var s1 := Do(s0, capacity, steps[0]);
    var s2 := Do(s1, capacity, steps[1]);
    var s3 := Do(s2, capacity, steps[2]);
    var s4 := Do(s3, capacity, steps[3]);
    var s5 := Do(s4, capacity, steps[4]);
    ss := [s0, s1, s2, s3, s4, s5, Do(s5, capacity, steps[5])];
  }

  function DoAll(s: State, capacity: nat, steps: seq<Step>): Option<State>
    decreases |steps|
  {
    if steps == [] then Some(s)
    else if Enabled(s, capacity, steps[0]) then DoAll(Do(s, capacity, steps[0]), capacity, steps[1..])
    else None
  }

  // From here the goroutine can get caught.
  ghost predicate CanBeCaught(s: State, capacity: nat) {
    exists steps :: DoAll(s, capacity, steps).Some? && InFlush(DoAll(s, capacity, steps).value)
  }

  // A request is being served, or one is queued and the goroutine still runs.
  predicate RequestAround(s: State) {
    InFlush(s) || (s.request.Some? && s.drain != Exited)
  }

  lemma {:induction false} NeverCaught(s: State, capacity: nat, steps: seq<Step>)
    requires s.closing == ChannelClosed && s.flush == NoFlush && !RequestAround(s)
    requires DoAll(s, capacity, steps).Some?
    ensures !RequestAround(DoAll(s, capacity, steps).value)
    decreases |steps|
  {
    if steps != [] {
      NeverCaught(Do(s, capacity, steps[0]), capacity, steps[1..]);
    }
  }

  lemma GetsCaught(s: State, capacity: nat)
    requires RequestAround(s)
    ensures CanBeCaught(s, capacity)
  {
    if InFlush(s) {
      assert DoAll(s, capacity, []) == Some(s);
    } else {
      var last := [Drain(TakeRequest)];
      var wrote := [Drain(Uncount)] + last;
      assert last[1..] == [] && wrote[1..] == last;
      if s.drain.Select? {
        assert DoAll(s, capacity, last) == Some(DoDrain(s, TakeRequest));
      } else if s.drain.Wrote? {
        CaughtFromWrote(s, capacity);
      } else {
        var all := [Drain(Write)] + wrote;
        assert all[1..] == wrote;
        CaughtFromWrote(DoDrain(s, Write), capacity);
        assert DoAll(s, capacity, all) == DoAll(DoDrain(s, Write), capacity, wrote);
      }
    }
  }

  lemma CaughtFromWrote(s: State, capacity: nat)
    requires s.drain.Wrote? && s.request.Some?
    ensures var r := DoAll(s, capacity, [Drain(Uncount)] + [Drain(TakeRequest)]);
            r.Some? && InFlush(r.value)
  {
    var last := [Drain(TakeRequest)];
    var t := DoDrain(s, Uncount);
    assert last[1..] == [] && ([Drain(Uncount)] + last)[1..] == last;
    assert DoAll(t, capacity, last) == Some(DoDrain(t, TakeRequest));
  }

  // Once the channel is closed the goroutine can be caught exactly when a
  // request is still queued or being served. Where neither is, it never is.
  lemma CaughtExactly(ss: seq<State>, steps: seq<Step>, capacity: nat, m: nat)
    requires Run(ss, steps, capacity) && m < |ss| && ss[m].closing == ChannelClosed
    ensures CanBeCaught(ss[m], capacity) <==> InFlush(ss[m]) || (ss[m].request.Some? && ss[m].drain != Exited)
  {
    hide Do, Enabled, DoAll;
    EveryRunKeeps(ss, steps, capacity, m);
    if RequestAround(ss[m]) {
      GetsCaught(ss[m], capacity);
    } else if CanBeCaught(ss[m], capacity) {
      var more :| DoAll(ss[m], capacity, more).Some? && InFlush(DoAll(ss[m], capacity, more).value);
      NeverCaught(ss[m], capacity, more);
    }
  }

  // ---- What gets through -------------------------------------------------------------------------

  // The queue keeps to its capacity, and a line is dropped only when it is full.
  lemma {:induction false} QueueKeepsToCapacity(ss: seq<State>, steps: seq<Step>, capacity: nat, n: nat)
    requires Run(ss, steps, capacity) && n < |ss|
    ensures |ss[n].ch| <= capacity
    ensures n < |steps| && steps[n].Writer? && steps[n].ws == Drop ==> |ss[n].ch| == capacity
  {
    if n > 0 {
      QueueKeepsToCapacity(ss, steps, capacity, n - 1);
      QueueStep(ss[n - 1], capacity, steps[n - 1]);
    }
  }

  lemma QueueStep(s: State, capacity: nat, step: Step)
    requires Enabled(s, capacity, step) && |s.ch| <= capacity
    ensures |Do(s, capacity, step).ch| <= capacity
  {
  }

  // When the goroutine has ended, everything accepted is written.
  lemma EndedMeansWritten(ss: seq<State>, steps: seq<Step>, capacity: nat, n: nat)
    requires Run(ss, steps, capacity) && n < |ss| && ss[n].drain == Exited
    ensures ss[n].out == ss[n].accepted && ss[n].closing == ChannelClosed
  {
    hide Do, Enabled;
    EveryRunKeeps(ss, steps, capacity, n);
    assert ss[n].out + InHand(ss[n]) + ss[n].ch == ss[n].out;
  }

  predicate OnlyDrain(steps: seq<Step>) {
    forall i :: 0 <= i < |steps| ==> steps[i].Drain?
  }

  // The goroutine alone can answer from here: then the ack is given and every
  // line accepted so far is written.
  ghost predicate CanAnswer(s: State, capacity: nat, ack: int) {
    exists steps :: Answers(s, capacity, ack, steps)
  }

  ghost predicate Answers(s: State, capacity: nat, ack: int, steps: seq<Step>) {
    && OnlyDrain(steps) && DoAll(s, capacity, steps).Some?
    && var t := DoAll(s, capacity, steps).value; ack in t.acked && t.out == s.accepted
  }

  lemma AnswerOneStepOn(s: State, capacity: nat, ack: int, ds: DrainStep)
    requires DrainEnabled(s, ds) && CanAnswer(DoDrain(s, ds), capacity, ack)
    ensures CanAnswer(s, capacity, ack)
  {
    var rest :| Answers(DoDrain(s, ds), capacity, ack, rest);
    var steps := [Drain(ds)] + rest;
    assert steps[1..] == rest;
    assert Answers(s, capacity, ack, steps);
  }

  // A flush being served gets its ack once the queue is written out.
  lemma {:induction false} ServedIsAnswered(s: State, capacity: nat)
    requires s.closing != ChannelClosed && InFlush(s) && InOrder(s)
    ensures CanAnswer(s, capacity, s.drain.ack)
    decreases |s.ch|, if s.drain.FlushHand? then 2 else if s.drain.FlushWrote? then 1 else 0
  {
    var ack := s.drain.ack;
    if s.drain.FlushHand? {
      DrainInOrder(s, Write);
      ServedIsAnswered(DoDrain(s, Write), capacity);
      AnswerOneStepOn(s, capacity, ack, Write);
    } else if s.drain.FlushWrote? {
      DrainInOrder(s, Uncount);
      ServedIsAnswered(DoDrain(s, Uncount), capacity);
      AnswerOneStepOn(s, capacity, ack, Uncount);
    } else if s.ch != [] {
      DrainInOrder(s, Take);
      ServedIsAnswered(DoDrain(s, Take), capacity);
      AnswerOneStepOn(s, capacity, ack, Take);
    } else {
      var t := DoDrain(s, Acknowledge);
      assert s.out + [] + [] == s.out;
      assert DoAll(t, capacity, []) == Some(t);
      assert Answers(t, capacity, ack, []);
      AnswerOneStepOn(s, capacity, ack, Acknowledge);
    }
  }

  lemma DrainInOrder(s: State, ds: DrainStep)
    requires InOrder(s) && DrainEnabled(s, ds)
    ensures InOrder(DoDrain(s, ds)) && DoDrain(s, ds).accepted == s.accepted && DoDrain(s, ds).closing == s.closing
  {
    match ds
    case Take => assert s.out + [] + s.ch == s.out + [s.ch[0]] + s.ch[1..];
    case Write => assert s.out + [s.drain.b] + s.ch == (s.out + [s.drain.b]) + [] + s.ch;
    case _ =>
  }

  // A request that is queued gets there as well, whatever the goroutine is at.
  lemma QueuedIsAnswered(s: State, capacity: nat)
    requires s.closing != ChannelClosed && !InFlush(s) && s.drain != Exited && s.request.Some? && InOrder(s)
    ensures CanAnswer(s, capacity, s.request.value)
    decreases if s.drain.Hand? then 2 else if s.drain.Wrote? then 1 else 0
  {
    var ack := s.request.value;
    if s.drain.Hand? {
      DrainInOrder(s, Write);
      QueuedIsAnswered(DoDrain(s, Write), capacity);
      AnswerOneStepOn(s, capacity, ack, Write);
    } else if s.drain.Wrote? {
      DrainInOrder(s, Uncount);
      QueuedIsAnswered(DoDrain(s, Uncount), capacity);
      AnswerOneStepOn(s, capacity, ack, Uncount);
    } else {
      DrainInOrder(s, TakeRequest);
      ServedIsAnswered(DoDrain(s, TakeRequest), capacity);
      AnswerOneStepOn(s, capacity, ack, TakeRequest);
    }
  }

  // While the channel is open no flush need time out: one that is queued or
  // being served is answered as soon as the goroutine gets to run, with every
  // line accepted by now written.
  lemma OpenFlushCanBeAnswered(ss: seq<State>, steps: seq<Step>, capacity: nat, n: nat)
    requires Run(ss, steps, capacity) && n < |ss| && ss[n].closing != ChannelClosed
    ensures InFlush(ss[n]) ==> CanAnswer(ss[n], capacity, ss[n].drain.ack)
    ensures !InFlush(ss[n]) && ss[n].request.Some? ==> CanAnswer(ss[n], capacity, ss[n].request.value)
  {
    hide Do, Enabled, CanAnswer;
    EveryRunKeeps(ss, steps, capacity, n);
    if InFlush(ss[n]) {
      ServedIsAnswered(ss[n], capacity);
    } else if ss[n].request.Some? {
      QueuedIsAnswered(ss[n], capacity);
    }
  }

  // A stale request that a later flush finds gives way to the flush's own.
  lemma StaleRequestGivesWay(s: State, capacity: nat, ack: int)
    requires s.flush == Queue(ack)
    ensures var r := DoAll(s, capacity, if s.request == None then [Flush(TryQueue)]
                                        else [Flush(TryQueue), Flush(DiscardStale), Flush(TryAgain)]);
            r.Some? && r.value == s.(request := Some(ack), flush := Waiting(ack))
  {
    var one, two := [Flush(TryAgain)], [Flush(DiscardStale), Flush(TryAgain)];
    assert one[1..] == [] && two[1..] == one && [Flush(TryQueue)][1..] == [];
    assert [Flush(TryQueue), Flush(DiscardStale), Flush(TryAgain)][1..] == two;
    var a := DoFlush(s, TryQueue);
    if s.request != None {
      var b := DoFlush(a, DiscardStale);
      assert DoAll(b, capacity, one) == Some(DoFlush(b, TryAgain));
      assert DoAll(a, capacity, two) == DoAll(b, capacity, one);
    }
  }

  // A request taken up is off the queue.
  lemma TakenRequestIsGone(s: State)
    requires DrainEnabled(s, TakeRequest)
    ensures DoDrain(s, TakeRequest).request == None && InFlush(DoDrain(s, TakeRequest))
    ensures DoDrain(s, TakeRequest).drain.ack == s.request.value
  {
  }
}
