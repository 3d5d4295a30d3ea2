/** What holds over every run of the transmit machine: nothing is lost, doubled or overtaken, the retry limits are
    kept, and whoever gets a buffer back gets the payload it gave. */
module MacRuns {
  import opened MacModel

  /** A buffer that has left, with what was counted while it was on air: the frames written to the radio, the
      failed channel checks since the last of them, and the timer events. */
  datatype Departure = Departure(buffer: Buffer, how: How, sent: seq<seq<Byte>>, failed: nat, expiries: nat)

  datatype Trace = Trace(s: State, accepted: seq<Buffer>, gone: seq<Departure>, sent: seq<seq<Byte>>, failed: nat, expiries: nat)

  datatype Input = Down(b: Buffer) | TimerInterrupt | AckInterrupt(sqn: Byte) | RxInterrupt | TaskTurn(radio: Radio)

  function Boot(sequence: Byte): Trace {
    Trace(State([], None, NO_TIMER, false, 0, 0, sequence, []), [], [], [], 0, 0)
  }

  function Counted(tr: Trace, u: State, e: Effect, timer: bool): Trace {
    var sent := if e.attempt.Sent? then tr.sent + [e.attempt.frame] else tr.sent;
    var failed := if e.attempt.Sent? then 0 else if e.attempt.Failed? then tr.failed + 1 else tr.failed;
    var expiries := if timer then tr.expiries + 1 else tr.expiries;
    if e.gone.Some? then
      Trace(u, tr.accepted, tr.gone + [Departure(e.gone.value.0, e.gone.value.1, sent, failed, expiries)], [], 0, 0)
    else Trace(u, tr.accepted, tr.gone, sent, failed, expiries)
  }

  function Step(tr: Trace, i: Input): Trace
    requires Sendable(tr.s)
  {
    match i
    case Down(b) =>
      var (u, ok) := Handle(tr.s, b);
      tr.(s := u, accepted := if ok then tr.accepted + [b] else tr.accepted)
    case TimerInterrupt => tr.(s := Callback(tr.s))
    case AckInterrupt(sqn) => tr.(s := AckArrives(tr.s, sqn))
    case RxInterrupt => tr.(s := Post(tr.s, RECEIVE))
    case TaskTurn(radio) =>
      var (u, e) := Turn(tr.s, radio);
      Counted(tr, u, e, tr.s.events != [] && tr.s.events[0] in {TIMER_CCA, TIMER_ACK})
  }

  // ---------------------------------------------------------------- the invariant

  /** A buffer on air or gone is the accepted one, before or after its header was put in front. */
  ghost predicate IsFrameOf(b: Buffer, orig: Buffer, sequence: Byte)
    requires Ready(orig)
  {
    b == Headed(orig.(toMac := true), sequence)
  }

  function Previous(s: Byte): Byte { if s == 0 then 0xff else s - 1 }

  /** How many timer events the frame on air can still see. */
  function Budget(s: State): int {
    (MAC_RETRY_MAX - s.retry) * 11 + if s.timer == CCA then MAC_CCA_RETRY_MAX - s.ccaRetry + 2 else 1
  }

  ghost predicate AllSame(frames: seq<seq<Byte>>, frame: seq<Byte>) { forall f :: f in frames ==> f == frame }

  /** The frame on air, the accepted buffer it is, and the counts so far. Once it has been written, the timer runs
      for an acknowledgement, or is cleared because one has come. */
  ghost predicate OnAir(tr: Trace, orig: Buffer) {
    tr.s.onAir.Some? &&
    var s := tr.s; var b := s.onAir.value;
    && Ready(orig)
    && s.retry <= MAC_RETRY_MAX && s.ccaRetry <= MAC_CCA_RETRY_MAX
    && tr.failed == s.ccaRetry
    && |tr.sent| == s.retry + (if s.timer == CCA then 0 else 1)
    && (s.timer != CCA ==> s.ccaRetry == 0)
    && (b == orig.(toMac := true) || IsFrameOf(b, orig, Previous(s.sequence)))
    && (b.toMac ==> tr.sent == [] && s.timer == CCA)
    && (!b.toMac ==> AllSame(tr.sent, Window(b)))
    && (tr.sent != [] ==> !orig.broadcast)
    && tr.expiries + Budget(s) <= 44
  }

  /** How a buffer may leave, and what must have happened before. */
  ghost predicate Left(d: Departure, orig: Buffer) {
    && Ready(orig)
    && |d.sent| <= 4 && d.failed <= 10 && d.expiries <= 44
    && exists sequence: Byte ::
         var frame := Headed(orig.(toMac := true), sequence);
         && AllSame(d.sent, Window(frame))
         && match d.how
            case Freed => orig.broadcast && d.buffer == frame && |d.sent| == 1 && d.failed == 0
            case Acknowledged => !orig.broadcast && d.buffer == frame && |d.sent| > 0 && d.failed == 0
            case BrokenLink => d.buffer == Unwound(frame) && (orig.broadcast ==> d.sent == []) &&
                               (d.failed == 10 || (!orig.broadcast && |d.sent| == 4 && d.failed == 0))
  }

  /** What must be the case while an event waits. */
  predicate Fits(s: State, e: Event) {
    match e
    case TRANSMIT => true
    case RECEIVE => true
    case TIMER_CCA => s.timer == CCA && !s.active
    case TIMER_ACK => s.timer == ACK && !s.active
    case ACK_RX => s.timer == NO_TIMER && s.onAir.Some?
  }

  /** The event queue holds one event at most that decides about the frame on air, and only while it can. */
  ghost predicate EventsOk(s: State) {
    && |s.events| <= EVENT_QUEUE_SIZE && (s.timer == NO_TIMER ==> !s.active)
    && (forall i :: 0 <= i < |s.events| ==> Fits(s, s.events[i]))
    && (forall i, j :: 0 <= i < j < |s.events| && Signal(s.events[i]) ==> !Signal(s.events[j]))
  }

  /** The queue holds the accepted buffers from number `from` on. */
  ghost predicate Waiting(queue: seq<Buffer>, accepted: seq<Buffer>, from: nat) {
    && from + |queue| == |accepted|
    && forall k :: from <= k < |accepted| ==> Ready(accepted[k]) && queue[k - from] == accepted[k].(toMac := true)
  }

  /** The first accepted buffers have left, in order. */
  ghost predicate AllLeft(gone: seq<Departure>, accepted: seq<Buffer>) {
    |gone| <= |accepted| && forall i :: 0 <= i < |gone| ==> Left(gone[i], accepted[i])
  }

  ghost predicate Idle(tr: Trace) {
    var s := tr.s;
    s.timer == NO_TIMER && s.retry == 0 && s.ccaRetry == 0 && tr.sent == [] && tr.failed == 0 && tr.expiries == 0
  }

  /** The accepted buffers are, in order, those that have left, the one on air, and those in the queue. */
  ghost predicate Inv(tr: Trace) {
    var s := tr.s; var n := |tr.gone|;
    && EventsOk(s) && |s.queue| <= QUEUE_SIZE && AllLeft(tr.gone, tr.accepted)
    && if s.onAir.Some? then Waiting(s.queue, tr.accepted, n + 1) && OnAir(tr, tr.accepted[n])
       else Waiting(s.queue, tr.accepted, n) && Idle(tr)
  }

  /** The task is about to handle a TRANSMIT event while a buffer waits and an acknowledged frame, its timer already
      cleared, has not been released. */
  predicate Overwrites(s: State) {
    s.events != [] && s.events[0] == TRANSMIT && s.timer == NO_TIMER && s.onAir.Some? && s.queue != []
  }

  /** A step within the scope of the run theorems. */
  predicate Allowed(s: State, i: Input) { (i.Down? ==> Ready(i.b)) && !(i.TaskTurn? && Overwrites(s)) }

  // ---------------------------------------------------------------- frames

  lemma HeadedFacts(orig: Buffer, sequence: Byte)
    requires Ready(orig)
    ensures var f := Headed(orig.(toMac := true), sequence);
      && |f.bytes| == |orig.bytes| && f.end == orig.end && f.ptr + HeaderSize(orig) == orig.ptr && !f.toMac
      && f.compressed == (orig.end - orig.ptr) % 256
      && f.bytes[f.ptr] == ControlByte(orig) && f.bytes[f.ptr + 1] == orig.modes && f.bytes[f.ptr + 2] == sequence
      && f.bytes[orig.ptr..] == orig.bytes[orig.ptr..]
  {
    var f := Headed(orig.(toMac := true), sequence);
    var at := orig.ptr - HeaderSize(orig);
    var h := Header(orig, sequence);
    assert f.bytes == orig.bytes[..at] + h + orig.bytes[orig.ptr..];
    assert f.bytes[at] == h[0] && f.bytes[at + 1] == h[1] && f.bytes[at + 2] == h[2];
  }

  /** The ack flag read back from the frame control field is the one the header was made with. */
  lemma AckSurvives(orig: Buffer, sequence: Byte)
    requires Ready(orig)
    ensures var f := Headed(orig.(toMac := true), sequence);
      f.ptr + 1 < |f.bytes| && (AckRequested(f) <==> !orig.broadcast)
  {
    HeadedFacts(orig, sequence);
    var c, m := ControlByte(orig) as int, orig.modes as int;
    assert (m * 256 + c) / 0x20 == m * 8 + c / 0x20;
    assert (m * 8 + c / 0x20) % 2 == c / 0x20 % 2;
  }

  lemma OnAirIsSendable(tr: Trace, orig: Buffer)
    requires OnAir(tr, orig)
    ensures Sendable(tr.s)
  {
    var b := tr.s.onAir.value;
    if b != orig.(toMac := true) { HeadedFacts(orig, Previous(tr.s.sequence)); }
  }

  /** The frame that is sent, whether the header is made now or was made before. */
  lemma PreparedIsFrame(tr: Trace, orig: Buffer)
    requires OnAir(tr, orig)
    ensures Sendable(tr.s)
    ensures var (b, sequence, ack) := Prepare(tr.s.onAir.value, tr.s.sequence);
      && IsFrameOf(b, orig, Previous(sequence)) && (ack <==> !orig.broadcast) && !b.toMac
      && AllSame(tr.sent, Window(b)) && (tr.s.onAir.value.toMac ==> tr.sent == [])
  {
    OnAirIsSendable(tr, orig);
    var b := tr.s.onAir.value;
    if b.toMac {
      if b != orig.(toMac := true) { HeadedFacts(orig, Previous(tr.s.sequence)); }
      HeadedFacts(orig, tr.s.sequence);
    } else {
      AckSurvives(orig, Previous(tr.s.sequence));
    }
  }

  // ---------------------------------------------------------------- steps

  predicate NoSignals(s: State) { forall i :: 0 <= i < |s.events| ==> !Signal(s.events[i]) }

  lemma InvSendable(tr: Trace)
    requires Inv(tr)
    ensures Sendable(tr.s)
  {
    if tr.s.onAir.Some? { OnAirIsSendable(tr, tr.accepted[|tr.gone|]); }
  }

  lemma PostKeeps(tr: Trace, e: Event)
    requires Inv(tr) && e in {TRANSMIT, RECEIVE}
    ensures Inv(tr.(s := Post(tr.s, e)))
  {
    SameFrame(tr, Post(tr.s, e));
  }

  /** Only the events have changed. */
  lemma SameFrame(tr: Trace, u: State)
    requires Inv(tr) && EventsOk(u) && u == tr.s.(events := u.events, active := u.active)
    ensures Inv(tr.(s := u))
  {
    var t := tr.(s := u);
    if u.onAir.Some? {
      var orig := tr.accepted[|tr.gone|];
      assert OnAir(tr, orig);
      assert OnAir(t, orig);
    }
  }

  lemma CallbackKeeps(tr: Trace)
    requires Inv(tr)
    ensures Inv(tr.(s := Callback(tr.s)))
  {
    SameFrame(tr, Callback(tr.s));
  }

  lemma PopKeeps(tr: Trace)
    requires Inv(tr) && tr.s.events != []
    ensures var u := tr.s.(events := tr.s.events[1..]);
      Inv(tr.(s := u)) && (Signal(tr.s.events[0]) ==> NoSignals(u))
  {
    var u := tr.s.(events := tr.s.events[1..]);
    assert forall i :: 0 <= i < |u.events| ==> u.events[i] == tr.s.events[i + 1];
    SameFrame(tr, u);
  }

  lemma WaitingNext(queue: seq<Buffer>, accepted: seq<Buffer>, from: nat)
    requires Waiting(queue, accepted, from) && queue != []
    ensures Ready(accepted[from]) && queue[0] == accepted[from].(toMac := true) && Waiting(queue[1..], accepted, from + 1)
  {
  }

  /** A queued buffer goes on air. */
  lemma StartKeeps(tr: Trace, u: State)
    requires Inv(tr) && tr.s.timer == NO_TIMER && tr.s.onAir.None? && tr.s.queue != [] && u == Start(tr.s)
    ensures Inv(tr.(s := u))
  {
    var t := tr.(s := u);
    var orig := tr.accepted[|tr.gone|];
    WaitingNext(tr.s.queue, tr.accepted, |tr.gone|);
    assert OnAir(t, orig);
  }

  lemma ContinueKeeps(tr: Trace)
    requires Inv(tr)
    ensures Inv(tr.(s := Continue(tr.s)))
  {
    if tr.s.timer == NO_TIMER && tr.s.onAir.None? && tr.s.queue != [] {
      assert tr.s.(ccaRetry := 0) == tr.s;
      StartKeeps(tr, Continue(tr.s));
    }
  }

  /** The frame on air leaves: its departure goes to the record, and nobody is overtaken. */
  lemma DepartureKeeps(tr: Trace, u: State, d: Departure)
    requires Inv(tr) && tr.s.onAir.Some? && Left(d, tr.accepted[|tr.gone|])
    requires u.onAir.None? && u.timer == NO_TIMER && u.retry == 0 && u.ccaRetry == 0 && u.queue == tr.s.queue && EventsOk(u)
    ensures Inv(Trace(u, tr.accepted, tr.gone + [d], [], 0, 0))
  {
  }

  lemma CcaKeeps(tr: Trace, radio: Radio)
    requires Inv(tr) && tr.s.timer == CCA && !tr.s.active && NoSignals(tr.s)
    ensures Sendable(tr.s)
    ensures var (u, e) := CcaExpired(tr.s, radio); Inv(Counted(tr, u, e, true))
  {
    PreparedIsFrame(tr, tr.accepted[|tr.gone|]);
    if radio == Written { WrittenKeeps(tr); } else { BusyKeeps(tr, radio); }
  }

  lemma WrittenKeeps(tr: Trace)
    requires Inv(tr) && tr.s.timer == CCA && !tr.s.active && NoSignals(tr.s) && Sendable(tr.s)
    ensures var (u, e) := CcaExpired(tr.s, Written); Inv(Counted(tr, u, e, true))
  {
    var orig := tr.accepted[|tr.gone|];
    PreparedIsFrame(tr, orig);
    var (u, e) := CcaExpired(tr.s, Written);
    var t := Counted(tr, u, e, true);
    if e.gone.Some? {
      assert Left(t.gone[|tr.gone|], orig);
      DepartureKeeps(tr, u, t.gone[|tr.gone|]);
    } else {
      assert OnAir(t, orig);
    }
  }

  lemma BusyKeeps(tr: Trace, radio: Radio)
    requires Inv(tr) && tr.s.timer == CCA && !tr.s.active && NoSignals(tr.s) && Sendable(tr.s) && radio != Written
    ensures var (u, e) := CcaExpired(tr.s, radio); Inv(Counted(tr, u, e, true))
  {
    var orig := tr.accepted[|tr.gone|];
    PreparedIsFrame(tr, orig);
    var (u, e) := CcaExpired(tr.s, radio);
    var t := Counted(tr, u, e, true);
    if e.gone.Some? {
      assert Left(t.gone[|tr.gone|], orig);
      DepartureKeeps(tr, u, t.gone[|tr.gone|]);
    } else {
      assert OnAir(t, orig);
    }
  }

  lemma AckKeeps(tr: Trace)
    requires Inv(tr) && tr.s.timer == ACK && !tr.s.active && NoSignals(tr.s)
    ensures var (u, e) := AckExpired(tr.s); Inv(Counted(tr, u, e, true))
  {
    var orig := tr.accepted[|tr.gone|];
    PreparedIsFrame(tr, orig);
    var (u, e) := AckExpired(tr.s);
    var t := Counted(tr, u, e, true);
    if e.gone.Some? {
      var d := t.gone[|tr.gone|];
      assert Left(d, orig);
      DepartureKeeps(tr, u, d);
    } else {
      assert OnAir(t, orig);
    }
  }

  /** An acknowledgement arrives: the frame stays on air until its event is handled. */
  lemma AnswerKeeps(tr: Trace, sqn: Byte)
    requires Inv(tr)
    ensures Inv(Step(tr, AckInterrupt(sqn)))
  {
    if Takes(tr.s, sqn) {
      var t := tr.(s := AckArrives(tr.s, sqn));
      assert NoSignals(tr.s) by {
        forall i | 0 <= i < |tr.s.events| ensures !Signal(tr.s.events[i]) { assert Fits(tr.s, tr.s.events[i]); }
      }
      assert OnAir(t, tr.accepted[|tr.gone|]);
    }
  }

  /** The acknowledged frame leaves. */
  lemma AcknowledgedKeeps(tr: Trace)
    requires Inv(tr) && tr.s.timer == NO_TIMER && tr.s.onAir.Some? && NoSignals(tr.s)
    ensures var (u, e) := AckReceived(tr.s); Inv(Counted(tr, u, e, false))
  {
    var orig := tr.accepted[|tr.gone|];
    PreparedIsFrame(tr, orig);
    var (u, e) := AckReceived(tr.s);
    var d := Departure(tr.s.onAir.value, Acknowledged, tr.sent, tr.failed, tr.expiries);
    assert Left(d, orig);
    DepartureKeeps(tr, u, d);
  }

  lemma WaitingMore(queue: seq<Buffer>, accepted: seq<Buffer>, from: nat, b: Buffer)
    requires Waiting(queue, accepted, from) && Ready(b)
    ensures Waiting(queue + [b.(toMac := true)], accepted + [b], from)
  {
  }

  lemma DownKeeps(tr: Trace, b: Buffer)
    requires Inv(tr) && Ready(b)
    ensures Inv(Step(tr, Down(b)))
  {
    var (u, ok) := Add(tr.s, b);
    var t := tr.(s := u, accepted := if ok then tr.accepted + [b] else tr.accepted);
    if ok {
      WaitingMore(tr.s.queue, tr.accepted, if tr.s.onAir.Some? then |tr.gone| + 1 else |tr.gone|, b);
      if tr.s.onAir.Some? { assert t.accepted[|t.gone|] == tr.accepted[|tr.gone|] && OnAir(t, t.accepted[|t.gone|]); }
    }
    assert Inv(t);
    PostKeeps(t, TRANSMIT);
  }

  /** What a step counts does not depend on the events still waiting, nor on how the loop goes on. */
  lemma CountedElsewhere(tr: Trace, t: Trace, u: State, v: State, e: Effect, timer: bool)
    requires t == tr.(s := t.s)
    ensures Counted(tr, v, e, timer) == Counted(t, u, e, timer).(s := v) && Counted(t, u, e, timer).s == u
  {
  }

  lemma CountedThenContinue(tr: Trace, t: Trace, u: State, e: Effect, timer: bool, counted: Trace)
    requires t == tr.(s := t.s) && counted == Counted(t, u, e, timer) && Inv(counted)
    ensures Inv(Counted(tr, Continue(u), e, timer))
  {
    CountedElsewhere(tr, t, u, Continue(u), e, timer);
    ContinueKeeps(counted);
  }

  lemma TransmitKeeps(tr: Trace, t: Trace, radio: Radio)
    requires Inv(tr) && Sendable(tr.s) && tr.s.events != [] && tr.s.events[0] == TRANSMIT && !Overwrites(tr.s)
    requires t == tr.(s := tr.s.(events := tr.s.events[1..])) && Inv(t)
    ensures Inv(Step(tr, TaskTurn(radio)))
  {
    var u := if t.s.timer != NO_TIMER || t.s.queue == [] then t.s else Start(t.s);
    if u != t.s { StartKeeps(t, u); }
    ContinueKeeps(t.(s := u));
  }

  lemma SignalKeeps(tr: Trace, t: Trace, radio: Radio)
    requires Inv(tr) && Sendable(tr.s) && tr.s.events != [] && Signal(tr.s.events[0])
    requires t == tr.(s := tr.s.(events := tr.s.events[1..])) && Inv(t) && NoSignals(t.s)
    ensures Inv(Step(tr, TaskTurn(radio)))
  {
    assert Fits(tr.s, tr.s.events[0]);
    match tr.s.events[0]
    case TIMER_CCA =>
      CcaKeeps(t, radio);
      var (u, e) := CcaExpired(t.s, radio);
      CountedThenContinue(tr, t, u, e, true, Counted(t, u, e, true));
    case TIMER_ACK =>
      AckKeeps(t);
      var (u, e) := AckExpired(t.s);
      CountedThenContinue(tr, t, u, e, true, Counted(t, u, e, true));
    case ACK_RX =>
      AcknowledgedKeeps(t);
      var (u, e) := AckReceived(t.s);
      CountedThenContinue(tr, t, u, e, false, Counted(t, u, e, false));
  }

  lemma TurnKeeps(tr: Trace, radio: Radio)
    requires Inv(tr) && !Overwrites(tr.s)
    ensures Sendable(tr.s) && Inv(Step(tr, TaskTurn(radio)))
  {
    InvSendable(tr);
    if tr.s.events != [] {
      PopKeeps(tr);
      var t := tr.(s := tr.s.(events := tr.s.events[1..]));
      if tr.s.events[0] == TRANSMIT {
        TransmitKeeps(tr, t, radio);
      } else if tr.s.events[0] == RECEIVE {
        ContinueKeeps(t);
      } else {
        SignalKeeps(tr, t, radio);
      }
    }
  }

  /** The next buffer takes the place of the acknowledged one, which is then nowhere. */
  lemma OverwritingLoses(tr: Trace, radio: Radio)
    requires Inv(tr) && Overwrites(tr.s) && Sendable(tr.s)
    ensures var t := Step(tr, TaskTurn(radio));
      && !Inv(t) && t.accepted == tr.accepted && t.gone == tr.gone && t.s.onAir == Some(tr.s.queue[0])
      && |t.gone| + 1 + |t.s.queue| == |t.accepted| - 1
  {
  }

  // ---------------------------------------------------------------- runs

  lemma BootKeeps(sequence: Byte)
    ensures Inv(Boot(sequence))
  {
  }

  /** A step keeps the invariant if and only if it does not overwrite the frame on air; if it does, one accepted
      buffer is nowhere. */
  lemma StepKeeps(tr: Trace, i: Input)
    requires Inv(tr) && (i.Down? ==> Ready(i.b))
    ensures Sendable(tr.s) && (Inv(Step(tr, i)) <==> Allowed(tr.s, i))
    ensures !Allowed(tr.s, i) ==> var t := Step(tr, i);
      t.accepted == tr.accepted && t.gone == tr.gone && t.s.onAir.Some? && |t.gone| + 1 + |t.s.queue| == |t.accepted| - 1
  {
    InvSendable(tr);
    match i
    case Down(b) => DownKeeps(tr, b);
    case TimerInterrupt => CallbackKeeps(tr);
    case AckInterrupt(sqn) => AnswerKeeps(tr, sqn);
    case RxInterrupt => PostKeeps(tr, RECEIVE);
    case TaskTurn(radio) => if Overwrites(tr.s) { OverwritingLoses(tr, radio); } else { TurnKeeps(tr, radio); }
  }

  /** No step of the run overwrites the frame on air. */
  ghost predicate InScope(tr: Trace, inputs: seq<Input>)
    requires Inv(tr)
    decreases |inputs|
  {
    inputs == [] ||
    (Allowed(tr.s, inputs[0]) && (StepKeeps(tr, inputs[0]); InScope(Step(tr, inputs[0]), inputs[1..])))
  }

  /** A run of the machine. */
  ghost function Run(tr: Trace, inputs: seq<Input>): Trace
    requires Inv(tr) && InScope(tr, inputs)
    decreases |inputs|
  {
    if inputs == [] then tr
    else
      StepKeeps(tr, inputs[0]);
      Run(Step(tr, inputs[0]), inputs[1..])
  }

  ghost predicate InScopeFrom(sequence: Byte, inputs: seq<Input>) {
    BootKeeps(sequence);
    InScope(Boot(sequence), inputs)
  }

  ghost function RunFrom(sequence: Byte, inputs: seq<Input>): Trace
    requires InScopeFrom(sequence, inputs)
  {
    BootKeeps(sequence);
    Run(Boot(sequence), inputs)
  }

  /** Every state of a run satisfies the invariant. */
  lemma {:induction false} RunKeeps(tr: Trace, inputs: seq<Input>)
    requires Inv(tr) && InScope(tr, inputs)
    ensures Inv(Run(tr, inputs))
    decreases |inputs|
  {
    if inputs != [] {
      StepKeeps(tr, inputs[0]);
      RunKeeps(Step(tr, inputs[0]), inputs[1..]);
    }
  }

  lemma RunFromKeeps(sequence: Byte, inputs: seq<Input>) returns (tr: Trace)
    requires InScopeFrom(sequence, inputs)
    ensures tr == RunFrom(sequence, inputs) && Inv(tr)
  {
    BootKeeps(sequence);
    RunKeeps(Boot(sequence), inputs);
    tr := RunFrom(sequence, inputs);
  }

  /** Every accepted buffer is in exactly one place, and they leave in the order they came. */
  lemma NothingLost(sequence: Byte, inputs: seq<Input>)
    requires InScopeFrom(sequence, inputs)
    ensures var tr := RunFrom(sequence, inputs); var n := |tr.gone|; var air := if tr.s.onAir.Some? then 1 else 0;
      && n + air + |tr.s.queue| == |tr.accepted| && |tr.s.queue| <= 3
      && (forall i :: 0 <= i < n ==> tr.gone[i].buffer.id == tr.accepted[i].id)
      && (tr.s.onAir.Some? ==> tr.s.onAir.value.id == tr.accepted[n].id)
      && (forall k :: n + air <= k < |tr.accepted| ==> tr.s.queue[k - (n + air)].id == tr.accepted[k].id)
  {
    var tr := RunFromKeeps(sequence, inputs);
    forall i | 0 <= i < |tr.gone| ensures tr.gone[i].buffer.id == tr.accepted[i].id {
      assert Left(tr.gone[i], tr.accepted[i]);
    }
  }

  /** At most four transmissions of the same frame, at most ten failed channel checks in a row, at most 44 timer
      events, at most three buffers waiting; and without a frame on air no counter and no timer is left over. */
  lemma LimitsKept(sequence: Byte, inputs: seq<Input>)
    requires InScopeFrom(sequence, inputs)
    ensures var tr := RunFrom(sequence, inputs);
      && |tr.sent| <= 4 && tr.failed <= 9 && tr.expiries <= 44 && |tr.s.queue| <= 3
      && (forall d :: d in tr.gone ==> |d.sent| <= 4 && d.failed <= 10 && d.expiries <= 44)
      && (forall d, f, g :: d in tr.gone && f in d.sent && g in d.sent ==> f == g)
      && (tr.s.onAir.None? ==> tr.s.timer == NO_TIMER && tr.s.retry == 0 && tr.s.ccaRetry == 0)
  {
    var tr := RunFromKeeps(sequence, inputs);
    forall d | d in tr.gone
      ensures |d.sent| <= 4 && d.failed <= 10 && d.expiries <= 44 && forall f, g :: f in d.sent && g in d.sent ==> f == g
    {
      var i :| 0 <= i < |tr.gone| && tr.gone[i] == d;
      assert Left(tr.gone[i], tr.accepted[i]);
    }
  }

  /** A broken link is reported after four unanswered transmissions or ten failed channel checks only, a broadcast is
      freed after one transmission, and an acknowledged buffer was sent. */
  lemma WhyBuffersLeave(sequence: Byte, inputs: seq<Input>, i: nat)
    requires InScopeFrom(sequence, inputs) && i < |RunFrom(sequence, inputs).gone|
    ensures var tr := RunFrom(sequence, inputs);
      i < |tr.accepted| &&
      var d, orig := tr.gone[i], tr.accepted[i];
      && (d.how == Freed <==> orig.broadcast && |d.sent| == 1)
      && (d.how == Acknowledged ==> !orig.broadcast && 1 <= |d.sent| <= 4 && d.failed == 0)
      && (d.how == BrokenLink ==> d.failed == 10 || (!orig.broadcast && |d.sent| == 4 && d.failed == 0))
  {
    var tr := RunFromKeeps(sequence, inputs);
    assert Left(tr.gone[i], tr.accepted[i]);
  }

  /** What goes over the air is a header and the payload. */
  lemma FrameIsHeaderAndPayload(orig: Buffer, sequence: Byte)
    requires Ready(orig)
    ensures var f := Headed(orig.(toMac := true), sequence);
      f.ptr <= f.end <= |f.bytes| && Window(f) == Header(orig, sequence) + Window(orig)
  {
    HeadedFacts(orig, sequence);
    var f := Headed(orig.(toMac := true), sequence);
    var at, h := orig.ptr - HeaderSize(orig), Header(orig, sequence);
    assert f.bytes == orig.bytes[..at] + h + orig.bytes[orig.ptr..];
    assert f.bytes[at..orig.ptr] == h;
    assert Window(f) == f.bytes[at..orig.ptr] + f.bytes[orig.ptr..f.end];
    assert f.bytes[orig.ptr..][..f.end - orig.ptr] == f.bytes[orig.ptr..f.end];
    assert orig.bytes[orig.ptr..][..f.end - orig.ptr] == Window(orig);
  }

  /** A buffer reported as a broken link has its payload as its window again exactly when the payload is shorter than
      256 bytes: its length is noted in eight bits. */
  lemma PayloadRestored(orig: Buffer, sequence: Byte)
    requires Ready(orig)
    ensures var b := Unwound(Headed(orig.(toMac := true), sequence));
      && b.ptr <= b.end <= |b.bytes|
      && (Window(b) == Window(orig) <==> orig.end - orig.ptr < 256)
      && (b.ptr == orig.ptr <==> orig.end - orig.ptr < 256)
  {
    HeadedFacts(orig, sequence);
    var f := Headed(orig.(toMac := true), sequence);
    var b, n := Unwound(f), orig.end - orig.ptr;
    if n < 256 {
      assert b.ptr == orig.ptr;
      assert f.bytes[orig.ptr..][..n] == Window(b) && orig.bytes[orig.ptr..][..n] == Window(orig);
    } else {
      assert |Window(b)| == n % 256 < |Window(orig)|;
    }
  }

  /** Over every run, broken links give back the payload. */
  lemma BrokenLinksGiveBack(sequence: Byte, inputs: seq<Input>, i: nat)
    requires InScopeFrom(sequence, inputs) && i < |RunFrom(sequence, inputs).gone| && RunFrom(sequence, inputs).gone[i].how == BrokenLink
    ensures var tr := RunFrom(sequence, inputs);
      i < |tr.accepted| &&
      var b, orig := tr.gone[i].buffer, tr.accepted[i];
      && b.ptr <= b.end <= |b.bytes| && Ready(orig)
      && (Window(b) == Window(orig) <==> |Window(orig)| < 256)
  {
    var tr := RunFromKeeps(sequence, inputs);
    var orig := tr.accepted[i];
    assert Left(tr.gone[i], orig);
    var k: Byte :| tr.gone[i].buffer == Unwound(Headed(orig.(toMac := true), k));
    PayloadRestored(orig, k);
  }

  /** An acknowledgement is taken exactly when it names the frame on air. */
  lemma AcksNameTheFrame(sequence: Byte, inputs: seq<Input>, sqn: Byte)
    requires InScopeFrom(sequence, inputs) && RunFrom(sequence, inputs).s.timer == ACK && RunFrom(sequence, inputs).s.active
    ensures var s := RunFrom(sequence, inputs).s;
      && s.onAir.Some? && s.onAir.value.ptr + 2 < |s.onAir.value.bytes|
      && (Takes(s, sqn) <==> sqn == s.onAir.value.bytes[s.onAir.value.ptr + 2])
  {
    var tr := RunFromKeeps(sequence, inputs);
    HeadedFacts(tr.accepted[|tr.gone|], Previous(tr.s.sequence));
  }
}
