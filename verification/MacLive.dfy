/** Progress of the transmit machine: when the frame on air is bound to leave, and when it never will. */
module MacLive {
  import opened MacModel
  import opened MacRuns

  // ---------------------------------------------------------------- alive and awake

  /** Something will decide about the frame on air: the timer runs, or an event waits. */
  ghost predicate Live(s: State) { s.onAir.Some? ==> s.active || Decided(s) }

  ghost predicate Decided(s: State) { exists i :: 0 <= i < |s.events| && Signal(s.events[i]) }

  /** The event queue is full and drops the timer's event or that of an acknowledgement. */
  predicate Drops(s: State, i: Input) {
    |s.events| >= EVENT_QUEUE_SIZE &&
    ((i.TimerInterrupt? && s.active) || (i.AckInterrupt? && Takes(s, i.sqn)))
  }

  /** No waiting buffer is forgotten: with nothing on air, an event will wake the task. */
  predicate Awake(s: State) { s.onAir.None? && s.queue != [] ==> s.events != [] }

  lemma ActiveUndecided(tr: Trace)
    requires Inv(tr) && tr.s.active
    ensures NoSignals(tr.s) && tr.s.onAir.Some?
  {
    forall i | 0 <= i < |tr.s.events| ensures !Signal(tr.s.events[i]) { assert Fits(tr.s, tr.s.events[i]); }
  }

  /** A turn for an event that decides nothing. */
  lemma QuietTurn(tr: Trace, radio: Radio)
    requires Inv(tr) && Sendable(tr.s) && !Overwrites(tr.s) && tr.s.events != [] && !Signal(tr.s.events[0])
    ensures var t := Step(tr, TaskTurn(radio));
      && t.s.events == tr.s.events[1..] && t.accepted == tr.accepted && t.gone == tr.gone && t.expiries == tr.expiries
      && (tr.s.onAir.Some? ==> t.s.onAir == tr.s.onAir && t.s.active == tr.s.active)
      && (tr.s.onAir.None? && t.s.onAir.Some? ==> t.s.active) && (t.s.onAir.None? ==> t.s.queue == [])
  {
  }

  /** A turn for an event that decides: the frame on air leaves, or is tried again. */
  lemma SignalTurn(tr: Trace, radio: Radio)
    requires Inv(tr) && Sendable(tr.s) && tr.s.events != [] && Signal(tr.s.events[0])
    ensures var t := Step(tr, TaskTurn(radio));
      && t.s.events == tr.s.events[1..] && t.accepted == tr.accepted
      && (|t.gone| > |tr.gone| || (t.gone == tr.gone && t.expiries == tr.expiries + 1 && t.s.onAir.Some?))
      && (t.s.onAir.Some? ==> t.s.active) && (t.s.onAir.None? ==> t.s.queue == [])
  {
    assert Fits(tr.s, tr.s.events[0]);
  }

  /** An interrupt, or a buffer coming down, only adds events. */
  lemma InterruptFacts(tr: Trace, i: Input)
    requires Inv(tr) && Sendable(tr.s) && Allowed(tr.s, i) && !i.TaskTurn?
    ensures var t := Step(tr, i);
      && t.gone == tr.gone && t.expiries == tr.expiries && t.s.onAir == tr.s.onAir
      && tr.accepted <= t.accepted && tr.s.events <= t.s.events && (tr.s.queue != [] ==> t.s.queue != [])
      && (Awake(tr.s) ==> Awake(t.s))
  {
  }

  /** A step leaves the frame on air alive if and only if it does not drop the event that decides about it. */
  lemma LiveExactly(tr: Trace, i: Input)
    requires Inv(tr) && Live(tr.s) && Allowed(tr.s, i)
    ensures Sendable(tr.s) && (Live(Step(tr, i).s) <==> !Drops(tr.s, i))
  {
    StepKeeps(tr, i);
    var t := Step(tr, i);
    if i.TaskTurn? {
      if tr.s.events != [] { LiveTurn(tr, i.radio); }
    } else {
      InterruptFacts(tr, i);
      if tr.s.active { ActiveUndecided(tr); }
      if tr.s.active && (i.TimerInterrupt? || (i.AckInterrupt? && Takes(tr.s, i.sqn))) {
        if !Drops(tr.s, i) { assert Signal(t.s.events[|tr.s.events|]); }
      } else if tr.s.onAir.Some? && !tr.s.active {
        var k :| 0 <= k < |tr.s.events| && Signal(tr.s.events[k]);
        assert Signal(t.s.events[k]);
      }
    }
  }

  lemma LiveTurn(tr: Trace, radio: Radio)
    requires Inv(tr) && Live(tr.s) && Sendable(tr.s) && !Overwrites(tr.s) && tr.s.events != []
    ensures Live(Step(tr, TaskTurn(radio)).s)
  {
    var t := Step(tr, TaskTurn(radio));
    if Signal(tr.s.events[0]) {
      SignalTurn(tr, radio);
    } else {
      QuietTurn(tr, radio);
      if tr.s.onAir.Some? && !tr.s.active {
        var k :| 0 <= k < |tr.s.events| && Signal(tr.s.events[k]);
        assert t.s.events[k - 1] == tr.s.events[k];
      }
    }
  }

  // ---------------------------------------------------------------- runs

  ghost predicate NoDrops(tr: Trace, inputs: seq<Input>)
    requires Inv(tr) && InScope(tr, inputs)
    decreases |inputs|
  {
    inputs == [] ||
    (!Drops(tr.s, inputs[0]) && (StepKeeps(tr, inputs[0]); NoDrops(Step(tr, inputs[0]), inputs[1..])))
  }

  /** A state that progress starts from. */
  ghost predicate Going(tr: Trace) { Inv(tr) && Live(tr.s) && Awake(tr.s) }

  lemma GoingStep(tr: Trace, i: Input)
    requires Going(tr) && Allowed(tr.s, i) && !Drops(tr.s, i)
    ensures Sendable(tr.s) && Going(Step(tr, i))
  {
    StepKeeps(tr, i);
    LiveExactly(tr, i);
    if i.TaskTurn? {
      if tr.s.events != [] { TurnWakes(tr, i.radio); }
    } else {
      InterruptFacts(tr, i);
    }
  }

  lemma TurnWakes(tr: Trace, radio: Radio)
    requires Inv(tr) && Sendable(tr.s) && !Overwrites(tr.s) && tr.s.events != []
    ensures Awake(Step(tr, TaskTurn(radio)).s)
  {
    if Signal(tr.s.events[0]) { SignalTurn(tr, radio); } else { QuietTurn(tr, radio); }
  }

  /** While nobody leaves, a step keeps the frame on air and counts its timer events. */
  lemma StepGoesOn(tr: Trace, i: Input)
    requires Inv(tr) && Sendable(tr.s) && Allowed(tr.s, i)
    ensures var t := Step(tr, i);
      && |t.gone| >= |tr.gone| && tr.accepted <= t.accepted
      && (|t.gone| == |tr.gone| && tr.s.onAir.Some? ==> t.s.onAir.Some? && t.expiries >= tr.expiries)
  {
    if !i.TaskTurn? {
      InterruptFacts(tr, i);
    } else if tr.s.events != [] {
      if Signal(tr.s.events[0]) { SignalTurn(tr, i.radio); } else { QuietTurn(tr, i.radio); }
    }
  }

  /** While nobody leaves, the frame on air stays and its timer events are counted; nothing accepted is taken back. */
  lemma {:induction false} RunGoesOn(tr: Trace, inputs: seq<Input>)
    requires Going(tr) && InScope(tr, inputs) && NoDrops(tr, inputs)
    ensures var u := Run(tr, inputs);
      && Going(u) && |u.gone| >= |tr.gone| && tr.accepted <= u.accepted
      && (|u.gone| == |tr.gone| && tr.s.onAir.Some? ==> u.s.onAir.Some? && u.expiries >= tr.expiries)
    decreases |inputs|
  {
    if inputs != [] {
      var i := inputs[0];
      GoingStep(tr, i);
      StepGoesOn(tr, i);
      RunGoesOn(Step(tr, i), inputs[1..]);
    }
  }

  lemma {:induction false} RunSplit(tr: Trace, a: seq<Input>, b: seq<Input>)
    requires Inv(tr) && InScope(tr, a + b) && NoDrops(tr, a + b)
    ensures InScope(tr, a) && NoDrops(tr, a) && Inv(Run(tr, a))
    ensures InScope(Run(tr, a), b) && NoDrops(Run(tr, a), b) && Run(tr, a + b) == Run(Run(tr, a), b)
    decreases |a|
  {
    if a == [] {
      assert a + b == b;
    } else {
      assert (a + b)[0] == a[0] && (a + b)[1..] == a[1..] + b;
      StepKeeps(tr, a[0]);
      RunSplit(Step(tr, a[0]), a[1..], b);
    }
  }

  // ---------------------------------------------------------------- progress

  /** How often the task takes an event. */
  function Turns(inputs: seq<Input>): nat {
    if inputs == [] then 0 else (if inputs[0].TaskTurn? then 1 else 0) + Turns(inputs[1..])
  }

  /** The event at place k that decides about the frame on air is handled after k + 1 turns, whatever comes in between. */
  lemma {:induction false} Served(tr: Trace, inputs: seq<Input>, k: nat)
    requires Going(tr) && InScope(tr, inputs) && NoDrops(tr, inputs)
    requires k < |tr.s.events| && Signal(tr.s.events[k]) && Turns(inputs) > k
    ensures var u := Run(tr, inputs); |u.gone| > |tr.gone| || u.expiries > tr.expiries
    decreases |inputs|
  {
    var i := inputs[0];
    var t := Step(tr, i);
    GoingStep(tr, i);
    if !i.TaskTurn? {
      InterruptFacts(tr, i);
      Served(t, inputs[1..], k);
    } else if Signal(tr.s.events[0]) {
      SignalTurn(tr, i.radio);
      RunGoesOn(t, inputs[1..]);
    } else {
      QuietTurn(tr, i.radio);
      assert t.s.events[k - 1] == tr.s.events[k];
      Served(t, inputs[1..], k - 1);
    }
  }

  /** With nothing on air, the first turn puts a waiting buffer on air. */
  lemma {:induction false} WakesUp(tr: Trace, inputs: seq<Input>)
    requires Going(tr) && InScope(tr, inputs) && NoDrops(tr, inputs)
    requires tr.s.onAir.None? && tr.s.queue != [] && Turns(inputs) > 0
    ensures var u := Run(tr, inputs); |u.gone| > |tr.gone| || u.s.onAir.Some?
    decreases |inputs|
  {
    var i := inputs[0];
    var t := Step(tr, i);
    GoingStep(tr, i);
    if !i.TaskTurn? {
      InterruptFacts(tr, i);
      WakesUp(t, inputs[1..]);
    } else {
      IdleStarts(tr, i.radio);
      RunGoesOn(t, inputs[1..]);
    }
  }

  lemma IdleStarts(tr: Trace, radio: Radio)
    requires Going(tr) && tr.s.onAir.None? && tr.s.queue != [] && Sendable(tr.s)
    ensures var t := Step(tr, TaskTurn(radio)); t.gone == tr.gone && t.s.onAir.Some?
  {
    assert Fits(tr.s, tr.s.events[0]);
  }

  /** In a phase the task takes as many events as the queue can hold, and then the timer's interrupt comes; buffers,
      acknowledgements, received frames and further timer interrupts may come in between. */
  predicate Phase(p: seq<Input>) { p != [] && p[|p| - 1].TimerInterrupt? && Turns(p[..|p| - 1]) >= EVENT_QUEUE_SIZE }

  function Joined(phases: seq<seq<Input>>): seq<Input> {
    if phases == [] then [] else phases[0] + Joined(phases[1..])
  }

  predicate AllPhases(phases: seq<seq<Input>>) { forall p :: p in phases ==> Phase(p) }

  /** After the timer's interrupt an event waits that decides about the frame on air. */
  lemma InterruptDecides(tr: Trace)
    requires Going(tr) && tr.s.onAir.Some? && !Drops(tr.s, TimerInterrupt) && Sendable(tr.s)
    ensures Decided(Step(tr, TimerInterrupt).s)
  {
    InterruptFacts(tr, TimerInterrupt);
    var u := Step(tr, TimerInterrupt);
    if tr.s.active {
      ActiveUndecided(tr);
      assert Signal(u.s.events[|tr.s.events|]);
    } else {
      var k :| 0 <= k < |tr.s.events| && Signal(tr.s.events[k]);
      assert Signal(u.s.events[k]);
    }
  }

  lemma RunOne(tr: Trace, i: Input)
    requires Inv(tr) && InScope(tr, [i]) && NoDrops(tr, [i])
    ensures Allowed(tr.s, i) && !Drops(tr.s, i) && Sendable(tr.s) && Run(tr, [i]) == Step(tr, i)
  {
    StepKeeps(tr, i);
    assert [i][0] == i && [i][1..] == [];
    assert Run(Step(tr, i), []) == Step(tr, i);
  }

  /** In a phase a waiting event is served, and at its end the next one waits. */
  lemma PhaseServes(tr: Trace, p: seq<Input>)
    requires Going(tr) && tr.s.onAir.Some? && Phase(p) && InScope(tr, p) && NoDrops(tr, p)
    ensures var u := Run(tr, p);
      |u.gone| == |tr.gone| ==> u.s.onAir.Some? && Decided(u.s) && u.expiries >= tr.expiries + if Decided(tr.s) then 1 else 0
  {
    var turns := p[..|p| - 1];
    assert p == turns + [TimerInterrupt];
    RunSplit(tr, turns, [TimerInterrupt]);
    RunGoesOn(tr, turns);
    if Decided(tr.s) {
      var k :| 0 <= k < |tr.s.events| && Signal(tr.s.events[k]);
      Served(tr, turns, k);
    }
    var v := Run(tr, turns);
    RunOne(v, TimerInterrupt);
    InterruptFacts(v, TimerInterrupt);
    if v.s.onAir.Some? { InterruptDecides(v); }
  }

  /** How many phases the next buffer to leave can still take. */
  ghost function Rank(tr: Trace): int {
    if tr.s.onAir.None? then 46 else if Decided(tr.s) then 44 - tr.expiries else 45 - tr.expiries
  }

  lemma RankPositive(tr: Trace)
    requires Going(tr)
    ensures 0 < Rank(tr) <= 46
  {
    if tr.s.onAir.Some? { assert OnAir(tr, tr.accepted[|tr.gone|]); }
  }

  /** If a buffer is on air or waits, one leaves within so many phases. */
  lemma {:induction false} OneLeaves(tr: Trace, phases: seq<seq<Input>>)
    requires Going(tr) && |tr.gone| < |tr.accepted| && AllPhases(phases) && |phases| >= Rank(tr)
    requires InScope(tr, Joined(phases)) && NoDrops(tr, Joined(phases))
    ensures |Run(tr, Joined(phases)).gone| > |tr.gone|
    decreases |phases|
  {
    RankPositive(tr);
    var p, rest := phases[0], phases[1..];
    assert p in phases && Phase(p);
    RunSplit(tr, p, Joined(rest));
    PhaseLowersRank(tr, p);
    var u := Run(tr, p);
    if |u.gone| > |tr.gone| {
      RunGoesOn(u, Joined(rest));
    } else {
      OneLeaves(u, rest);
    }
  }

  lemma PhaseLowersRank(tr: Trace, p: seq<Input>)
    requires Going(tr) && |tr.gone| < |tr.accepted| && Phase(p) && InScope(tr, p) && NoDrops(tr, p)
    ensures var u := Run(tr, p);
      Going(u) && tr.accepted <= u.accepted && |u.gone| >= |tr.gone| && (|u.gone| == |tr.gone| ==> Rank(u) < Rank(tr))
  {
    RunGoesOn(tr, p);
    if tr.s.onAir.Some? {
      PhaseServes(tr, p);
    } else {
      TurnsPrefix(p, |p| - 1);
      WakesUp(tr, p);
    }
  }

  lemma {:induction false} TurnsPrefix(inputs: seq<Input>, n: nat)
    requires n <= |inputs|
    ensures Turns(inputs[..n]) <= Turns(inputs)
  {
    if n > 0 {
      assert inputs[..n][1..] == inputs[1..][..n - 1];
      TurnsPrefix(inputs[1..], n - 1);
    }
  }

  lemma {:induction false} JoinedSplit(phases: seq<seq<Input>>, n: nat)
    requires n <= |phases|
    ensures Joined(phases) == Joined(phases[..n]) + Joined(phases[n..])
  {
    if n > 0 {
      assert phases[..n][1..] == phases[1..][..n - 1] && phases[1..][n - 1..] == phases[n..];
      JoinedSplit(phases[1..], n - 1);
    }
  }

  /** With 46 phases for every buffer up to number n that has not left, all of them leave. */
  lemma {:induction false} AllLeave(tr: Trace, phases: seq<seq<Input>>, n: nat)
    requires Going(tr) && n <= |tr.accepted| && AllPhases(phases) && |phases| >= 46 * (n - |tr.gone|)
    requires InScope(tr, Joined(phases)) && NoDrops(tr, Joined(phases))
    ensures |Run(tr, Joined(phases)).gone| >= n
    decreases n - |tr.gone|
  {
    if |tr.gone| >= n {
      RunGoesOn(tr, Joined(phases));
    } else {
      var now, later := phases[..46], phases[46..];
      JoinedSplit(phases, 46);
      RunSplit(tr, Joined(now), Joined(later));
      RankPositive(tr);
      OneLeaves(tr, now);
      RunGoesOn(tr, Joined(now));
      AllLeave(Run(tr, Joined(now)), later, n);
    }
  }

  lemma BootGoes(sequence: Byte)
    ensures Going(Boot(sequence))
  {
    BootKeeps(sequence);
  }

  ghost predicate NoDropsFrom(sequence: Byte, inputs: seq<Input>)
    requires InScopeFrom(sequence, inputs)
  {
    BootKeeps(sequence);
    NoDrops(Boot(sequence), inputs)
  }

  /** Every accepted buffer leaves: after any run that drops no deciding event, 184 more phases see off all buffers
      accepted so far, at most four of which are still on air or waiting. */
  lemma EveryBufferLeaves(sequence: Byte, inputs: seq<Input>, phases: seq<seq<Input>>)
    requires AllPhases(phases) && |phases| >= 184
    requires InScopeFrom(sequence, inputs + Joined(phases)) && NoDropsFrom(sequence, inputs + Joined(phases))
    ensures InScopeFrom(sequence, inputs)
    ensures |RunFrom(sequence, inputs + Joined(phases)).gone| >= |RunFrom(sequence, inputs).accepted|
  {
    BootGoes(sequence);
    RunSplit(Boot(sequence), inputs, Joined(phases));
    RunGoesOn(Boot(sequence), inputs);
    var tr := RunFrom(sequence, inputs);
    AllLeave(tr, phases, |tr.accepted|);
  }

  // ---------------------------------------------------------------- no progress

  predicate AllReady(inputs: seq<Input>) { forall i :: i in inputs && i.Down? ==> Ready(i.b) }

  /** With nothing left that decides about the frame on air, a step moves it only by overwriting it. */
  lemma UndecidedStep(tr: Trace, i: Input)
    requires Inv(tr) && !Live(tr.s) && Allowed(tr.s, i) && Sendable(tr.s)
    ensures var t := Step(tr, i); t.gone == tr.gone && t.s.onAir == tr.s.onAir && t.s.timer == tr.s.timer && !Live(t.s)
  {
    if i.TaskTurn? && tr.s.events != [] { QuietTurn(tr, i.radio); }
  }

  /** Over a run that does not overwrite it, it stays, and so does everything behind it. */
  lemma {:induction false} UndecidedStays(tr: Trace, inputs: seq<Input>)
    requires Inv(tr) && !Live(tr.s) && InScope(tr, inputs)
    ensures var u := Run(tr, inputs); u.gone == tr.gone && u.s.onAir == tr.s.onAir && !Live(u.s)
    decreases |inputs|
  {
    if inputs != [] {
      StepKeeps(tr, inputs[0]);
      UndecidedStep(tr, inputs[0]);
      UndecidedStays(Step(tr, inputs[0]), inputs[1..]);
    }
  }

  /** The timer's event has been dropped: whatever comes, the frame on air stays for ever, and so does what waits. */
  lemma {:induction false} StuckForEver(tr: Trace, inputs: seq<Input>)
    requires Inv(tr) && !Live(tr.s) && tr.s.timer != NO_TIMER && AllReady(inputs)
    ensures InScope(tr, inputs)
    ensures var u := Run(tr, inputs); u.gone == tr.gone && u.s.onAir == tr.s.onAir && !Live(u.s) && tr.s.queue <= u.s.queue
    decreases |inputs|
  {
    if inputs != [] {
      var i := inputs[0];
      assert i in inputs;
      StepKeeps(tr, i);
      UndecidedStep(tr, i);
      QueueStays(tr, i);
      StuckForEver(Step(tr, i), inputs[1..]);
    }
  }

  lemma QueueStays(tr: Trace, i: Input)
    requires Inv(tr) && Sendable(tr.s) && !Live(tr.s) && tr.s.timer != NO_TIMER
    ensures tr.s.queue <= Step(tr, i).s.queue
  {
    assert tr.s.events != [] && Signal(tr.s.events[0]) ==> Decided(tr.s);
  }

  /** The event of an acknowledgement has been dropped: the acknowledged frame never leaves. It stays on air until a turn
      overwrites it, which is the only step that moves it; it is then nowhere, and the machine is live again. */
  lemma OverwritingRevives(tr: Trace, i: Input)
    requires Inv(tr) && !Live(tr.s) && tr.s.timer == NO_TIMER && (i.Down? ==> Ready(i.b))
    ensures Sendable(tr.s)
    ensures var t := Step(tr, i);
      && t.gone == tr.gone && (t.s.onAir != tr.s.onAir <==> i.TaskTurn? && Overwrites(tr.s))
      && (t.s.onAir == tr.s.onAir ==> Inv(t) && !Live(t.s) && t.s.timer == NO_TIMER)
      && (t.s.onAir != tr.s.onAir ==>
            t.s.onAir == Some(tr.s.queue[0]) && Live(t.s) && |t.gone| + 1 + |t.s.queue| == |t.accepted| - 1)
  {
    StepKeeps(tr, i);
    if Allowed(tr.s, i) {
      UndecidedStep(tr, i);
    } else {
      assert OnAir(tr, tr.accepted[|tr.gone|]) && Waiting(tr.s.queue, tr.accepted, |tr.gone| + 1);
      assert Ready(tr.accepted[|tr.gone| + 1]);
    }
  }

  /** The trace as if the buffer on air had never come. */
  ghost function Without(tr: Trace, t: Trace): Trace
    requires |tr.gone| < |tr.accepted|
  {
    var n := |tr.gone|;
    Trace(t.s, tr.accepted[..n] + tr.accepted[n + 1..], tr.gone, [], 0, 0)
  }

  /** After that the buffers behind it go on as if it had never come, if and only if it had been sent only once: its
      retries are counted against the next buffer. */
  lemma OthersGoOn(tr: Trace, radio: Radio)
    requires Inv(tr) && !Live(tr.s) && Overwrites(tr.s)
    ensures Sendable(tr.s) && |tr.gone| < |tr.accepted|
    ensures Going(Without(tr, Step(tr, TaskTurn(radio)))) <==> |tr.sent| == 1
  {
    StepKeeps(tr, TaskTurn(radio));
    var n := |tr.gone|;
    var t := Step(tr, TaskTurn(radio));
    var u := Without(tr, t);
    assert OnAir(tr, tr.accepted[n]);
    OverwritingRevives(tr, TaskTurn(radio));
    assert u.accepted[n] == tr.accepted[n + 1] && Ready(tr.accepted[n + 1]);
    WaitingNext(tr.s.queue, tr.accepted, n + 1);
    if |tr.sent| == 1 {
      LaterAccepted(tr, t.s.queue, n, u.accepted);
      assert OnAir(u, u.accepted[n]);
    }
  }

  lemma LaterAccepted(tr: Trace, queue: seq<Buffer>, n: nat, rest: seq<Buffer>)
    requires Inv(tr) && n == |tr.gone| < |tr.accepted| && rest == tr.accepted[..n] + tr.accepted[n + 1..]
    requires Waiting(queue, tr.accepted, n + 2)
    ensures Waiting(queue, rest, n + 1) && AllLeft(tr.gone, rest)
  {
    forall k | n + 1 <= k < |rest| ensures Ready(rest[k]) && queue[k - (n + 1)] == rest[k].(toMac := true) {
      assert rest[k] == tr.accepted[k + 1] && Ready(tr.accepted[k + 1]);
    }
    forall i | 0 <= i < |tr.gone| ensures Left(tr.gone[i], rest[i]) { assert Left(tr.gone[i], tr.accepted[i]); }
  }

  // ---------------------------------------------------------------- runs that fail

  lemma {:induction false} RunAppend(tr: Trace, inputs: seq<Input>, i: Input)
    requires Inv(tr) && InScope(tr, inputs) && Inv(Run(tr, inputs)) && Allowed(Run(tr, inputs).s, i)
    ensures Sendable(Run(tr, inputs).s) && InScope(tr, inputs + [i]) && Inv(Run(tr, inputs + [i]))
    ensures Run(tr, inputs + [i]) == Step(Run(tr, inputs), i)
    decreases |inputs|
  {
    if inputs == [] {
      StepKeeps(tr, i);
      assert [] + [i] == [i] && [i][1..] == [];
      assert Run(Step(tr, i), []) == Step(tr, i);
    } else {
      StepKeeps(tr, inputs[0]);
      assert (inputs + [i])[1..] == inputs[1..] + [i];
      RunAppend(Step(tr, inputs[0]), inputs[1..], i);
    }
  }

  /** n received frames add n events. */
  lemma {:induction false} ReceptionsFill(tr: Trace, inputs: seq<Input>, n: nat) returns (all: seq<Input>)
    requires Inv(tr) && InScope(tr, inputs) && Inv(Run(tr, inputs))
    requires NoSignals(Run(tr, inputs).s) && |Run(tr, inputs).s.events| + n <= EVENT_QUEUE_SIZE
    ensures InScope(tr, all) && Inv(Run(tr, all))
    ensures var v, u := Run(tr, inputs), Run(tr, all);
      v.s.events <= u.s.events && |u.s.events| == |v.s.events| + n && NoSignals(u.s) && u == v.(s := v.s.(events := u.s.events))
  {
    all := inputs;
    if n > 0 {
      all := ReceptionsFill(tr, inputs, n - 1);
      RunAppend(tr, all, RxInterrupt);
      all := all + [RxInterrupt];
    }
  }

  /** A buffer goes on air. */
  lemma FirstOnAir(sequence: Byte, b: Buffer) returns (inputs: seq<Input>)
    requires Ready(b)
    ensures InScopeFrom(sequence, inputs)
    ensures var boot := Boot(sequence);
      var s := boot.s.(onAir := Some(b.(toMac := true)), timer := CCA, active := true);
      RunFrom(sequence, inputs) == boot.(s := s, accepted := [b])
    ensures Inv(RunFrom(sequence, inputs))
  {
    var boot := Boot(sequence);
    BootKeeps(sequence);
    RunAppend(boot, [], Down(b));
    RunAppend(boot, [] + [Down(b)], TaskTurn(RadioBusy));
    inputs := [] + [Down(b)] + [TaskTurn(RadioBusy)];
  }

  /** Twenty frames are received before the timer expires: its event is dropped, and the buffer never leaves. */
  lemma DroppedExpiry(sequence: Byte, b: Buffer) returns (inputs: seq<Input>)
    requires Ready(b)
    ensures InScopeFrom(sequence, inputs)
    ensures var tr := RunFrom(sequence, inputs);
      tr.accepted == [b] && tr.gone == [] && tr.s.onAir == Some(b.(toMac := true)) && !Live(tr.s) && tr.s.timer != NO_TIMER
  {
    BootKeeps(sequence);
    var before := FirstOnAir(sequence, b);
    var full := ReceptionsFill(Boot(sequence), before, EVENT_QUEUE_SIZE);
    RunAppend(Boot(sequence), full, TimerInterrupt);
    inputs := full + [TimerInterrupt];
  }

  /** A frame has been written and waits for its acknowledgement. */
  lemma FirstSent(sequence: Byte, a: Buffer) returns (inputs: seq<Input>)
    requires Ready(a) && !a.broadcast
    ensures InScopeFrom(sequence, inputs) && Inv(RunFrom(sequence, inputs))
    ensures var tr := RunFrom(sequence, inputs);
      && tr.accepted == [a] && tr.gone == [] && |tr.sent| == 1 && tr.s.onAir.Some? && tr.s.timer == ACK && tr.s.active
      && tr.s.queue == [] && tr.s.events == [] && tr.s.sequence == NextSequence(sequence)
  {
    BootKeeps(sequence);
    inputs := FirstOnAir(sequence, a);
    RunAppend(Boot(sequence), inputs, TimerInterrupt);
    inputs := inputs + [TimerInterrupt];
    RunAppend(Boot(sequence), inputs, TaskTurn(Written));
    inputs := inputs + [TaskTurn(Written)];
  }

  /** A buffer comes down and nineteen frames are received before the acknowledgement: its event is dropped, and the next
      turn overwrites the acknowledged frame. */
  lemma DroppedAcknowledgement(sequence: Byte, a: Buffer, b: Buffer) returns (inputs: seq<Input>)
    requires Ready(a) && Ready(b) && !a.broadcast
    ensures InScopeFrom(sequence, inputs) && inputs != [] && inputs[|inputs| - 1] == AckInterrupt(sequence)
    ensures var tr := RunFrom(sequence, inputs);
      && tr.accepted == [a, b] && tr.gone == [] && |tr.sent| == 1 && tr.s.onAir.Some?
      && !Live(tr.s) && tr.s.timer == NO_TIMER && Overwrites(tr.s)
  {
    BootKeeps(sequence);
    var before := FirstSent(sequence, a);
    RunAppend(Boot(sequence), before, Down(b));
    var full := ReceptionsFill(Boot(sequence), before + [Down(b)], EVENT_QUEUE_SIZE - 1);
    RunAppend(Boot(sequence), full, AckInterrupt(sequence));
    inputs := full + [AckInterrupt(sequence)];
  }

  /** A buffer comes down while the frame on air waits for its acknowledgement: once that has come, the next turn
      would put the new buffer on air in the place of the acknowledged one. */
  lemma LateBuffer(sequence: Byte, a: Buffer, b: Buffer) returns (inputs: seq<Input>)
    requires Ready(a) && Ready(b) && !a.broadcast
    ensures InScopeFrom(sequence, inputs) && inputs != [] && inputs[|inputs| - 1] == AckInterrupt(sequence)
    ensures var tr := RunFrom(sequence, inputs);
      tr.accepted == [a, b] && tr.gone == [] && |tr.sent| == 1 && tr.s.onAir.Some? && Overwrites(tr.s)
  {
    BootKeeps(sequence);
    var before := FirstSent(sequence, a);
    RunAppend(Boot(sequence), before, Down(b));
    RunAppend(Boot(sequence), before + [Down(b)], AckInterrupt(sequence));
    inputs := before + [Down(b)] + [AckInterrupt(sequence)];
  }
}
