/** The acknowledgement of the frame on air. ack_handle clears the timer at once and posts an event; the frame is
    released when the event is handled. When do the two act as one? */
module MacAcks {
  import opened MacModel
  import opened MacRuns

  /** What is on air can be sent, and so can what waits. */
  predicate Sound(s: State) { Sendable(s) && forall b :: b in s.queue ==> b.toMac && Ready(b) }

  lemma ContinueSound(s: State)
    requires Sound(s)
    ensures Sound(Continue(s))
  {
    if s.queue != [] { assert s.queue[0] in s.queue; }
  }

  /** A prepared buffer can be sent again. */
  lemma PreparedSendable(b: Buffer, sequence: Byte)
    requires if b.toMac then Ready(b) else b.ptr + 1 < |b.bytes| && b.ptr <= b.end <= |b.bytes|
    ensures var h := Prepare(b, sequence).0;
      !h.toMac && h.ptr + 1 < |h.bytes| && h.ptr <= h.end <= |h.bytes|
  {
    if b.toMac {
      assert b.(toMac := true) == b;
      HeadedFacts(b, sequence);
    }
  }

  lemma CcaSound(s: State, radio: Radio)
    requires Sound(s)
    ensures Sound(CcaExpired(s, radio).0)
  {
    if s.onAir.Some? { PreparedSendable(s.onAir.value, s.sequence); }
  }

  lemma ContinuePops(s: State, t: State)
    requires Sound(t) && s.events != [] && t.events == s.events[1..]
    ensures Sound(Continue(t)) && Continue(t).events == s.events[1..]
  {
    ContinueSound(t);
  }

  /** A turn takes one event and leaves everything that can be sent so. */
  lemma TurnSound(s: State, radio: Radio)
    requires Sound(s)
    ensures Sound(Turn(s, radio).0) && (s.events != [] ==> Turn(s, radio).0.events == s.events[1..])
  {
    if s.events != [] {
      var t := s.(events := s.events[1..]);
      assert Sound(t);
      if s.events[0] == TRANSMIT {
        if s.queue != [] { assert s.queue[0] in s.queue; }
        ContinuePops(s, if t.timer != NO_TIMER || t.queue == [] then t else Start(t));
      } else if s.events[0] == RECEIVE {
        ContinuePops(s, t);
      } else {
        SignalSound(s, t, radio);
      }
    }
  }

  lemma SignalSound(s: State, t: State, radio: Radio)
    requires Sound(s) && s.events != [] && Signal(s.events[0]) && t == s.(events := s.events[1..]) && Sound(t)
    ensures Sound(Turn(s, radio).0) && Turn(s, radio).0.events == s.events[1..]
  {
    var u :=
      if s.events[0] == TIMER_CCA then CcaExpired(t, radio).0
      else if s.events[0] == TIMER_ACK then AckExpired(t).0 else AckReceived(t).0;
    if s.events[0] == TIMER_CCA { CcaSound(t, radio); }
    ContinuePops(s, u);
  }

  /** The buffers that leave while the task handles all waiting events. */
  function Drain(s: State, radio: Radio): seq<(Buffer, How)>
    requires Sound(s)
    decreases |s.events|
  {
    if s.events == [] then []
    else
      TurnSound(s, radio);
      var (t, e) := Turn(s, radio);
      (if e.gone.Some? then [e.gone.value] else []) + Drain(t, radio)
  }

  /** Without a deciding event nobody leaves. */
  lemma {:induction false} NobodyLeaves(s: State, radio: Radio)
    requires Sound(s) && NoSignals(s)
    ensures Drain(s, radio) == []
    decreases |s.events|
  {
    if s.events != [] {
      TurnSound(s, radio);
      NobodyLeaves(Turn(s, radio).0, radio);
    }
  }

  /** The acknowledgement's event waits behind events that decide nothing. */
  predicate Answered(s: State) {
    s.events != [] && s.events[|s.events| - 1] == ACK_RX && forall i :: 0 <= i < |s.events| - 1 ==> !Signal(s.events[i])
  }

  /** The buffer on air leaves as acknowledged if no TRANSMIT event can replace it: because the timer is set, because
      none is ahead, or because no buffer waits. */
  lemma {:induction false} SameFrameLeaves(s: State, radio: Radio)
    requires Sound(s) && Answered(s) && s.onAir.Some?
    requires s.timer != NO_TIMER || TRANSMIT !in s.events || s.queue == []
    ensures Drain(s, radio) == [(s.onAir.value, Acknowledged)]
    decreases |s.events|
  {
    TurnSound(s, radio);
    var t := Turn(s, radio).0;
    if s.events[0] == ACK_RX {
      NobodyLeaves(t, radio);
    } else {
      SameFrameLeaves(t, radio);
    }
  }

  /** With a TRANSMIT event ahead and the timer cleared, the first waiting buffer leaves in its place. */
  lemma {:induction false} NextFrameLeaves(s: State, radio: Radio)
    requires Sound(s) && Answered(s) && s.onAir.Some? && s.timer == NO_TIMER && TRANSMIT in s.events && s.queue != []
    ensures Drain(s, radio) == [(s.queue[0], Acknowledged)]
    decreases |s.events|
  {
    TurnSound(s, radio);
    var t := Turn(s, radio).0;
    if s.events[0] == TRANSMIT {
      SameFrameLeaves(t, radio);
    } else {
      NextFrameLeaves(t, radio);
    }
  }

  lemma InvSound(tr: Trace, sqn: Byte)
    requires Inv(tr) && Takes(tr.s, sqn)
    ensures Sound(AckArrives(tr.s, sqn)) && NoSignals(tr.s)
    ensures tr.s.queue != [] ==> tr.s.queue[0] != tr.s.onAir.value
  {
    InvSendable(tr);
    forall i | 0 <= i < |tr.s.events| ensures !Signal(tr.s.events[i]) { assert Fits(tr.s, tr.s.events[i]); }
    forall b | b in tr.s.queue ensures b.toMac && Ready(b) {
      var k :| 0 <= k < |tr.s.queue| && tr.s.queue[k] == b;
      assert Ready(tr.accepted[|tr.gone| + 1 + k]);
    }
    assert OnAir(tr, tr.accepted[|tr.gone|]);
  }

  /** An acknowledgement that is taken releases exactly the frame on air if and only if its event finds room and no
      TRANSMIT event is ahead of it while a buffer waits. Without room nobody is released; behind a TRANSMIT event the
      acknowledgement goes to the next buffer, which has not been sent. */
  lemma AcknowledgesExactly(tr: Trace, sqn: Byte, radio: Radio)
    requires Inv(tr) && Takes(tr.s, sqn)
    ensures Sound(AckArrives(tr.s, sqn))
    ensures var s := tr.s; var gone := Drain(AckArrives(s, sqn), radio);
      && (gone == [(s.onAir.value, Acknowledged)] <==>
            |s.events| < EVENT_QUEUE_SIZE && (TRANSMIT !in s.events || s.queue == []))
      && (|s.events| >= EVENT_QUEUE_SIZE ==> gone == [])
      && (|s.events| < EVENT_QUEUE_SIZE && TRANSMIT in s.events && s.queue != [] ==> gone == [(s.queue[0], Acknowledged)])
  {
    InvSound(tr, sqn);
    var s := AckArrives(tr.s, sqn);
    if |tr.s.events| >= EVENT_QUEUE_SIZE {
      NobodyLeaves(s, radio);
    } else {
      assert s.events == tr.s.events + [ACK_RX];
      if TRANSMIT in tr.s.events && s.queue != [] { NextFrameLeaves(s, radio); } else { SameFrameLeaves(s, radio); }
    }
  }
}
