/** What the transmit machine sends, octet by octet (sections 7.2.1 and 7.2.2.2 of IEEE 802.15.4-2006). */
module MacFrames {
  import opened MacModel
  import opened MacRuns

  /** A data frame for this buffer. In the first octet the lowest three bits hold the frame type, 1 for data; bit 5 asks
      for an acknowledgement, bit 6 says that the frame stays within its PAN, and the other bits are clear. The second
      octet holds the addressing modes, the third the sequence number; the address fields and the payload follow. */
  predicate DataFrame(f: seq<Byte>, orig: Buffer)
    requires orig.ptr <= orig.end <= |orig.bytes|
  {
    && |f| >= 3
    && f[0] % 8 == 1 && f[0] / 8 % 4 == 0 && f[0] / 128 == 0
    && (f[0] / 32 % 2 == 1 <==> !orig.broadcast) && (f[0] / 64 % 2 == 1 <==> orig.intra)
    && f == [f[0], orig.modes, f[2]] + orig.addresses + orig.bytes[orig.ptr..orig.end]
  }

  lemma HeadedIsData(orig: Buffer, sequence: Byte)
    requires Ready(orig)
    ensures var b := Headed(orig.(toMac := true), sequence);
      b.ptr <= b.end <= |b.bytes| && DataFrame(Window(b), orig) && Window(b)[2] == sequence
  {
    FrameIsHeaderAndPayload(orig, sequence);
    var f := Window(Headed(orig.(toMac := true), sequence));
    assert f == Header(orig, sequence) + orig.bytes[orig.ptr..orig.end];
    assert f[0] == ControlByte(orig) && f[2] == sequence;
  }

  /** Everything that is sent for a buffer, while it is on air or before it left, is a data frame with its payload. */
  lemma FramesAreData(sequence: Byte, inputs: seq<Input>)
    requires InScopeFrom(sequence, inputs)
    ensures var tr := RunFrom(sequence, inputs); var n := |tr.gone|;
      && n <= |tr.accepted| && (tr.sent != [] ==> n < |tr.accepted|)
      && (forall f :: f in tr.sent ==> Ready(tr.accepted[n]) && DataFrame(f, tr.accepted[n]))
      && (forall i, f :: 0 <= i < n && f in tr.gone[i].sent ==> Ready(tr.accepted[i]) && DataFrame(f, tr.accepted[i]))
  {
    var tr := RunFromKeeps(sequence, inputs);
    forall f | f in tr.sent ensures Ready(tr.accepted[|tr.gone|]) && DataFrame(f, tr.accepted[|tr.gone|]) {
      HeadedIsData(tr.accepted[|tr.gone|], Previous(tr.s.sequence));
    }
    forall i, f | 0 <= i < |tr.gone| && f in tr.gone[i].sent ensures Ready(tr.accepted[i]) && DataFrame(f, tr.accepted[i]) {
      LeftSentData(tr.gone[i], tr.accepted[i], f);
    }
  }

  lemma LeftSentData(d: Departure, orig: Buffer, f: seq<Byte>)
    requires Left(d, orig) && f in d.sent
    ensures Ready(orig) && DataFrame(f, orig)
  {
    var k: Byte :| AllSame(d.sent, Window(Headed(orig.(toMac := true), k)));
    HeadedIsData(orig, k);
  }

  // ---------------------------------------------------------------- sequence numbers

  predicate Carries(f: seq<Byte>, number: int) { |f| > 2 && f[2] as int == number }

  predicate AllCarry(frames: seq<seq<Byte>>, number: int) { forall f :: f in frames ==> Carries(f, number) }

  /** The i-th accepted buffer is sent with number first + i, and the next buffer will get the next number. */
  ghost predicate Numbered(tr: Trace, first: Byte) {
    var n := |tr.gone|; var headed := if tr.s.onAir.Some? && !tr.s.onAir.value.toMac then 1 else 0;
    && tr.s.sequence as int == (first + n + headed) % 256
    && AllCarry(tr.sent, (first + n) % 256)
    && forall i :: 0 <= i < n ==> AllCarry(tr.gone[i].sent, (first + i) % 256)
  }

  lemma NextNumber(s: Byte, k: nat)
    requires s as int == k % 256
    ensures NextSequence(s) as int == (k + 1) % 256 && Previous(NextSequence(s)) == s
  {
  }

  /** A frame leaves, and the next number is due. */
  lemma DepartedNumbers(tr: Trace, u: State, d: Departure, first: Byte)
    requires Numbered(tr, first) && AllCarry(d.sent, (first + |tr.gone|) % 256)
    requires u.onAir.None? && u.sequence as int == (first + |tr.gone| + 1) % 256
    ensures Numbered(Trace(u, tr.accepted, tr.gone + [d], [], 0, 0), first)
  {
  }

  lemma ContinueNumbers(tr: Trace, first: Byte)
    requires Numbered(tr, first) && (tr.s.queue != [] ==> tr.s.queue[0].toMac)
    ensures Numbered(tr.(s := Continue(tr.s)), first)
  {
  }

  /** The frame that a channel check sends or tries to send has the number that is due. */
  lemma PreparedNumber(tr: Trace, first: Byte) returns (b: Buffer, sequence: Byte)
    requires Inv(tr) && tr.s.timer == CCA && tr.s.onAir.Some? && Numbered(tr, first)
    ensures Sendable(tr.s) && b == Prepare(tr.s.onAir.value, tr.s.sequence).0 && !b.toMac
    ensures sequence == Prepare(tr.s.onAir.value, tr.s.sequence).1 && sequence as int == (first + |tr.gone| + 1) % 256
    ensures b.ptr <= b.end <= |b.bytes| && Carries(Window(b), (first + |tr.gone|) % 256)
  {
    var orig := tr.accepted[|tr.gone|];
    PreparedIsFrame(tr, orig);
    b, sequence := Prepare(tr.s.onAir.value, tr.s.sequence).0, Prepare(tr.s.onAir.value, tr.s.sequence).1;
    HeadedIsData(orig, Previous(sequence));
    if tr.s.onAir.value.toMac { NextNumber(tr.s.sequence, first + |tr.gone|); }
  }

  /** What a channel check does to the numbers. */
  lemma CcaNumbers(tr: Trace, radio: Radio, first: Byte)
    requires Inv(tr) && tr.s.timer == CCA && tr.s.onAir.Some? && Sendable(tr.s) && Numbered(tr, first)
    ensures var (u, e) := CcaExpired(tr.s, radio); Numbered(Counted(tr, u, e, true), first)
  {
    var b, sequence := PreparedNumber(tr, first);
    var (u, e) := CcaExpired(tr.s, radio);
    var t := Counted(tr, u, e, true);
    if e.gone.Some? {
      DepartedNumbers(tr, u, t.gone[|tr.gone|], first);
    } else {
      assert u.onAir == Some(b) && u.sequence == sequence;
    }
  }

  /** What a missing or an arrived acknowledgement does to the numbers. */
  lemma AckNumbers(tr: Trace, first: Byte)
    requires Inv(tr) && tr.s.timer != CCA && tr.s.onAir.Some? && Numbered(tr, first)
    ensures var (u, e) := AckExpired(tr.s); Numbered(Counted(tr, u, e, true), first)
    ensures var (u, e) := AckReceived(tr.s); Numbered(Counted(tr, u, e, false), first)
  {
    assert OnAir(tr, tr.accepted[|tr.gone|]);
    var (u, e) := AckExpired(tr.s);
    if e.gone.Some? { DepartedNumbers(tr, u, Counted(tr, u, e, true).gone[|tr.gone|], first); }
    var (v, f) := AckReceived(tr.s);
    DepartedNumbers(tr, v, Counted(tr, v, f, false).gone[|tr.gone|], first);
  }

  lemma QueueToMac(tr: Trace)
    requires Inv(tr) && tr.s.queue != []
    ensures tr.s.queue[0].toMac
  {
    var from := if tr.s.onAir.Some? then |tr.gone| + 1 else |tr.gone|;
    assert Ready(tr.accepted[from]);
  }

  lemma SignalNumbers(tr: Trace, radio: Radio, first: Byte)
    requires Inv(tr) && Sendable(tr.s) && tr.s.events != [] && Signal(tr.s.events[0]) && Numbered(tr, first)
    ensures Numbered(Step(tr, TaskTurn(radio)), first)
  {
    assert Fits(tr.s, tr.s.events[0]);
    PopKeeps(tr);
    if tr.s.queue != [] { QueueToMac(tr); }
    var t := tr.(s := tr.s.(events := tr.s.events[1..]));
    if tr.s.events[0] == TIMER_CCA {
      CcaNumbers(t, radio, first);
      CcaEnds(tr, t, radio, first);
    } else {
      AckNumbers(t, first);
      AckEnds(tr, t, radio, first);
    }
  }

  lemma CcaEnds(tr: Trace, t: Trace, radio: Radio, first: Byte)
    requires Sendable(tr.s) && tr.s.events != [] && tr.s.events[0] == TIMER_CCA && t == tr.(s := tr.s.(events := tr.s.events[1..]))
    requires tr.s.queue != [] ==> tr.s.queue[0].toMac
    requires var (u, e) := CcaExpired(t.s, radio); Numbered(Counted(t, u, e, true), first)
    ensures Numbered(Step(tr, TaskTurn(radio)), first)
  {
    var (u, e) := CcaExpired(t.s, radio);
    SignalEnds(tr, t, u, e, true, first);
  }

  lemma AckEnds(tr: Trace, t: Trace, radio: Radio, first: Byte)
    requires Sendable(tr.s) && tr.s.events != [] && tr.s.events[0] in {TIMER_ACK, ACK_RX}
    requires t == tr.(s := tr.s.(events := tr.s.events[1..])) && (tr.s.queue != [] ==> tr.s.queue[0].toMac)
    requires var (u, e) := AckExpired(t.s); Numbered(Counted(t, u, e, true), first)
    requires var (u, e) := AckReceived(t.s); Numbered(Counted(t, u, e, false), first)
    ensures Numbered(Step(tr, TaskTurn(radio)), first)
  {
    if tr.s.events[0] == TIMER_ACK {
      var (u, e) := AckExpired(t.s);
      SignalEnds(tr, t, u, e, true, first);
    } else {
      var (u, e) := AckReceived(t.s);
      SignalEnds(tr, t, u, e, false, first);
    }
  }

  lemma SignalEnds(tr: Trace, t: Trace, u: State, e: Effect, timer: bool, first: Byte)
    requires t == tr.(s := t.s) && Numbered(Counted(t, u, e, timer), first) && (u.queue != [] ==> u.queue[0].toMac)
    ensures Numbered(Counted(tr, Continue(u), e, timer), first)
  {
    CountedElsewhere(tr, t, u, Continue(u), e, timer);
    ContinueNumbers(Counted(t, u, e, timer), first);
  }

  predicate HasHeader(s: State) { s.onAir.Some? && !s.onAir.value.toMac }

  lemma SameNumbers(tr: Trace, t: Trace, first: Byte)
    requires Numbered(tr, first) && t.gone == tr.gone && t.sent == tr.sent && t.s.sequence == tr.s.sequence
    requires HasHeader(t.s) == HasHeader(tr.s)
    ensures Numbered(t, first)
  {
  }

  /** Any other step sends nothing, and what it puts on air has no header. */
  lemma QuietStep(tr: Trace, i: Input)
    requires Inv(tr) && Sendable(tr.s) && Allowed(tr.s, i) && (tr.s.queue != [] ==> tr.s.queue[0].toMac)
    requires i.TaskTurn? ==> tr.s.events == [] || !Signal(tr.s.events[0])
    ensures var t := Step(tr, i);
      t.gone == tr.gone && t.sent == tr.sent && t.s.sequence == tr.s.sequence && HasHeader(t.s) == HasHeader(tr.s)
  {
  }

  lemma QuietNumbers(tr: Trace, i: Input, first: Byte)
    requires Inv(tr) && Sendable(tr.s) && Allowed(tr.s, i) && Numbered(tr, first)
    requires i.TaskTurn? ==> tr.s.events == [] || !Signal(tr.s.events[0])
    ensures Numbered(Step(tr, i), first)
  {
    if tr.s.queue != [] { QueueToMac(tr); }
    QuietStep(tr, i);
    SameNumbers(tr, Step(tr, i), first);
  }

  lemma StepNumbers(tr: Trace, i: Input, first: Byte)
    requires Inv(tr) && Allowed(tr.s, i) && Numbered(tr, first)
    ensures Sendable(tr.s) && Numbered(Step(tr, i), first)
  {
    StepKeeps(tr, i);
    if i.TaskTurn? && tr.s.events != [] && Signal(tr.s.events[0]) {
      SignalNumbers(tr, i.radio, first);
    } else {
      QuietNumbers(tr, i, first);
    }
  }

  lemma {:induction false} RunNumbers(tr: Trace, inputs: seq<Input>, first: Byte)
    requires Inv(tr) && InScope(tr, inputs) && Numbered(tr, first)
    ensures Numbered(Run(tr, inputs), first)
    decreases |inputs|
  {
    if inputs != [] {
      StepKeeps(tr, inputs[0]);
      StepNumbers(tr, inputs[0], first);
      RunNumbers(Step(tr, inputs[0]), inputs[1..], first);
    }
  }

  /** Over every run the accepted buffers are numbered in the order they came, modulo 256, retransmissions alike. */
  lemma NumbersFollowOrder(sequence: Byte, inputs: seq<Input>)
    requires InScopeFrom(sequence, inputs)
    ensures var tr := RunFrom(sequence, inputs);
      && (forall f :: f in tr.sent ==> |f| > 2 && f[2] as int == (sequence + |tr.gone|) % 256)
      && (forall i, f :: 0 <= i < |tr.gone| && f in tr.gone[i].sent ==> |f| > 2 && f[2] as int == (sequence + i) % 256)
  {
    BootKeeps(sequence);
    RunNumbers(Boot(sequence), inputs, sequence);
    var tr := RunFrom(sequence, inputs);
    forall i, f | 0 <= i < |tr.gone| && f in tr.gone[i].sent ensures |f| > 2 && f[2] as int == (sequence + i) % 256 {
      assert AllCarry(tr.gone[i].sent, (sequence + i) % 256) && Carries(f, (sequence + i) % 256);
    }
    forall f | f in tr.sent ensures |f| > 2 && f[2] as int == (sequence + |tr.gone|) % 256 {
      assert Carries(f, (sequence + |tr.gone|) % 256);
    }
  }
}
