/** The transmit machine as it runs (nanostack/mac_15_4.c): global ring, counters and timer, changed by each event. */
module MacTx {
  import opened MacModel

  const RING := 4

  datatype Status = TX_OK | TX_OK_ACK | TX_CCA | TX_BUSY

  /** A ring position, counted on past the end. */
  function Slot(i: nat): nat { if i >= RING then i - RING else i }

  predicate Occupied(slots: seq<Option<Buffer>>, i: nat)
    requires |slots| == RING && i < 2 * RING
  {
    slots[Slot(i)].Some?
  }

  /** The n buffers from ring position rd on. */
  function Held(slots: seq<Option<Buffer>>, rd: nat, n: nat): seq<Buffer>
    requires |slots| == RING && rd < RING && n <= RING && forall i :: rd <= i < rd + n ==> Occupied(slots, i)
  {
    seq(n, k requires 0 <= k < n => assert Occupied(slots, rd + k); slots[Slot(rd + k)].value)
  }

  lemma HeldMore(slots: seq<Option<Buffer>>, rd: nat, n: nat, b: Buffer)
    requires |slots| == RING && rd < RING && n < RING && forall i :: rd <= i < rd + n ==> Occupied(slots, i)
    ensures var more := slots[Slot(rd + n) := Some(b)];
      && (forall i :: rd <= i < rd + n + 1 ==> Occupied(more, i))
      && Held(more, rd, n + 1) == Held(slots, rd, n) + [b]
  {
    var more := slots[Slot(rd + n) := Some(b)];
    forall i | rd <= i < rd + n + 1 ensures Occupied(more, i) && (i < rd + n ==> more[Slot(i)] == slots[Slot(i)]) {
      if i < rd + n { assert Occupied(slots, i); }
    }
  }

  lemma HeldLess(slots: seq<Option<Buffer>>, rd: nat, n: nat)
    requires |slots| == RING && rd < RING && 0 < n < RING && forall i :: rd <= i < rd + n ==> Occupied(slots, i)
    ensures var next, less := Slot(rd + 1), slots[rd := None];
      && Occupied(slots, rd) && slots[rd].value == Held(slots, rd, n)[0]
      && (forall i :: next <= i < next + n - 1 ==> Occupied(less, i))
      && Held(less, next, n - 1) == Held(slots, rd, n)[1..]
  {
    assert Occupied(slots, rd);
    var next, less := Slot(rd + 1), slots[rd := None];
    var back := rd + 1 - next;
    forall i | next <= i < next + n - 1 ensures Occupied(less, i) && less[Slot(i)] == slots[Slot(i + back)] {
      assert Occupied(slots, i + back);
    }
    var rest := Held(less, next, n - 1);
    forall k | 0 <= k < n - 1 ensures rest[k] == Held(slots, rd, n)[k + 1] {
      assert Occupied(less, next + k) && less[Slot(next + k)] == slots[Slot(next + k + back)];
    }
  }

  class Mac {
    const ring: array<Option<Buffer>>
    var rd: nat
    var wr: nat
    var onAir: Option<Buffer>
    var timerEvent: Timer
    var timerActive: bool
    var retry: nat
    var ccaRetry: nat
    var sequence: Byte
    var events: seq<Event>

    function Count(): (n: nat)
      requires rd < RING && wr < RING
      reads this`rd, this`wr
      ensures n < RING && wr == Slot(rd + n)
    {
      if wr >= rd then wr - rd else wr + RING - rd
    }

    /** The slots from rd up to wr hold buffers. */
    predicate Valid()
      reads this`rd, this`wr, ring
    {
      && ring.Length == RING && rd < RING && wr < RING
      && forall i :: rd <= i < rd + Count() ==> Occupied(ring[..], i)
    }

    function Queue(): seq<Buffer>
      requires Valid()
      reads this`rd, this`wr, ring
    {
      Held(ring[..], rd, Count())
    }

    function Contents(): State
      requires Valid()
      reads this, ring
    {
      State(Queue(), onAir, timerEvent, timerActive, retry, ccaRetry, sequence, events)
    }

    /** mac_mem_alloc and the globals at program start; the first sequence number is a byte of the address. */
    constructor (sequence: Byte)
      ensures Valid() && fresh(ring) && Contents() == State([], None, NO_TIMER, false, 0, 0, sequence, [])
    {
      ring := new Option<Buffer>[RING](_ => None);
      rd, wr := 0, 0;
      onAir, timerEvent, timerActive := None, NO_TIMER, false;
      retry, ccaRetry := 0, 0;
      this.sequence, events := sequence, [];
    }

    // -------------------------------------------------------------- the ring

    /** mac_tx_add; a buffer that is not accepted is freed. */
    method TxAdd(b: Buffer) returns (ok: bool)
      requires Valid()
      modifies this`wr, ring
      ensures Valid() && (Contents(), ok) == Add(old(Contents()), b)
    {
      var tmp := wr + 1;
      if tmp >= RING { tmp := 0; }
      if tmp != rd {
        HeldMore(ring[..], rd, Count(), b.(toMac := true));
        ring[wr] := Some(b.(toMac := true));
        wr := tmp;
        return true;
      }
      return false;
    }

    /** mac_tx_pull. */
    method TxPull() returns (b: Option<Buffer>)
      requires Valid()
      modifies this`rd, ring
      ensures Valid()
      ensures var q := old(Queue());
        if q == [] then b == None && Queue() == q else b == Some(q[0]) && Queue() == q[1..]
    {
      var tmp := rd;
      if tmp == wr { return None; }
      HeldLess(ring[..], rd, Count());
      b := ring[tmp];
      ring[tmp] := None;
      tmp := tmp + 1;
      if tmp >= RING { tmp := 0; }
      rd := tmp;
    }

    // -------------------------------------------------------------- events and timer

    /** xQueueSend without waiting: a full queue drops the event. */
    method Send(e: Event)
      requires Valid()
      modifies this`events
      ensures Contents() == Post(old(Contents()), e)
    {
      if |events| < EVENT_QUEUE_SIZE { events := events + [e]; }
    }

    /** mac_handle with a buffer going down. */
    method Handle(b: Buffer) returns (ok: bool)
      requires Valid()
      modifies this`wr, this`events, ring
      ensures Valid() && (Contents(), ok) == MacModel.Handle(old(Contents()), b)
    {
      ok := TxAdd(b);
      Send(TRANSMIT);
    }

    /** mac_timer_launch. */
    method TimerLaunch(t: Timer)
      modifies this`timerEvent, this`timerActive
      ensures timerEvent == t && timerActive
    {
      timerEvent := t;
      timerActive := true;
    }

    /** mac_timer_stop. */
    method TimerStop()
      modifies this`timerEvent, this`timerActive
      ensures timerEvent == NO_TIMER && !timerActive
    {
      timerActive := false;
      timerEvent := NO_TIMER;
    }

    /** mac_timer_callback. */
    method TimerCallback()
      requires Valid() && (timerActive ==> timerEvent != NO_TIMER)
      modifies this`timerActive, this`events
      ensures Contents() == Callback(old(Contents()))
    {
      if timerActive {
        timerActive := false;
        Send(if timerEvent == CCA then TIMER_CCA else TIMER_ACK);
      }
    }

    /** ack_handle. */
    method AckHandle(sqn: Byte)
      requires Valid()
      modifies this`timerEvent, this`timerActive, this`events
      ensures Contents() == AckArrives(old(Contents()), sqn)
    {
      if timerEvent == ACK && timerActive {
        if onAir.Some? {
          var received := false;
          if sequence == 0x00 && sqn == 0xff { received := true; }
          else if sequence != 0x00 && sqn == sequence - 1 { received := true; }
          if received {
            timerActive := false;
            Send(ACK_RX);
            TimerStop();
          }
        }
      }
    }

    // -------------------------------------------------------------- sending

    /** mac_header_generate, with enough room in front of the payload. */
    method HeaderGenerate(b: Buffer) returns (h: Buffer, ack: bool)
      requires Ready(b)
      modifies this`sequence
      ensures h == Headed(b, old(sequence)).(compressed := b.compressed, toMac := b.toMac)
      ensures sequence == NextSequence(old(sequence)) && ack == !b.broadcast
    {
      var at := b.ptr - HeaderSize(b);
      h := b.(ptr := at);
      h := h.(bytes := h.bytes[at := ControlByte(b)]);
      h := h.(bytes := h.bytes[at + 1 := b.modes]);
      h := h.(bytes := h.bytes[at + 2 := sequence]);
      ghost var begin := [ControlByte(b), b.modes, sequence];
      sequence := if sequence == 0xff then 0 else sequence + 1;
      assert h.bytes[..at + 3] == b.bytes[..at] + begin;
      var bytes := CopyAddresses(h.bytes, at + 3, b.addresses);
      assert bytes == b.bytes[..at] + (begin + b.addresses) + b.bytes[b.ptr..];
      h := h.(bytes := bytes);
      ack := !b.broadcast;
    }

    /** The address fields, byte by byte. */
    method CopyAddresses(bytes: seq<Byte>, at: nat, addresses: seq<Byte>) returns (r: seq<Byte>)
      requires at + |addresses| <= |bytes|
      ensures r == bytes[..at] + addresses + bytes[at + |addresses|..]
    {
      r := bytes;
      for k := 0 to |addresses|
        invariant r == bytes[..at] + addresses[..k] + bytes[at + k..]
      {
        r := r[at + k := addresses[k]];
      }
      assert addresses[..|addresses|] == addresses;
    }

    /** mac_buffer_out; `radio` is what rf_write returns. */
    method BufferOut(b: Buffer, radio: Radio) returns (h: Buffer, status: Status)
      requires Valid() && onAir.None? && if b.toMac then Ready(b) else b.ptr + 1 < |b.bytes|
      modifies this`onAir, this`sequence, this`ccaRetry
      ensures var (f, next, ack) := Prepare(b, old(sequence));
        && h == f && sequence == next
        && status == (if radio == Written then if ack then TX_OK_ACK else TX_OK else if radio == ChannelBusy then TX_CCA else TX_BUSY)
      ensures onAir == (if radio == Written then Some(h) else None)
      ensures ccaRetry == if radio == Written then 0 else old(ccaRetry)
    {
      var ack;
      if b.toMac {
        h := b.(compressed := (b.end - b.ptr) % 256);
        h, ack := HeaderGenerate(h);
        h := h.(toMac := false);
      } else {
        h := b;
        ack := AckRequested(b);
      }
      match radio
      case Written =>
        onAir := Some(h);
        ccaRetry := 0;
        status := if ack then TX_OK_ACK else TX_OK;
      case ChannelBusy => status := TX_CCA;
      case RadioBusy => status := TX_BUSY;
    }

    // -------------------------------------------------------------- mac_adhoc

    /** The MAC_TIMER_CCA case. */
    method TimerCcaCase(radio: Radio) returns (e: Effect)
      requires Valid() && Sendable(Contents())
      modifies this`onAir, this`timerEvent, this`timerActive, this`retry, this`ccaRetry, this`sequence
      ensures Valid() && (Contents(), e) == CcaExpired(old(Contents()), radio)
    {
      var buf := onAir;
      onAir := None;
      e := SILENT;
      if buf.Some? {
        var b, status := BufferOut(buf.value, radio);
        match status
        case TX_OK =>
          onAir := None;
          timerEvent := NO_TIMER;
          retry := 0;
          e := Effect(Sent(Window(b)), Some((b, Freed)));
        case TX_OK_ACK =>
          onAir := Some(b);
          TimerLaunch(ACK);
          e := Effect(Sent(Window(b)), None);
        case TX_BUSY => e := NotSent(b);
        case TX_CCA => e := NotSent(b);
      }
    }

    /** The MAC_TX_BUSY and MAC_TX_CCA cases, which do the same. */
    method NotSent(b: Buffer) returns (e: Effect)
      requires Valid()
      modifies this`onAir, this`timerEvent, this`timerActive, this`retry, this`ccaRetry
      ensures Valid() && Queue() == old(Queue())
      ensures if old(ccaRetry) + 1 > MAC_CCA_RETRY_MAX then
          ccaRetry == 0 && retry == 0 && onAir == None && timerEvent == NO_TIMER && timerActive == old(timerActive)
          && e == Effect(Failed, Some((Unwound(b), BrokenLink)))
        else
          ccaRetry == old(ccaRetry) + 1 && retry == old(retry) && onAir == Some(b) && timerEvent == CCA && timerActive
          && e == Effect(Failed, None)
    {
      ccaRetry := ccaRetry + 1;
      if ccaRetry > MAC_CCA_RETRY_MAX {
        ccaRetry := 0;
        retry := 0;
        onAir := None;
        timerEvent := NO_TIMER;
        return Effect(Failed, Some((Unwound(b), BrokenLink)));
      }
      onAir := Some(b);
      TimerLaunch(CCA);
      e := Effect(Failed, None);
    }

    /** The MAC_TIMER_ACK case. */
    method TimerAckCase() returns (e: Effect)
      requires Valid()
      modifies this`onAir, this`timerEvent, this`timerActive, this`retry
      ensures Valid() && (Contents(), e) == AckExpired(old(Contents()))
    {
      retry := retry + 1;
      e := SILENT;
      if retry > MAC_RETRY_MAX {
        TimerStop();
        retry := 0;
        var buf := onAir;
        onAir := None;
        if buf.Some? { e := Effect(NoAttempt, Some((Unwound(buf.value), BrokenLink))); }
        return;
      }
      TimerLaunch(CCA);
    }

    /** The MAC_ACK_RX case. */
    method AckRxCase() returns (e: Effect)
      requires Valid()
      modifies this`onAir, this`timerEvent, this`timerActive, this`retry
      ensures Valid() && (Contents(), e) == AckReceived(old(Contents()))
    {
      TimerStop();
      retry := 0;
      e := if onAir.Some? then Effect(NoAttempt, Some((onAir.value, Acknowledged))) else SILENT;
      onAir := None;
    }

    // -------------------------------------------------------------- mac_task

    /** One round of the loop of mac_task. */
    method TaskTurn(radio: Radio) returns (e: Effect)
      requires Valid() && Sendable(Contents())
      modifies this, ring
      ensures Valid() && (Contents(), e) == Turn(old(Contents()), radio)
    {
      e := SILENT;
      if events == [] { return; }
      var event := events[0];
      events := events[1..];
      match event {
        case TRANSMIT =>
          if timerEvent == NO_TIMER {
            var buf := TxPull();
            if buf.Some? {
              onAir := buf;
              TimerLaunch(CCA);
            }
          }
        case RECEIVE =>
        case TIMER_CCA => e := TimerCcaCase(radio);
        case TIMER_ACK => e := TimerAckCase();
        case ACK_RX => e := AckRxCase();
      }
      StartWaiting();
    }

    /** The end of the round: with nothing on air and no timer, the next buffer goes on air. */
    method StartWaiting()
      requires Valid()
      modifies this`rd, this`onAir, this`ccaRetry, this`timerEvent, this`timerActive, ring
      ensures Valid() && Contents() == Continue(old(Contents()))
    {
      if timerEvent == NO_TIMER && onAir.None? {
        var buf := TxPull();
        if buf.Some? {
          onAir := buf;
          ccaRetry := 0;
          TimerLaunch(CCA);
        }
      }
    }
  }
}
