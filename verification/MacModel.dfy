/** The transmit machine of nanostack's 802.15.4 MAC (nanostack/mac_15_4.c, ad-hoc build) as a function of its inputs:
    a bounded queue, one frame on air, a timer that waits for a channel check or for an acknowledgement. */
module MacModel {
  type Byte = i: int | 0 <= i < 256

  datatype Option<+T> = None | Some(value: T)

  /** buffer_t. The destination decides about the header: `broadcast`, the FC_INTRA_PAN bit, the addressing modes in
      the second frame control byte, and the address fields. */
  datatype Buffer = Buffer(id: nat, bytes: seq<Byte>, ptr: nat, end: nat, toMac: bool, compressed: Byte,
                           broadcast: bool, intra: bool, modes: Byte, addresses: seq<Byte>)

  /** mac_event_t, as far as it concerns transmission; RECEIVE stands for every other event. */
  datatype Event = TRANSMIT | RECEIVE | TIMER_CCA | TIMER_ACK | ACK_RX

  /** The events that decide about the frame on air. */
  predicate Signal(e: Event) { e in {TIMER_CCA, TIMER_ACK, ACK_RX} }

  /** mac_timer_event. */
  datatype Timer = NO_TIMER | CCA | ACK

  /** What rf_write returns. */
  datatype Radio = Written | ChannelBusy | RadioBusy

  datatype State = State(queue: seq<Buffer>, onAir: Option<Buffer>, timer: Timer, active: bool,
                         retry: nat, ccaRetry: nat, sequence: Byte, events: seq<Event>)

  const MAC_RETRY_MAX := 3
  const MAC_CCA_RETRY_MAX := 9
  const QUEUE_SIZE := 3
  const EVENT_QUEUE_SIZE := 20

  // ---------------------------------------------------------------- buffers

  function HeaderSize(b: Buffer): nat { 3 + |b.addresses| }

  /** A buffer as the upper layers hand it over: a window into its bytes, with room for the header in front. */
  predicate Ready(b: Buffer) { HeaderSize(b) <= b.ptr <= b.end <= |b.bytes| <= 0xffff }

  function Window(b: Buffer): seq<Byte>
    requires b.ptr <= b.end <= |b.bytes|
  {
    b.bytes[b.ptr..b.end]
  }

  /** FC_DATA_FRAME with FC_ACK and FC_INTRA_PAN. */
  function ControlByte(b: Buffer): Byte { 0x01 + (if b.broadcast then 0 else 0x20) + (if b.intra then 0x40 else 0) }

  function Header(b: Buffer, sequence: Byte): seq<Byte> { [ControlByte(b), b.modes, sequence] + b.addresses }

  /** mac_header_generate, and the note of the payload's length that mac_buffer_out takes first. */
  function Headed(b: Buffer, sequence: Byte): Buffer
    requires Ready(b)
  {
    var at := b.ptr - HeaderSize(b);
    b.(bytes := b.bytes[..at] + Header(b, sequence) + b.bytes[b.ptr..], ptr := at, compressed := (b.end - b.ptr) % 256, toMac := false)
  }

  function NextSequence(s: Byte): Byte { if s == 0xff then 0 else s + 1 }

  /** FC_ACK in the frame control field at the start of a headed buffer. */
  predicate AckRequested(b: Buffer)
    requires b.ptr + 1 < |b.bytes|
  {
    var fc := (b.bytes[b.ptr + 1] as int) * 256 + b.bytes[b.ptr] as int;
    fc / 0x20 % 2 == 1
  }

  /** mac_buffer_out up to rf_write: the buffer, the next sequence number and the ack flag. A buffer that has a header
      keeps it. */
  function Prepare(b: Buffer, sequence: Byte): (Buffer, Byte, bool)
    requires if b.toMac then Ready(b) else b.ptr + 1 < |b.bytes|
  {
    if b.toMac then (Headed(b, sequence), NextSequence(sequence), !b.broadcast)
    else (b, sequence, AckRequested(b))
  }

  /** The window is set back before a broken link is reported. */
  function Unwound(b: Buffer): Buffer { b.(ptr := (b.end - b.compressed) % 0x10000) }

  // ---------------------------------------------------------------- steps

  datatype How = Freed | Acknowledged | BrokenLink

  datatype Attempt = NoAttempt | Sent(frame: seq<Byte>) | Failed

  /** What a step does besides changing the state. */
  datatype Effect = Effect(attempt: Attempt, gone: Option<(Buffer, How)>)

  const SILENT := Effect(NoAttempt, None)

  function Post(s: State, e: Event): State { if |s.events| < EVENT_QUEUE_SIZE then s.(events := s.events + [e]) else s }

  function Launch(s: State, t: Timer): State { s.(timer := t, active := true) }

  /** mac_tx_add. */
  function Add(s: State, b: Buffer): (State, bool) {
    if |s.queue| < QUEUE_SIZE then (s.(queue := s.queue + [b.(toMac := true)]), true) else (s, false)
  }

  /** mac_handle with a buffer going down. */
  function Handle(s: State, b: Buffer): (State, bool) { (Post(Add(s, b).0, TRANSMIT), Add(s, b).1) }

  /** mac_timer_callback. */
  function Callback(s: State): State {
    if s.active && s.timer != NO_TIMER then Post(s.(active := false), if s.timer == CCA then TIMER_CCA else TIMER_ACK)
    else s
  }

  /** A buffer from the queue goes on air. */
  function Start(s: State): State
    requires s.queue != []
  {
    Launch(s.(onAir := Some(s.queue[0]), queue := s.queue[1..]), CCA)
  }

  /** The end of the loop of mac_task. */
  function Continue(s: State): State {
    if s.timer == NO_TIMER && s.onAir.None? && s.queue != [] then Start(s.(ccaRetry := 0)) else s
  }

  /** The on-air buffer can be sent: it has room for the header, or has it. */
  predicate Sendable(s: State) {
    s.onAir.Some? ==>
      var b := s.onAir.value;
      if b.toMac then Ready(b) else b.ptr + 1 < |b.bytes| && b.ptr <= b.end <= |b.bytes|
  }

  /** MAC_TIMER_CCA in mac_adhoc. */
  function CcaExpired(s: State, radio: Radio): (State, Effect)
    requires Sendable(s)
  {
    if s.onAir.None? then (s, SILENT)
    else
      var (b, sequence, ack) := Prepare(s.onAir.value, s.sequence);
      var t := s.(onAir := None, sequence := sequence);
      if radio == Written then
        var frame := Sent(Window(b));
        if ack then (Launch(t.(onAir := Some(b), ccaRetry := 0), ACK), Effect(frame, None))
        else (t.(timer := NO_TIMER, retry := 0, ccaRetry := 0), Effect(frame, Some((b, Freed))))
      else if s.ccaRetry + 1 > MAC_CCA_RETRY_MAX then
        (t.(timer := NO_TIMER, retry := 0, ccaRetry := 0), Effect(Failed, Some((Unwound(b), BrokenLink))))
      else
        (Launch(t.(onAir := Some(b), ccaRetry := s.ccaRetry + 1), CCA), Effect(Failed, None))
  }

  /** MAC_TIMER_ACK in mac_adhoc. */
  function AckExpired(s: State): (State, Effect) {
    if s.retry + 1 > MAC_RETRY_MAX then
      if s.onAir.None? then (s.(active := false, timer := NO_TIMER, retry := 0), SILENT)
      else (s.(active := false, timer := NO_TIMER, retry := 0, onAir := None),
            Effect(NoAttempt, Some((Unwound(s.onAir.value), BrokenLink))))
    else (Launch(s.(retry := s.retry + 1), CCA), SILENT)
  }

  /** MAC_ACK_RX in mac_adhoc. */
  function AckReceived(s: State): (State, Effect) {
    (s.(active := false, timer := NO_TIMER, retry := 0, onAir := None),
     if s.onAir.Some? then Effect(NoAttempt, Some((s.onAir.value, Acknowledged))) else SILENT)
  }

  /** One round of the loop of mac_task, for the event at the head of the queue. */
  function Turn(s: State, radio: Radio): (State, Effect)
    requires Sendable(s)
  {
    if s.events == [] then (s, SILENT)
    else
      var t := s.(events := s.events[1..]);
      match s.events[0]
      case TRANSMIT => (Continue(if t.timer != NO_TIMER || t.queue == [] then t else Start(t)), SILENT)
      case RECEIVE => (Continue(t), SILENT)
      case TIMER_CCA => var (u, e) := CcaExpired(t, radio); (Continue(u), e)
      case TIMER_ACK => var (u, e) := AckExpired(t); (Continue(u), e)
      case ACK_RX => var (u, e) := AckReceived(t); (Continue(u), e)
  }

  /** The comparison in ack_handle. */
  predicate Answers(sqn: Byte, sequence: Byte) {
    (sequence == 0 && sqn == 0xff) || (sequence != 0 && sqn == sequence - 1)
  }

  /** ack_handle takes the acknowledgement. */
  predicate Takes(s: State, sqn: Byte) { s.timer == ACK && s.active && s.onAir.Some? && Answers(sqn, s.sequence) }

  /** ack_handle: the timer is cleared at once, the frame on air waits for the event. */
  function AckArrives(s: State, sqn: Byte): State {
    if Takes(s, sqn) then Post(s, ACK_RX).(active := false, timer := NO_TIMER) else s
  }
}
