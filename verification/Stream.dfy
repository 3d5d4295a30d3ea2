/** One direction of a sniffed connection as a value: what each packet does to the expected sequence
    number, the reassembly list, the partial-input buffer and the records handed out, and what holds
    over every run of packets cut from one stream. */
module Stream {
  import opened Reassembly
  import opened RecordLayer

  /** Three extra Ethernet frames fit in the input buffer (MTU_EXTRA); the buffer is not grown here. */
  const MTU_EXTRA := 4500
  const MAX_INPUT_SZ := MAX_BODY + MTU_EXTRA

  /** The longest payload that always fits into the buffer behind an incomplete record. */
  function MaxPayload(bufferSize: nat): int { bufferSize - MAX_BODY - RECORD_HEADER_SZ + 1 }

  datatype Flow = Flow(
    expected: nat,         // next relative sequence number (cliExpected / srvExpected)
    held: seq<Segment>,    // reassembly list
    buffer: seq<byte>,     // inputBuffer.buffer[..inputBuffer.length]
    records: seq<Record>,  // records handed to the message handlers so far
    fatal: bool            // flags.fatalError
  )

  const INITIAL := Flow(1, [], [], [], false)

  /** A payload placed at a relative sequence number; `after` is the byte of memory behind it. */
  datatype Packet = Packet(start: nat, data: seq<byte>, after: byte)

  /** AdjustSequence's `real`: the distance from the initial sequence number, in word32 arithmetic. */
  function Relative(sequence: nat, seqStart: nat): nat
    requires sequence < WORD32_LIMIT && seqStart < WORD32_LIMIT
  {
    if sequence < seqStart then WORD32_LIMIT - 1 - seqStart + sequence
    else sequence - seqStart
  }

  /** The rollover branch is one short: the relative number is the modular difference exactly when there was no rollover. */
  lemma RelativeIsDistance(sequence: nat, seqStart: nat)
    requires sequence < WORD32_LIMIT && seqStart < WORD32_LIMIT
    ensures Relative(sequence, seqStart) == (sequence - seqStart) % WORD32_LIMIT <==> seqStart <= sequence
  {
    if sequence < seqStart {
      assert (sequence - seqStart) % WORD32_LIMIT == sequence - seqStart + WORD32_LIMIT;
    }
  }

  /** The result of AdjustSequence: stop here, or go on with the bytes that are next in order. */
  datatype Verdict = Stop | Continue(data: seq<byte>)

  /** The overlap branch: what of the new bytes at `expected` is passed on ... */
  function Trimmed(held: seq<Segment>, expected: nat, data: seq<byte>): seq<byte>
    requires held != [] ==> expected <= held[0].begin
  {
    if held != [] && expected + |data| > held[0].begin then data[..held[0].begin - expected] else data
  }

  /** ... and what is added to the list behind its front: newEnd - front->end bytes, one more than there are. */
  function Overhang(held: seq<Segment>, expected: nat, data: seq<byte>, after: byte): seq<Segment>
    requires held != [] ==> expected <= held[0].begin && held[0].data != []
  {
    if held != [] && expected + |data| > held[0].Limit() - 1 then
      Fill(held, held[0].Limit(), data[held[0].Limit() - expected..] + [after])
    else held
  }

  /** The list is empty or starts at or after `expected`. */
  predicate FrontAhead(f: Flow) { f.held != [] ==> f.expected <= f.held[0].begin && f.held[0].data != [] }

  /** The overlap branch counts back to the front of the list; with the front behind `expected` it would pass on a
      negative number of bytes. */
  predicate Defined(f: Flow, p: Packet) { p.start < f.expected < p.start + |p.data| ==> FrontAhead(f) }

  /** AdjustSequence for a segment without FIN. */
  function Adjust(f: Flow, p: Packet): (Flow, Verdict)
    requires Defined(f, p)
  {
    if p.start < f.expected then
      if p.start + |p.data| > f.expected then
        var unseen := p.data[f.expected - p.start..];
        var data := Trimmed(f.held, f.expected, unseen);
        (f.(expected := f.expected + |data|, held := Overhang(f.held, f.expected, unseen, p.after)), Continue(data))
      else (f, Stop)
    else if p.start > f.expected && p.data != [] then
      (f.(held := Fill(f.held, p.start, p.data)), Stop)
    else
      // in order, or an early segment without data
      (f.(expected := f.expected + |p.data|), Continue(p.data))
  }

  /** What the first in-order segment behind the rollover meets: it looks one byte old, so exactly its first byte is
      dropped, and a segment of one byte is dropped whole. The one behind it looks in order again, one byte short. */
  lemma RolloverDropsByte(f: Flow, sequence: nat, seqStart: nat, data: seq<byte>, after: byte)
    requires sequence < seqStart < WORD32_LIMIT && f.expected == (sequence - seqStart) % WORD32_LIMIT
    requires data != [] && FrontAhead(f) && sequence + |data| < seqStart
    ensures var p := Packet(Relative(sequence, seqStart), data, after);
      && Defined(f, p) && p.start + 1 == f.expected
      && (|data| == 1 ==> Adjust(f, p) == (f, Stop))
      && (|data| > 1 ==> Adjust(f, p).1 == Continue(Trimmed(f.held, f.expected, data[1..])))
      && (f.held == [] ==> Adjust(f, p).0.expected == Relative(sequence + |data|, seqStart))
  {
    RelativeIsDistance(sequence, seqStart);
    assert (sequence - seqStart) % WORD32_LIMIT == sequence - seqStart + WORD32_LIMIT;
  }

  /** HaveMoreInput: moves runs that are next in order from the list to the buffer while they fit. */
  function Drain(f: Flow, bufferSize: nat): Flow
    decreases |f.held|
  {
    if f.held != [] && f.held[0].begin == f.expected && |f.held[0].data| <= bufferSize - |f.buffer| then
      Drain(f.(held := f.held[1..], expected := f.expected + |f.held[0].data|, buffer := f.buffer + f.held[0].data),
            bufferSize)
    else f
  }

  lemma {:induction false} DrainShortens(f: Flow, bufferSize: nat)
    ensures |Drain(f, bufferSize).held| <= |f.held|
    ensures |Drain(f, bufferSize).held| == |f.held| ==> Drain(f, bufferSize) == f
    decreases |f.held|
  {
    if Drain(f, bufferSize) != f {
      DrainShortens(f.(held := f.held[1..], expected := f.expected + |f.held[0].data|,
                       buffer := f.buffer + f.held[0].data), bufferSize);
    }
  }

  /** One pass over the pending bytes in f.buffer: complete records are handed out, the leftover is kept. */
  function CutRecords(f: Flow): Flow {
    var cut := Frame(f.buffer);
    f.(records := f.records + cut.records, buffer := cut.rest, fatal := cut.bad)
  }

  /** ProcessMessage: cut records, see whether the list has more input, and go on while it has. */
  function Process(f: Flow, bufferSize: nat): Flow
    decreases |f.held|
  {
    var cut := CutRecords(f);
    if cut.fatal then cut
    else
      DrainShortens(cut, bufferSize);
      var more := Drain(cut, bufferSize);
      if |more.held| == |cut.held| then cut else Process(more, bufferSize)
  }

  /** ProcessMessage handles records one at a time: a complete record is handed out and the rest follows ... */
  lemma ProcessRecord(f: Flow, bufferSize: nat)
    requires HasRecord(f.buffer) && !BadHeader(f.buffer) && KnownType(f.buffer[0])
    ensures Process(f, bufferSize) ==
            Process(f.(records := f.records + [FirstRecord(f.buffer)], buffer := f.buffer[RecordSize(f.buffer)..]), bufferSize)
  {
    var next := f.(records := f.records + [FirstRecord(f.buffer)], buffer := f.buffer[RecordSize(f.buffer)..]);
    var tail := Frame(next.buffer);
    assert f.records + ([FirstRecord(f.buffer)] + tail.records) == next.records + tail.records;
    assert CutRecords(f) == CutRecords(next);
  }

  /** ... a malformed one is fatal ... */
  lemma ProcessBad(f: Flow, bufferSize: nat)
    requires BadHeader(f.buffer) || (HasRecord(f.buffer) && !KnownType(f.buffer[0]))
    ensures Process(f, bufferSize) == f.(buffer := [], fatal := true)
  {
    assert f.records + [] == f.records;
  }

  /** ... and an incomplete one waits for what the list can add. */
  lemma ProcessPartial(f: Flow, bufferSize: nat)
    requires !f.fatal && !BadHeader(f.buffer) && !HasRecord(f.buffer)
    ensures var more := Drain(f, bufferSize);
      Process(f, bufferSize) == if |more.held| < |f.held| then Process(more, bufferSize) else more
  {
    DrainShortens(f, bufferSize);
    assert f.records + [] == f.records;
    assert CutRecords(f) == f;
  }

  /** The whole path of one data segment: AdjustSequence, CheckPreRecord, ProcessMessage. */
  function Decode(f: Flow, p: Packet, bufferSize: nat): Flow
    requires f.fatal || Defined(f, p)
  {
    if f.fatal then f
    else
      var (g, verdict) := Adjust(f, p);
      if verdict.Stop? || verdict.data == [] then g
      else Process(g.(buffer := g.buffer + verdict.data), bufferSize)
  }

  // ---------------------------------------------------------------- what is kept, for a stream S
  // S[q] is the byte with relative sequence number q; S[0] stands for the SYN.

  /** Every byte on the list is the stream's byte at that position. */
  ghost predicate Agrees(S: seq<byte>, held: seq<Segment>) {
    forall q: nat :: ByteAt(held, q).Some? ==> q < |S| && ByteAt(held, q).value == S[q]
  }

  /** No run on the list is longer than the room left behind an incomplete record. */
  ghost predicate SmallRuns(held: seq<Segment>, bufferSize: nat) {
    forall s :: s in held ==> |s.data| <= MaxPayload(bufferSize)
  }

  ghost predicate ListOk(S: seq<byte>, f: Flow, bufferSize: nat) {
    1 <= f.expected <= |S| < WORD32_LIMIT && WellFormed(f.held, f.expected) && Agrees(S, f.held) && SmallRuns(f.held, bufferSize)
  }

  /** What has been handed out and kept is the stream up to `expected`, parsed as a whole. */
  ghost predicate Tracks(S: seq<byte>, f: Flow, bufferSize: nat) {
    ListOk(S, f, bufferSize) && Frame(S[1..f.expected]) == Framing(f.records, f.buffer, f.fatal)
  }

  /** The same while f.buffer still has to be parsed. */
  ghost predicate Pending(S: seq<byte>, f: Flow, bufferSize: nat) {
    ListOk(S, f, bufferSize) && Frame(S[1..f.expected]) == Resume(Framing(f.records, [], false), f.buffer)
  }

  /** The list is empty or starts strictly after `expected`. */
  ghost predicate Settled(f: Flow) { f.fatal || WellFormed(f.held, f.expected + 1) }

  /** The byte at q has been passed on or is on the list. */
  ghost predicate Has(f: Flow, q: nat) { q < f.expected || ByteAt(f.held, q).Some? }

  ghost predicate KeepsAll(f: Flow, g: Flow) { forall q: nat :: Has(f, q) ==> Has(g, q) }

  /** Appending the next bytes of the stream to a parsed prefix. */
  lemma AppendNext(S: seq<byte>, f: Flow, g: Flow, bufferSize: nat)
    requires Tracks(S, f, bufferSize) && !f.fatal && ListOk(S, g, bufferSize) && f.expected <= g.expected
    requires g.records == f.records && g.buffer == f.buffer + S[f.expected..g.expected]
    ensures Pending(S, g, bufferSize)
  {
    var next := S[f.expected..g.expected];
    assert S[1..g.expected] == S[1..f.expected] + next;
    FrameIsChunkingIndependent(S[1..f.expected], next);
    assert [] + g.buffer == g.buffer;
  }

  lemma CutTracks(S: seq<byte>, f: Flow, bufferSize: nat)
    requires Pending(S, f, bufferSize)
    ensures Tracks(S, CutRecords(f), bufferSize) && KeepsAll(f, CutRecords(f))
  {
    assert [] + f.buffer == f.buffer;
  }

  /** The bytes of a run are a slice of the stream. */
  lemma WholeRun(S: seq<byte>, run: Segment, rest: seq<Segment>)
    requires Agrees(S, [run] + rest) && run.data != []
    ensures run.Limit() <= |S| && run.data == S[run.begin..run.Limit()]
  {
    forall i: nat | i < |run.data|
      ensures run.begin + i < |S| && run.data[i] == S[run.begin + i]
    {
      ByteAtCons(run, rest, run.begin + i);
    }
    var last: nat := |run.data| - 1;
    ByteAtCons(run, rest, run.begin + last);
  }

  /** Taking the front run off the list, when it is next in order. */
  lemma PopFront(S: seq<byte>, f: Flow, bufferSize: nat)
    requires ListOk(S, f, bufferSize) && f.held != [] && f.held[0].begin == f.expected
    ensures f.held[0].Limit() <= |S| && f.held[0].data == S[f.expected..f.held[0].Limit()]
    ensures ListOk(S, f.(held := f.held[1..], expected := f.held[0].Limit()), bufferSize)
    ensures KeepsAll(f, f.(held := f.held[1..], expected := f.held[0].Limit()))
  {
    var h, rest := f.held[0], f.held[1..];
    assert f.held == [h] + rest;
    WholeRun(S, h, rest);
    forall q: nat | ByteAt(rest, q).Some?
      ensures q < |S| && ByteAt(rest, q).value == S[q]
    {
      if q < h.Limit() { BelowIsNone(rest, h.Limit(), q); }
      ByteAtCons(h, rest, q);
    }
  }

  lemma Joined(S: seq<byte>, a: nat, b: nat, c: nat, front: seq<byte>)
    requires a <= b <= c <= |S|
    ensures front + S[a..b] + S[b..c] == front + S[a..c]
  {
    assert S[a..b] + S[b..c] == S[a..c];
  }

  /** Draining appends the next bytes of the stream, loses nothing, and stops only at a gap or for lack of room. */
  lemma {:induction false} DrainKeeps(S: seq<byte>, f: Flow, bufferSize: nat)
    requires ListOk(S, f, bufferSize)
    ensures var g := Drain(f, bufferSize);
      && ListOk(S, g, bufferSize) && f.expected <= g.expected && KeepsAll(f, g)
      && g.buffer == f.buffer + S[f.expected..g.expected] && g.records == f.records && g.fatal == f.fatal
      && (|g.buffer| + MaxPayload(bufferSize) <= bufferSize ==> WellFormed(g.held, g.expected + 1))
    decreases |f.held|
  {
    if f.held != [] && f.held[0].begin == f.expected && |f.held[0].data| <= bufferSize - |f.buffer| {
      PopFront(S, f, bufferSize);
      var h := f.held[0];
      var next := f.(held := f.held[1..], expected := h.Limit(), buffer := f.buffer + h.data);
      DrainKeeps(S, next, bufferSize);
      Joined(S, f.expected, h.Limit(), Drain(f, bufferSize).expected, f.buffer);
    } else {
      assert f.buffer + S[f.expected..f.expected] == f.buffer;
      if f.held != [] && f.held[0].begin == f.expected { assert f.held[0] in f.held; }
    }
  }

  /** ProcessMessage on pending bytes: the stream stays tracked, nothing is lost, and the list is left settled. */
  lemma {:induction false} ProcessKeeps(S: seq<byte>, f: Flow, bufferSize: nat)
    requires Pending(S, f, bufferSize) && bufferSize >= MAX_INPUT_SZ
    ensures var g := Process(f, bufferSize);
      && Tracks(S, g, bufferSize) && Settled(g) && f.expected <= g.expected && KeepsAll(f, g)
    decreases |f.held|
  {
    var cut := CutRecords(f);
    CutTracks(S, f, bufferSize);
    if !cut.fatal {
      LeftoverIsIncomplete(f.buffer);
      DrainShortens(cut, bufferSize);
      DrainKeeps(S, cut, bufferSize);
      var more := Drain(cut, bufferSize);
      if |more.held| != |cut.held| {
        AppendNext(S, cut, more, bufferSize);
        ProcessKeeps(S, more, bufferSize);
      }
    }
  }

  /** The packet carries the stream's own bytes. */
  ghost predicate CutFrom(S: seq<byte>, p: Packet, bufferSize: nat) {
    p.start + |p.data| <= |S| && p.data == S[p.start..p.start + |p.data|] && |p.data| <= MaxPayload(bufferSize)
  }

  /** A caller can check this before the call: an in-order segment ends at or before the front of the list,
      and an overlapping duplicate ends inside the front run or at a byte that is held already. */
  predicate InScope(f: Flow, p: Packet) {
    var newEnd := p.start + |p.data|;
    f.held == [] || newEnd <= f.expected || p.start > f.expected ||
    if p.start == f.expected then newEnd <= f.held[0].begin
    else newEnd < f.held[0].Limit() || ByteAt(f.held, newEnd).Some?
  }

  /** The byte of memory behind an overlapping duplicate happens to be the stream's. */
  predicate LuckyByte(S: seq<byte>, f: Flow, p: Packet) {
    var newEnd := p.start + |p.data|;
    p.start < f.expected && newEnd < |S| && S[newEnd] == p.after
  }

  lemma {:induction false} FillKeepsRunsSmall(held: seq<Segment>, s: nat, data: seq<byte>, bufferSize: nat)
    requires SmallRuns(held, bufferSize) && |data| <= MaxPayload(bufferSize)
    ensures SmallRuns(Fill(held, s, data), bufferSize)
    decreases |held| + |data|
  {
    if data != [] && held != [] {
      var h := held[0];
      if s < h.begin {
        var k := Min(|data|, h.begin - s);
        FillKeepsRunsSmall(held, s + k, data[k..], bufferSize);
      } else if s < h.Limit() {
        var k := Min(|data|, h.Limit() - s);
        FillKeepsRunsSmall(held, s + k, data[k..], bufferSize);
      } else {
        FillKeepsRunsSmall(held[1..], s, data, bufferSize);
      }
    }
  }

  /** Filling with bytes of the stream: the list stays the stream's and holds the new bytes too. */
  lemma FillAgrees(S: seq<byte>, lo: nat, held: seq<Segment>, s: nat, data: seq<byte>)
    requires WellFormed(held, lo) && Agrees(S, held)
    requires forall i: nat :: i < |data| && ByteAt(held, s + i) == None ==> s + i < |S| && data[i] == S[s + i]
    ensures Agrees(S, Fill(held, s, data))
    ensures forall q: nat :: ByteAt(held, q).Some? || s <= q < s + |data| ==> ByteAt(Fill(held, s, data), q).Some?
  {
    forall q: nat
      ensures ByteAt(Fill(held, s, data), q) == Overlaid(held, s, data, q)
    {
      FillByteMap(held, lo, s, data, q);
    }
    forall q: nat | ByteAt(Fill(held, s, data), q).Some?
      ensures q < |S| && ByteAt(Fill(held, s, data), q).value == S[q]
    {
      if ByteAt(held, q) == None {
        var i: nat := q - s;
        assert s + i == q;
      }
    }
  }

  predicate Carries(p: Packet, q: nat) { p.start <= q < p.start + |p.data| }

  ghost predicate Delivered(p: Packet, f: Flow) {
    forall q: nat :: Carries(p, q) ==> Has(f, q)
  }

  /** AdjustSequence, early segment: it goes on the list whole. */
  lemma AdjustEarly(S: seq<byte>, f: Flow, p: Packet, bufferSize: nat)
    requires Tracks(S, f, bufferSize) && Settled(f) && !f.fatal && CutFrom(S, p, bufferSize)
    requires p.start > f.expected && p.data != []
    ensures var g := f.(held := Fill(f.held, p.start, p.data));
      Tracks(S, g, bufferSize) && Settled(g) && KeepsAll(f, g) && Delivered(p, g)
  {
    FillWellFormed(f.held, f.expected + 1, p.start, p.data);
    FillAgrees(S, f.expected + 1, f.held, p.start, p.data);
    FillKeepsRunsSmall(f.held, p.start, p.data, bufferSize);
    Lower(Fill(f.held, p.start, p.data), f.expected + 1, f.expected);
  }

  lemma Lower(segs: seq<Segment>, lo: nat, lo': nat)
    requires WellFormed(segs, lo) && lo' <= lo
    ensures WellFormed(segs, lo')
  {
  }

  /** What AdjustSequence owes when it passes bytes on: they are the stream's next bytes, the list is still
      the stream's and not behind `expected`, and nothing of the old state or the packet is lost. */
  ghost predicate Advances(S: seq<byte>, f: Flow, p: Packet, g: Flow, data: seq<byte>, bufferSize: nat) {
    && ListOk(S, g, bufferSize) && f.expected <= g.expected && data == S[f.expected..g.expected]
    && g == f.(expected := g.expected, held := g.held)
    && KeepsAll(f, g) && Delivered(p, g)
  }

  /** AdjustSequence, in-order segment that ends at or before the front of the list. */
  lemma AdjustInOrder(S: seq<byte>, f: Flow, p: Packet, bufferSize: nat)
    requires Tracks(S, f, bufferSize) && CutFrom(S, p, bufferSize) && InScope(f, p) && p.start == f.expected
    ensures Advances(S, f, p, f.(expected := f.expected + |p.data|), p.data, bufferSize)
  {
    if p.data == [] { assert f.(expected := f.expected + |p.data|) == f; }
  }

  /** The overhang of an overlapping duplicate within scope: the list stays the stream's and keeps its front. */
  lemma OverhangAgrees(S: seq<byte>, f: Flow, unseen: seq<byte>, after: byte, bufferSize: nat)
    requires Tracks(S, f, bufferSize) && Settled(f) && !f.fatal && |unseen| <= MaxPayload(bufferSize) && f.held != []
    requires var newEnd := f.expected + |unseen|;
      && newEnd <= |S| && unseen == S[f.expected..newEnd]
      && newEnd >= f.held[0].Limit() && (ByteAt(f.held, newEnd).Some? || (newEnd < |S| && S[newEnd] == after))
    ensures var g := f.(held := Overhang(f.held, f.expected, unseen, after));
      && WellFormed(g.held, f.expected + 1) && Agrees(S, g.held) && SmallRuns(g.held, bufferSize) && KeepsAll(f, g)
      && g.held != [] && g.held[0] == f.held[0]
      && forall q: nat :: f.held[0].Limit() <= q <= f.expected + |unseen| ==> ByteAt(g.held, q).Some?
  {
    var front := f.held[0];
    var extra := unseen[front.Limit() - f.expected..] + [after];
    FillWellFormed(f.held, f.expected + 1, front.Limit(), extra);
    FillAgrees(S, f.expected + 1, f.held, front.Limit(), extra);
    FillKeepsRunsSmall(f.held, front.Limit(), extra, bufferSize);
    FillStartsAtFront(f.held, front.Limit(), extra);
  }

  /** The bytes in front of the list are passed on, the others are on it. */
  lemma OverlapDelivers(S: seq<byte>, f: Flow, p: Packet, unseen: seq<byte>, held: seq<Segment>, bufferSize: nat)
    requires ListOk(S, f, bufferSize) && f.held != [] && held != [] && held[0] == f.held[0]
    requires p.start < f.expected < p.start + |p.data| <= |S|
    requires f.expected + |unseen| == p.start + |p.data| && unseen == S[f.expected..f.expected + |unseen|]
    requires WellFormed(held, f.expected) && Agrees(S, held) && SmallRuns(held, bufferSize) && KeepsAll(f, f.(held := held))
    requires forall q: nat :: held[0].Limit() <= q < f.expected + |unseen| ==> ByteAt(held, q).Some?
    ensures var data := Trimmed(f.held, f.expected, unseen);
      Advances(S, f, p, f.(expected := f.expected + |data|, held := held), data, bufferSize)
  {
    var data := Trimmed(f.held, f.expected, unseen);
    var g := f.(expected := f.expected + |data|, held := held);
    FrontRunHeld(held);
    forall q: nat | Has(f, q) ensures Has(g, q) { assert Has(f.(held := held), q); }
    forall q: nat | Carries(p, q) ensures Has(g, q) {
      if q >= g.expected { assert held[0].begin <= q; }
    }
  }

  /** AdjustSequence, duplicate that overlaps what is expected next. */
  lemma AdjustOverlap(S: seq<byte>, f: Flow, p: Packet, bufferSize: nat)
    requires Tracks(S, f, bufferSize) && Settled(f) && !f.fatal && CutFrom(S, p, bufferSize)
    requires InScope(f, p) || LuckyByte(S, f, p)
    requires p.start < f.expected < p.start + |p.data|
    ensures var (g, verdict) := Adjust(f, p);
      && verdict.Continue? && verdict.data != [] && Advances(S, f, p, g, verdict.data, bufferSize)
      && (!InScope(f, p) ==> ByteAt(g.held, p.start + |p.data|).Some?)
  {
    var unseen := p.data[f.expected - p.start..];
    var newEnd := f.expected + |unseen|;
    assert unseen == S[f.expected..newEnd];
    if f.held != [] { OverlapHeld(S, f, p, unseen, bufferSize); }
  }

  lemma OverlapHeld(S: seq<byte>, f: Flow, p: Packet, unseen: seq<byte>, bufferSize: nat)
    requires Tracks(S, f, bufferSize) && Settled(f) && !f.fatal && CutFrom(S, p, bufferSize) && f.held != []
    requires InScope(f, p) || LuckyByte(S, f, p)
    requires p.start < f.expected < p.start + |p.data| && unseen == p.data[f.expected - p.start..]
    requires unseen == S[f.expected..f.expected + |unseen|]
    ensures var data, held := Trimmed(f.held, f.expected, unseen), Overhang(f.held, f.expected, unseen, p.after);
      && Advances(S, f, p, f.(expected := f.expected + |data|, held := held), data, bufferSize)
      && (!InScope(f, p) ==> ByteAt(held, p.start + |p.data|).Some?)
  {
    var held := Overhang(f.held, f.expected, unseen, p.after);
    if f.expected + |unseen| >= f.held[0].Limit() { OverhangAgrees(S, f, unseen, p.after, bufferSize); }
    OverlapDelivers(S, f, p, unseen, held, bufferSize);
  }

  lemma {:induction false} FillStartsAtFront(held: seq<Segment>, s: nat, data: seq<byte>)
    requires held != [] && held[0].begin <= s
    ensures Fill(held, s, data) != [] && Fill(held, s, data)[0] == held[0]
    decreases |data|
  {
    if data != [] && s < held[0].Limit() {
      var k := Min(|data|, held[0].Limit() - s);
      FillStartsAtFront(held, s + k, data[k..]);
    }
  }

  lemma FrontRunHeld(held: seq<Segment>)
    requires held != []
    ensures forall q: nat :: held[0].begin <= q < held[0].Limit() ==> ByteAt(held, q).Some?
  {
  }

  /** AdjustSequence, all branches. */
  lemma AdjustKeeps(S: seq<byte>, f: Flow, p: Packet, bufferSize: nat)
    requires Tracks(S, f, bufferSize) && Settled(f) && !f.fatal && CutFrom(S, p, bufferSize)
    requires InScope(f, p) || LuckyByte(S, f, p)
    ensures var (g, verdict) := Adjust(f, p);
      if verdict.Stop? then Tracks(S, g, bufferSize) && Settled(g) && f.expected == g.expected && KeepsAll(f, g) && Delivered(p, g)
      else Advances(S, f, p, g, verdict.data, bufferSize) && (verdict.data == [] ==> g == f)
    ensures !InScope(f, p) ==> Adjust(f, p).1.Continue? && Adjust(f, p).1.data != [] && Has(Adjust(f, p).0, p.start + |p.data|)
  {
    if p.start < f.expected {
      if p.start + |p.data| > f.expected { AdjustOverlap(S, f, p, bufferSize); }
    } else if p.start == f.expected {
      AdjustInOrder(S, f, p, bufferSize);
    } else if p.data != [] {
      AdjustEarly(S, f, p, bufferSize);
    } else {
      assert f.(expected := f.expected + |p.data|) == f;
    }
  }

  /** One packet within scope keeps everything: the records handed out and the leftover are the stream up to
      `expected`, parsed at once; the list is the stream's and settled; and no byte ever seen is lost. */
  lemma DecodeKeeps(S: seq<byte>, f: Flow, p: Packet, bufferSize: nat)
    requires Tracks(S, f, bufferSize) && Settled(f) && CutFrom(S, p, bufferSize) && bufferSize >= MAX_INPUT_SZ
    requires f.fatal || InScope(f, p) || LuckyByte(S, f, p)
    ensures var g := Decode(f, p, bufferSize);
      && Tracks(S, g, bufferSize) && Settled(g) && f.expected <= g.expected && KeepsAll(f, g)
      && (f.fatal || (Delivered(p, g) && (!InScope(f, p) ==> Has(g, p.start + |p.data|))))
  {
    if !f.fatal {
      AdjustKeeps(S, f, p, bufferSize);
      var (g, verdict) := Adjust(f, p);
      if verdict.Continue? && verdict.data != [] {
        var pending := g.(buffer := g.buffer + verdict.data);
        AppendNext(S, f, pending, bufferSize);
        ProcessKeeps(S, pending, bufferSize);
        assert KeepsAll(g, pending) && KeepsAll(f, pending) && Delivered(p, pending);
      }
    }
  }

  /** InScope is exact. For a segment cut from the stream, AdjustSequence leaves a list that is the stream's and
      not behind `expected`, whatever the byte of memory after the segment is, if and only if InScope holds. */
  lemma ScopeIsExact(S: seq<byte>, f: Flow, p: Packet, bufferSize: nat)
    requires Tracks(S, f, bufferSize) && Settled(f) && !f.fatal && CutFrom(S, p, bufferSize)
    ensures InScope(f, p) <==>
            forall after: byte :: ListOk(S, Adjust(f, p.(after := after)).0, bufferSize)
  {
    if InScope(f, p) {
      forall after: byte
        ensures ListOk(S, Adjust(f, p.(after := after)).0, bufferSize)
      {
        AdjustKeeps(S, f, p.(after := after), bufferSize);
      }
    } else if p.start < f.expected {
      var after := ForeignByte(S, f, p, bufferSize);
      assert !ListOk(S, Adjust(f, p.(after := after)).0, bufferSize);
    } else {
      assert !ListOk(S, Adjust(f, p.(after := p.after)).0, bufferSize);
    }
  }

  /** An overlapping duplicate out of scope puts the byte behind it on the list, which need not be the stream's. */
  lemma ForeignByte(S: seq<byte>, f: Flow, p: Packet, bufferSize: nat) returns (after: byte)
    requires Tracks(S, f, bufferSize) && Settled(f) && !f.fatal && CutFrom(S, p, bufferSize)
    requires !InScope(f, p) && p.start < f.expected
    ensures Defined(f, p.(after := after)) && !ListOk(S, Adjust(f, p.(after := after)).0, bufferSize)
  {
    var newEnd, front := p.start + |p.data|, f.held[0];
    after := if newEnd < |S| && S[newEnd] == 0 then 1 else 0;
    var g := Adjust(f, p.(after := after)).0;
    var extra := p.data[front.Limit() - p.start..] + [after];
    assert p.data[f.expected - p.start..][front.Limit() - f.expected..] == p.data[front.Limit() - p.start..];
    FillByteMap(f.held, f.expected, front.Limit(), extra, newEnd);
    assert g.held == Fill(f.held, front.Limit(), extra);
    assert ByteAt(g.held, newEnd) == Some(after);
    assert !Agrees(S, g.held);
  }

  /** The room that one more segment needs is always there, so the input buffer never has to grow. */
  lemma RoomForNext(S: seq<byte>, f: Flow, p: Packet, bufferSize: nat)
    requires Tracks(S, f, bufferSize) && CutFrom(S, p, bufferSize)
    ensures FrontAhead(f) && p.start + |p.data| < WORD32_LIMIT && |f.buffer| + |p.data| <= bufferSize
  {
    LeftoverIsIncomplete(S[1..f.expected]);
  }

  // ---------------------------------------------------------------- whole runs

  function Run(f: Flow, packets: seq<Packet>, bufferSize: nat): Flow
    requires RunDefined(f, packets, bufferSize)
    decreases |packets|
  {
    if packets == [] then f else Run(Decode(f, packets[0], bufferSize), packets[1..], bufferSize)
  }

  predicate RunDefined(f: Flow, packets: seq<Packet>, bufferSize: nat)
    decreases |packets|
  {
    packets == [] ||
    ((f.fatal || Defined(f, packets[0])) && RunDefined(Decode(f, packets[0], bufferSize), packets[1..], bufferSize))
  }

  /** Every packet of the run is within scope in the state that it meets. */
  predicate RunInScope(f: Flow, packets: seq<Packet>, bufferSize: nat): (r: bool)
    ensures r ==> RunDefined(f, packets, bufferSize)
    decreases |packets|
  {
    packets == [] ||
    ((f.fatal || (Defined(f, packets[0]) && InScope(f, packets[0]))) &&
     RunInScope(Decode(f, packets[0], bufferSize), packets[1..], bufferSize))
  }

  lemma {:induction false} RunKeeps(S: seq<byte>, f: Flow, packets: seq<Packet>, bufferSize: nat)
    requires Tracks(S, f, bufferSize) && Settled(f) && RunInScope(f, packets, bufferSize) && bufferSize >= MAX_INPUT_SZ
    requires forall p :: p in packets ==> CutFrom(S, p, bufferSize)
    ensures var g := Run(f, packets, bufferSize);
      && Tracks(S, g, bufferSize) && Settled(g) && KeepsAll(f, g)
      && (g.fatal || forall p :: p in packets ==> Delivered(p, g))
    decreases |packets|
  {
    if packets != [] {
      var p := packets[0];
      assert p in packets;
      var next := Decode(f, p, bufferSize);
      DecodeKeeps(S, f, p, bufferSize);
      RunKeeps(S, next, packets[1..], bufferSize);
      if next.fatal { FatalStays(next, packets[1..], bufferSize); }
      var g := Run(f, packets, bufferSize);
      assert KeepsAll(next, g);
      assert Delivered(p, next) ==> Delivered(p, g);
    }
  }

  lemma {:induction false} FatalStays(f: Flow, packets: seq<Packet>, bufferSize: nat)
    requires RunInScope(f, packets, bufferSize) && f.fatal
    ensures Run(f, packets, bufferSize) == f
    decreases |packets|
  {
    if packets != [] { FatalStays(f, packets[1..], bufferSize); }
  }

  /** Safety over every run: whatever order the segments of S arrive in, with duplicates and overlaps, the records
      handed out and the leftover are those of the prefix of S up to `expected`; the list starts strictly later. */
  lemma RunIsSafe(S: seq<byte>, packets: seq<Packet>, bufferSize: nat)
    requires 1 <= |S| < WORD32_LIMIT && bufferSize >= MAX_INPUT_SZ
    requires RunInScope(INITIAL, packets, bufferSize) && forall p :: p in packets ==> CutFrom(S, p, bufferSize)
    ensures var g := Run(INITIAL, packets, bufferSize);
      && 1 <= g.expected <= |S|
      && Framing(g.records, g.buffer, g.fatal) == Frame(S[1..g.expected])
      && (g.fatal || g.held == [] || g.expected < g.held[0].begin)
  {
    InitialTracks(S, bufferSize);
    RunKeeps(S, INITIAL, packets, bufferSize);
  }

  lemma InitialTracks(S: seq<byte>, bufferSize: nat)
    requires 1 <= |S| < WORD32_LIMIT
    ensures Tracks(S, INITIAL, bufferSize) && Settled(INITIAL)
  {
    assert S[1..1] == [];
  }

  ghost predicate Arrived(packets: seq<Packet>, q: nat) { exists p :: p in packets && Carries(p, q) }

  /** Completeness: once every byte of S has arrived in some segment, everything has been handed out. */
  lemma RunIsComplete(S: seq<byte>, packets: seq<Packet>, bufferSize: nat)
    requires 1 <= |S| < WORD32_LIMIT && bufferSize >= MAX_INPUT_SZ
    requires RunInScope(INITIAL, packets, bufferSize) && forall p :: p in packets ==> CutFrom(S, p, bufferSize)
    requires forall q: nat :: 1 <= q < |S| ==> Arrived(packets, q)
    ensures var g := Run(INITIAL, packets, bufferSize);
      Framing(g.records, g.buffer, g.fatal) == Frame(S[1..])
  {
    var g := Run(INITIAL, packets, bufferSize);
    InitialTracks(S, bufferSize);
    RunKeeps(S, INITIAL, packets, bufferSize);
    if g.fatal {
      FrameIsChunkingIndependent(S[1..g.expected], S[g.expected..]);
      assert S[1..g.expected] + S[g.expected..] == S[1..];
    } else if g.expected < |S| {
      assert Arrived(packets, g.expected);
      var p :| p in packets && Carries(p, g.expected);
      assert Has(g, g.expected);
      BelowIsNone(g.held, g.expected + 1, g.expected);
      assert false;
    } else {
      assert S[1..g.expected] == S[1..];
    }
  }

  /** So a stream of records of known types, spelled as the protocol says, is handed out record for record once every
      byte of it has arrived. */
  lemma RunDeliversRecords(rs: seq<Plaintext>, packets: seq<Packet>, bufferSize: nat)
    requires AllAccepted(rs) && 1 + |AllSpelled(rs)| < WORD32_LIMIT && bufferSize >= MAX_INPUT_SZ
    requires var S := [0] + AllSpelled(rs);
      && RunInScope(INITIAL, packets, bufferSize) && (forall p :: p in packets ==> CutFrom(S, p, bufferSize))
      && forall q: nat :: 1 <= q < |S| ==> Arrived(packets, q)
    ensures var g := Run(INITIAL, packets, bufferSize); Delivers(g.records, rs) && g.buffer == [] && !g.fatal
  {
    var S: seq<byte> := [0] + AllSpelled(rs);
    RunIsComplete(S, packets, bufferSize);
    SpelledFrame(rs, []);
    AsRecordsDeliver(rs);
    assert S[1..] == AllSpelled(rs) + [] && AsRecords(rs) + [] == AsRecords(rs);
  }

  // ---------------------------------------------------------------- out of scope

  /** The front of the list has been overtaken. */
  predicate Stale(f: Flow) { f.held != [] && f.held[0].begin < f.expected }

  lemma StaleDecode(f: Flow, p: Packet, bufferSize: nat)
    requires Stale(f) && !f.fatal && Defined(f, p)
    ensures var g := Decode(f, p, bufferSize);
      && Stale(g) && g.held[0] == f.held[0]
      && g.expected == f.expected + (if p.start == f.expected then |p.data| else 0)
      && (p.start != f.expected ==> g.records == f.records && g.buffer == f.buffer && !g.fatal)
  {
    if p.start > f.expected && p.data != [] { FillStartsAtFront(f.held, p.start, p.data); }
  }

  /** From then on nothing on the list is ever used: every byte that is passed on has to arrive again, in order. */
  lemma {:induction false} StaleForEver(f: Flow, packets: seq<Packet>, bufferSize: nat)
    requires Stale(f) && RunDefined(f, packets, bufferSize)
    ensures var g := Run(f, packets, bufferSize);
      && Stale(g) && g.held[0] == f.held[0] && f.expected <= g.expected
      && forall q: nat :: f.expected <= q < g.expected ==> Arrived(packets, q)
    decreases |packets|
  {
    if packets != [] {
      var p, rest := packets[0], packets[1..];
      var next := Decode(f, p, bufferSize);
      if !f.fatal { StaleDecode(f, p, bufferSize); }
      StaleForEver(next, rest, bufferSize);
      forall q: nat | f.expected <= q < Run(f, packets, bufferSize).expected ensures Arrived(packets, q) {
        if q < next.expected {
          assert p in packets && Carries(p, q);
        } else {
          assert Arrived(rest, q);
          var r :| r in rest && Carries(r, q);
          assert r in packets;
        }
      }
    }
  }

  /** An in-order segment out of scope overtakes the front of the list. */
  lemma OverrunIsStale(S: seq<byte>, f: Flow, p: Packet, bufferSize: nat)
    requires Tracks(S, f, bufferSize) && Settled(f) && !f.fatal && CutFrom(S, p, bufferSize)
    requires !InScope(f, p) && p.start == f.expected
    ensures Defined(f, p)
    ensures var g := Decode(f, p, bufferSize); g.held == f.held && g.expected == p.start + |p.data| && Stale(g)
  {
  }

  /** The stream with the byte of memory behind an overlapping duplicate in the place of its own. */
  function Forged(S: seq<byte>, p: Packet): seq<byte>
    requires p.start + |p.data| <= |S|
  {
    S[..p.start + |p.data|] + [p.after] + if p.start + |p.data| < |S| then S[p.start + |p.data| + 1..] else []
  }

  lemma ForgedTracks(S: seq<byte>, f: Flow, p: Packet, bufferSize: nat)
    requires Tracks(S, f, bufferSize) && Settled(f) && !f.fatal && CutFrom(S, p, bufferSize) && |S| + 1 < WORD32_LIMIT
    requires !InScope(f, p) && p.start < f.expected
    ensures Tracks(Forged(S, p), f, bufferSize) && CutFrom(Forged(S, p), p, bufferSize) && LuckyByte(Forged(S, p), f, p)
  {
    var T, newEnd := Forged(S, p), p.start + |p.data|;
    assert forall q: nat :: q < |S| && q != newEnd ==> T[q] == S[q];
    assert T[1..f.expected] == S[1..f.expected];
    assert T[p.start..newEnd] == S[p.start..newEnd];
  }

  /** An overlapping duplicate out of scope passes the byte of memory behind it on: what is handed out afterwards is
      another stream, which differs from S at that byte, and the byte is part of it. */
  lemma OverlapForges(S: seq<byte>, f: Flow, p: Packet, bufferSize: nat)
    requires Tracks(S, f, bufferSize) && Settled(f) && !f.fatal && CutFrom(S, p, bufferSize) && |S| + 1 < WORD32_LIMIT
    requires !InScope(f, p) && p.start < f.expected && bufferSize >= MAX_INPUT_SZ
    ensures Defined(f, p)
    ensures var g := Decode(f, p, bufferSize);
      Tracks(Forged(S, p), g, bufferSize) && Settled(g) && (g.fatal || g.expected > p.start + |p.data|)
  {
    ForgedTracks(S, f, p, bufferSize);
    DecodeKeeps(Forged(S, p), f, p, bufferSize);
    var g := Decode(f, p, bufferSize);
    if !g.fatal {
      BelowIsNone(g.held, g.expected + 1, g.expected);
      assert !Has(g, g.expected) && !Carries(p, g.expected);
    }
  }

  // ---------------------------------------------------------------- a run that loses a byte

  const SHORT: seq<byte> := [0, 22, 3, 1, 0, 1, 65]

  /** Byte 3 comes early, then bytes 1 to 4 in order, byte 6 early, and byte 5 in order. */
  const LATE := [Packet(3, [1], 0), Packet(1, [22, 3, 1, 0], 0), Packet(6, [65], 0), Packet(5, [1], 0)]

  const FRONT := Segment(3, [1])

  lemma LateSteps(bufferSize: nat)
    ensures Decode(INITIAL, LATE[0], bufferSize) == INITIAL.(held := [FRONT])
    ensures Decode(INITIAL.(held := [FRONT]), LATE[1], bufferSize) == Flow(5, [FRONT], [22, 3, 1, 0], [], false)
  {
    var data := LATE[1].data;
    assert Frame(data) == Framing([], data, false);
    assert [] + data == data;
  }

  lemma ThirdStep(bufferSize: nat)
    ensures Decode(Flow(5, [FRONT], [22, 3, 1, 0], [], false), LATE[2], bufferSize)
         == Flow(5, [FRONT, Segment(6, [65])], [22, 3, 1, 0], [], false)
  {
    var last: seq<byte> := [65];
    assert [FRONT][1..] == [] && Fill([], 6, last) == [Segment(6, last)];
    assert Fill([FRONT], 6, last) == [FRONT] + Fill([FRONT][1..], 6, last);
  }

  lemma FourthStep(bufferSize: nat)
    ensures Decode(Flow(5, [FRONT, Segment(6, [65])], [22, 3, 1, 0], [], false), LATE[3], bufferSize)
         == Flow(6, [FRONT, Segment(6, [65])], [22, 3, 1, 0, 1], [], false)
  {
    var header: seq<byte> := [22, 3, 1, 0, 1];
    assert [22, 3, 1, 0] + [1] == header && BodySize(header) == 1;
    assert Frame(header) == Framing([], header, false);
  }

  lemma RunStep(f: Flow, packets: seq<Packet>, bufferSize: nat, next: Flow)
    requires packets != [] && (f.fatal || Defined(f, packets[0])) && Decode(f, packets[0], bufferSize) == next
    requires RunDefined(next, packets[1..], bufferSize)
    ensures RunDefined(f, packets, bufferSize) && Run(f, packets, bufferSize) == Run(next, packets[1..], bufferSize)
  {
  }

  lemma EveryByteComes(bufferSize: nat)
    requires bufferSize >= MAX_INPUT_SZ
    ensures forall p :: p in LATE ==> CutFrom(SHORT, p, bufferSize)
    ensures forall q: nat :: 1 <= q < |SHORT| ==> Arrived(LATE, q)
  {
    forall q: nat | 1 <= q < |SHORT| ensures Arrived(LATE, q) {
      var k := if q == 3 then 0 else if q < 5 then 1 else if q == 6 then 2 else 3;
      assert LATE[k] in LATE && Carries(LATE[k], q);
    }
    forall p | p in LATE ensures CutFrom(SHORT, p, bufferSize) {
      assert p == LATE[0] || p == LATE[1] || p == LATE[2] || p == LATE[3];
    }
  }

  lemma OneRecord()
    ensures Frame(SHORT[1..]) == Framing([Record([22, 3, 1, 0, 1], [65])], [], false)
  {
    var b := SHORT[1..];
    assert b == [22, 3, 1, 0, 1, 65] && BodySize(b) == 1;
    assert FirstRecord(b) == Record([22, 3, 1, 0, 1], [65]) && b[6..] == [];
    assert Frame([]) == Framing([], [], false);
  }

  /** Every byte of the stream arrives, and its one record is never handed out: byte 6 stays behind the stale front. */
  lemma ByteLost(bufferSize: nat)
    requires bufferSize >= MAX_INPUT_SZ
    ensures forall p :: p in LATE ==> CutFrom(SHORT, p, bufferSize)
    ensures forall q: nat :: 1 <= q < |SHORT| ==> Arrived(LATE, q)
    ensures RunDefined(INITIAL, LATE, bufferSize)
    ensures Run(INITIAL, LATE, bufferSize) == Flow(6, [FRONT, Segment(6, [65])], [22, 3, 1, 0, 1], [], false)
    ensures Frame(SHORT[1..]).records == [Record([22, 3, 1, 0, 1], [65])]
  {
    EveryByteComes(bufferSize);
    OneRecord();
    LateSteps(bufferSize);
    ThirdStep(bufferSize);
    FourthStep(bufferSize);
    var f1, f2 := INITIAL.(held := [FRONT]), Flow(5, [FRONT], [22, 3, 1, 0], [], false);
    var f3 := f2.(held := [FRONT, Segment(6, [65])]);
    var f4 := f3.(expected := 6, buffer := [22, 3, 1, 0, 1]);
    assert LATE[3..][1..] == [] && LATE[2..][1..] == LATE[3..] && LATE[1..][1..] == LATE[2..];
    assert RunDefined(f4, [], bufferSize) && Run(f4, [], bufferSize) == f4;
    RunStep(f3, LATE[3..], bufferSize, f4);
    RunStep(f2, LATE[2..], bufferSize, f3);
    RunStep(f1, LATE[1..], bufferSize, f2);
    RunStep(INITIAL, LATE, bufferSize, f1);
  }
}
