/** The sniffer's out-of-order store: a sorted, singly linked list of disjoint
    runs of stream bytes (sniffer.c, PacketBuffer / CreateBuffer / AddToReassembly). */
module Reassembly {

  type byte = x: int | 0 <= x < 0x100

  /** Relative sequence numbers are word32 values. */
  const WORD32_LIMIT := 0x1_0000_0000

  /** A non-empty run of bytes that starts at relative sequence number `begin`. */
  datatype Segment = Segment(begin: nat, data: seq<byte>) {
    /** One past the last sequence number of the run (the source stores Limit() - 1 as `end`). */
    function Limit(): nat { begin + |data| }
  }

  function Min(a: nat, b: nat): nat { if a > b then b else a }

  /** Sorted by position from `lo` on, pairwise disjoint, no empty run, inside the word32 range. */
  ghost predicate WellFormed(segs: seq<Segment>, lo: nat) {
    segs == [] ||
    (lo <= segs[0].begin && segs[0].data != [] && segs[0].Limit() <= WORD32_LIMIT &&
     WellFormed(segs[1..], segs[0].Limit()))
  }

  /** What WellFormed means for any two runs of the list. */
  lemma {:induction false} WellFormedPairwise(segs: seq<Segment>, lo: nat, i: nat, j: nat)
    requires WellFormed(segs, lo) && i < j < |segs|
    ensures lo <= segs[i].begin < segs[i].Limit() <= segs[j].begin < segs[j].Limit() <= WORD32_LIMIT
  {
    if i == 0 {
      if j > 1 { WellFormedPairwise(segs[1..], segs[0].Limit(), 0, j - 1); }
    } else {
      WellFormedPairwise(segs[1..], segs[0].Limit(), i - 1, j - 1);
    }
  }

  datatype Option<+T> = None | Some(value: T)

  /** The list read as a partial map from sequence numbers to bytes. */
  function ByteAt(segs: seq<Segment>, q: nat): Option<byte> {
    if segs == [] then None
    else if segs[0].begin <= q < segs[0].Limit() then Some(segs[0].data[q - segs[0].begin])
    else ByteAt(segs[1..], q)
  }

  /** The list that holds every byte of `segs` and, in the gaps only, the bytes of `data` placed at `s`. */
  function Fill(segs: seq<Segment>, s: nat, data: seq<byte>): seq<Segment>
    decreases |segs| + |data|
  {
    if data == [] then segs
    else if segs == [] then [Segment(s, data)]
    else
      var h := segs[0];
      if s < h.begin then
        var k := Min(|data|, h.begin - s);
        [Segment(s, data[..k])] + Fill(segs, s + k, data[k..])
      else if s < h.Limit() then
        var k := Min(|data|, h.Limit() - s);
        Fill(segs, s + k, data[k..])
      else [h] + Fill(segs[1..], s, data)
  }

  /** Filling keeps the list sorted, disjoint and free of empty runs. */
  lemma {:induction false} FillWellFormed(segs: seq<Segment>, lo: nat, s: nat, data: seq<byte>)
    requires WellFormed(segs, lo) && lo <= s && s + |data| <= WORD32_LIMIT
    ensures WellFormed(Fill(segs, s, data), lo)
    decreases |segs| + |data|
  {
    if data != [] && segs != [] {
      var h := segs[0];
      if s < h.begin {
        var k := Min(|data|, h.begin - s);
        FillWellFormed(segs, s + k, s + k, data[k..]);
      } else if s < h.Limit() {
        var k := Min(|data|, h.Limit() - s);
        FillWellFormed(segs, lo, s + k, data[k..]);
      } else {
        FillWellFormed(segs[1..], h.Limit(), s, data);
      }
    }
  }

  /** The byte expected at `q` once `data` is laid under `segs` at `s`: an old byte wins over a new one. */
  function Overlaid(segs: seq<Segment>, s: nat, data: seq<byte>, q: nat): Option<byte> {
    if ByteAt(segs, q).Some? then ByteAt(segs, q)
    else if s <= q < s + |data| then Some(data[q - s])
    else None
  }

  lemma OverlaidSplit(segs: seq<Segment>, s: nat, data: seq<byte>, k: nat, q: nat)
    requires k <= |data|
    ensures Overlaid(segs, s, data, q) ==
            if s <= q < s + k && ByteAt(segs, q) == None then Some(data[q - s])
            else Overlaid(segs, s + k, data[k..], q)
  {
  }

  /** A new run of k bytes in front of the list's first run. */
  lemma BeforeFront(segs: seq<Segment>, s: nat, data: seq<byte>, k: nat, rest: seq<Segment>, q: nat)
    requires WellFormed(segs, s + k) && k <= |data|
    requires ByteAt(rest, q) == Overlaid(segs, s + k, data[k..], q)
    ensures ByteAt([Segment(s, data[..k])] + rest, q) == Overlaid(segs, s, data, q)
  {
    OverlaidSplit(segs, s, data, k, q);
    ByteAtCons(Segment(s, data[..k]), rest, q);
    if q < s + k { BelowIsNone(segs, s + k, q); }
  }

  /** k new bytes that the list's first run holds already. */
  lemma InsideFront(segs: seq<Segment>, s: nat, data: seq<byte>, k: nat, q: nat)
    requires segs != [] && segs[0].begin <= s && s + k <= segs[0].Limit() && k <= |data|
    ensures Overlaid(segs, s, data, q) == Overlaid(segs, s + k, data[k..], q)
  {
    OverlaidSplit(segs, s, data, k, q);
  }

  /** The new bytes start past the list's first run. */
  lemma PastFront(segs: seq<Segment>, s: nat, data: seq<byte>, rest: seq<Segment>, q: nat)
    requires segs != [] && segs[0].Limit() <= s
    requires ByteAt(rest, q) == Overlaid(segs[1..], s, data, q)
    ensures ByteAt([segs[0]] + rest, q) == Overlaid(segs, s, data, q)
  {
    ByteAtCons(segs[0], rest, q);
  }

  lemma FillBefore(segs: seq<Segment>, s: nat, data: seq<byte>) returns (k: nat, rest: seq<Segment>)
    requires data != [] && segs != [] && s < segs[0].begin
    ensures 0 < k <= |data| && s + k <= segs[0].begin && rest == Fill(segs, s + k, data[k..])
    ensures Fill(segs, s, data) == [Segment(s, data[..k])] + rest
  {
    k := Min(|data|, segs[0].begin - s);
    rest := Fill(segs, s + k, data[k..]);
  }

  lemma FillInside(segs: seq<Segment>, s: nat, data: seq<byte>) returns (k: nat)
    requires data != [] && segs != [] && segs[0].begin <= s < segs[0].Limit()
    ensures 0 < k <= |data| && s + k <= segs[0].Limit() && Fill(segs, s, data) == Fill(segs, s + k, data[k..])
  {
    k := Min(|data|, segs[0].Limit() - s);
  }

  lemma FillPast(segs: seq<Segment>, s: nat, data: seq<byte>) returns (rest: seq<Segment>)
    requires data != [] && segs != [] && segs[0].begin <= s && segs[0].Limit() <= s
    ensures rest == Fill(segs[1..], s, data) && Fill(segs, s, data) == [segs[0]] + rest
  {
    rest := Fill(segs[1..], s, data);
  }

  /** The byte map after filling: old bytes win, the gaps take the new bytes, nothing else appears. */
  lemma {:induction false} FillByteMap(segs: seq<Segment>, lo: nat, s: nat, data: seq<byte>, q: nat)
    requires WellFormed(segs, lo)
    ensures ByteAt(Fill(segs, s, data), q) == Overlaid(segs, s, data, q)
    decreases |segs| + |data|
  {
    if data == [] {
    } else if segs == [] {
      ByteAtCons(Segment(s, data), [], q);
    } else if s < segs[0].begin {
      var k, rest := FillBefore(segs, s, data);
      FillByteMap(segs, s + k, s + k, data[k..], q);
      BeforeFront(segs, s, data, k, rest, q);
    } else if s < segs[0].Limit() {
      var k := FillInside(segs, s, data);
      FillByteMap(segs, lo, s + k, data[k..], q);
      InsideFront(segs, s, data, k, q);
    } else {
      var rest := FillPast(segs, s, data);
      FillByteMap(segs[1..], segs[0].Limit(), s, data, q);
      PastFront(segs, s, data, rest, q);
    }
  }

  lemma ByteAtCons(h: Segment, rest: seq<Segment>, q: nat)
    ensures ByteAt([h] + rest, q) ==
            if h.begin <= q < h.Limit() then Some(h.data[q - h.begin]) else ByteAt(rest, q)
  {
    assert ([h] + rest)[1..] == rest;
  }

  lemma {:induction false} BelowIsNone(segs: seq<Segment>, lo: nat, q: nat)
    requires WellFormed(segs, lo) && q < lo
    ensures ByteAt(segs, q) == None
  {
    if segs != [] { BelowIsNone(segs[1..], segs[0].Limit(), q); }
  }

  /** Runs before k are settled; `data` at `s` still has to be laid under the runs from k on. */
  ghost predicate Remains(goal: seq<Segment>, segs: seq<Segment>, k: nat, s: nat, data: seq<byte>) {
    k <= |segs| && WellFormed(segs[k..], 0) && goal == segs[..k] + Fill(segs[k..], s, data)
  }

  lemma Weaken(segs: seq<Segment>, lo: nat)
    requires WellFormed(segs, lo)
    ensures WellFormed(segs, 0)
  {
  }

  /** Past the run at k, filling goes on behind it. */
  lemma SkipRun(goal: seq<Segment>, segs: seq<Segment>, k: nat, s: nat, data: seq<byte>)
    requires Remains(goal, segs, k, s, data) && k + 1 < |segs| && segs[k + 1].begin <= s
    ensures Remains(goal, segs, k + 1, s, data)
  {
    assert segs[k..][1..] == segs[k + 1..];
    Weaken(segs[k + 1..], segs[k].Limit());
    assert segs[k..][0] == segs[k] && segs[k + 1..][0] == segs[k + 1];
    assert segs[..k + 1] == segs[..k] + [segs[k]];
    assert segs[k..] == [segs[k]] + segs[k + 1..];
  }

  /** The walk has reached the gap behind the run at k: bytes this run holds are dropped. */
  lemma PastRun(goal: seq<Segment>, segs: seq<Segment>, k: nat, s: nat, data: seq<byte>, s': nat)
    requires Remains(goal, segs, k, s, data) && k < |segs| && segs[k].begin <= s
    requires s' == if s < segs[k].Limit() then Min(s + |data|, segs[k].Limit()) else s
    ensures Remains(goal, segs, k + 1, s', data[s' - s..])
    ensures s' == s + |data| ==> goal == segs
    ensures k + 1 < |segs| ==> segs[k].Limit() <= segs[k + 1].begin
  {
    var tail, data' := segs[k..], data[s' - s..];
    assert tail[1..] == segs[k + 1..];
    Weaken(segs[k + 1..], segs[k].Limit());
    assert segs[..k + 1] == segs[..k] + [segs[k]];
    assert tail == [segs[k]] + segs[k + 1..];
    assert s == s' ==> data' == data;
    assert Fill(tail, s, data) == Fill(tail, s', data');
    assert Fill(tail, s', data') == [segs[k]] + Fill(segs[k + 1..], s', data');
    assert segs == segs[..k] + tail;
  }

  lemma FillNothing(goal: seq<Segment>, segs: seq<Segment>, k: nat, s: nat)
    requires Remains(goal, segs, k, s, [])
    ensures goal == segs
  {
  }

  function InsertAt<T>(s: seq<T>, k: nat, x: T): seq<T>
    requires k <= |s|
  {
    s[..k] + [x] + s[k..]
  }

  /** Inserting a run into the gap at k settles its bytes. */
  lemma FillGap(goal: seq<Segment>, segs: seq<Segment>, k: nat, s: nat, data: seq<byte>, d: nat)
    requires Remains(goal, segs, k, s, data) && 0 < d <= |data|
    requires if k < |segs| then s < segs[k].begin && d == Min(|data|, segs[k].begin - s) else d == |data|
    ensures Remains(goal, InsertAt(segs, k, Segment(s, data[..d])), k + 1, s + d, data[d..])
  {
    var segs' := InsertAt(segs, k, Segment(s, data[..d]));
    assert segs'[k + 1..] == segs[k..];
    assert segs'[..k + 1] == segs[..k] + [Segment(s, data[..d])];
    assert k == |segs| ==> data[..d] == data && segs[k..] == [];
  }

  /** A node of the list; `end` is inclusive, as in the source. Only `next` is ever changed. */
  class PacketBuffer {
    const begin: nat
    const end: nat
    const data: seq<byte>
    var next: PacketBuffer?

    constructor (begin: nat, end: nat, data: seq<byte>)
      ensures this.begin == begin && this.end == end && this.data == data && next == null
    {
      this.begin, this.end, this.data, next := begin, end, data, null;
    }
  }

  /** Following `next` from `front` visits exactly `nodes`. */
  ghost predicate Linked(front: PacketBuffer?, nodes: seq<PacketBuffer>)
    reads nodes
  {
    && front == NodeAt(nodes, 0)
    && (forall i {:trigger nodes[i].next} :: 0 <= i < |nodes| ==> nodes[i].next == NodeAt(nodes, i + 1))
    && Distinct(nodes)
  }

  ghost function NodeAt(nodes: seq<PacketBuffer>, i: nat): PacketBuffer? {
    if i < |nodes| then nodes[i] else null
  }

  ghost predicate Distinct(nodes: seq<PacketBuffer>) {
    forall i, j :: 0 <= i < j < |nodes| ==> nodes[i] != nodes[j]
  }

  /** Every node's inclusive end fits its data. */
  ghost predicate Consistent(nodes: seq<PacketBuffer>) {
    forall n :: n in nodes ==> n.data != [] && n.end == n.begin + |n.data| - 1
  }

  ghost function Segments(nodes: seq<PacketBuffer>): (segs: seq<Segment>)
    ensures |segs| == |nodes|
    ensures forall i :: 0 <= i < |nodes| ==> segs[i] == Segment(nodes[i].begin, nodes[i].data)
  {
    seq(|nodes|, i requires 0 <= i < |nodes| => Segment(nodes[i].begin, nodes[i].data))
  }

  lemma SegmentsOfInsert(nodes: seq<PacketBuffer>, k: nat, add: PacketBuffer)
    requires k <= |nodes|
    ensures Segments(InsertAt(nodes, k, add)) == InsertAt(Segments(nodes), k, Segment(add.begin, add.data))
  {
  }

  lemma InsertedNodes(nodes: seq<PacketBuffer>, k: nat, add: PacketBuffer)
    requires k <= |nodes|
    ensures forall n :: n in InsertAt(nodes, k, add) ==> n in nodes || n == add
    ensures |InsertAt(nodes, k, add)| == |nodes| + 1 && NodeAt(InsertAt(nodes, k, add), k + 1) == NodeAt(nodes, k)
  {
  }

  lemma InsertKeepsDistinct(nodes: seq<PacketBuffer>, k: nat, add: PacketBuffer)
    requires Distinct(nodes) && k <= |nodes| && add !in nodes
    ensures Distinct(InsertAt(nodes, k, add))
  {
  }

  /** CreateBuffer: copies the bytes of begin..end (inclusive) into a fresh node and moves the cursor past it. */
  method CreateBuffer(begin: nat, end: nat, data: seq<byte>) returns (pb: PacketBuffer, newBegin: nat)
    requires begin <= end && end + 1 - begin <= |data|
    ensures fresh(pb) && pb.next == null
    ensures pb.begin == begin && pb.end == end && pb.data == data[..end + 1 - begin]
    ensures newBegin == end + 1
  {
    var added := end - begin + 1;
    pb := new PacketBuffer(begin, end, data[..added]);
    newBegin := pb.end + 1;
  }

  /** One direction's reassembly list. */
  class ReassemblyList {
    var front: PacketBuffer?
    ghost var nodes: seq<PacketBuffer>

    ghost predicate Valid()
      reads this, nodes
    {
      Linked(front, nodes) && Consistent(nodes) && WellFormed(Segments(nodes), 0)
    }

    ghost function Contents(): seq<Segment>
      reads this
    {
      Segments(nodes)
    }

    constructor ()
      ensures Valid() && Contents() == [] && nodes == []
    {
      front, nodes := null, [];
    }

    /** Inserts `add` after nodes[k - 1] by relinking, or in front when k == 0. */
    method LinkBefore(ghost k: nat, prev: PacketBuffer?, add: PacketBuffer)
      requires Linked(front, nodes) && k <= |nodes| && add !in nodes
      requires prev == if k == 0 then null else NodeAt(nodes, k - 1)
      modifies this, add, if prev == null then {} else {prev}
      ensures nodes == InsertAt(old(nodes), k, add)
      ensures Linked(front, nodes)
    {
      InsertKeepsDistinct(nodes, k, add);
      if prev == null {
        add.next := front;
        front := add;
      } else {
        add.next := prev.next;
        prev.next := add;
      }
      nodes := InsertAt(nodes, k, add);
    }

    /** Unlinks the front node (the end of a round of HaveMoreInput). */
    method PopFront()
      requires Valid() && front != null
      modifies this
      ensures Valid() && nodes == old(nodes)[1..]
      ensures Contents() == old(Contents())[1..]
    {
      assert Segments(nodes)[1..] == Segments(nodes[1..]);
      Weaken(Segments(nodes)[1..], Segments(nodes)[0].Limit());
      front := front.next;
      nodes := nodes[1..];
    }

    /** The inner walk: moves on while the next run starts at or before sq. */
    method Advance(curr: PacketBuffer?, prev: PacketBuffer?, sq: nat, ghost c: nat,
                   ghost goal: seq<Segment>, ghost data: seq<byte>)
      returns (curr': PacketBuffer?, prev': PacketBuffer, ghost k: nat)
      requires Linked(front, nodes) && curr == NodeAt(nodes, c) && curr != null && curr.begin <= sq
      requires Remains(goal, Contents(), c, sq, data)
      ensures c <= k < |nodes| && prev' == nodes[k] && curr' == NodeAt(nodes, k + 1)
      ensures prev'.begin <= sq && (curr' == null || sq < curr'.begin)
      ensures Remains(goal, Contents(), k, sq, data)
    {
      curr', prev', k := curr.next, curr, c;
      ghost var segs := Contents();
      while curr' != null && sq >= curr'.begin
        invariant c <= k < |nodes| && prev' == nodes[k] && curr' == NodeAt(nodes, k + 1)
        invariant prev'.begin <= sq && Remains(goal, segs, k, sq, data)
        decreases |nodes| - k
      {
        SkipRun(goal, segs, k, sq, data);
        prev' := curr';
        curr' := curr'.next;
        k := k + 1;
      }
    }

    /** Copies the first `added` bytes of data into a new node and links it between prev and its successor. */
    method InsertRun(ghost k: nat, prev: PacketBuffer?, sq: nat, added: nat, data: seq<byte>,
                     ghost goal: seq<Segment>)
      returns (sq': nat)
      requires Linked(front, nodes) && Consistent(nodes) && k <= |nodes|
      requires prev == if k == 0 then null else NodeAt(nodes, k - 1)
      requires 0 < added <= |data|
      requires Remains(goal, InsertAt(Contents(), k, Segment(sq, data[..added])), k + 1, sq + added, data[added..])
      modifies this, if prev == null then {} else {prev}
      ensures Linked(front, nodes) && Consistent(nodes)
      ensures |nodes| == |old(nodes)| + 1 && NodeAt(nodes, k + 1) == NodeAt(old(nodes), k)
      ensures forall n :: n in nodes ==> n in old(nodes) || fresh(n)
      ensures sq' == sq + added
      ensures Remains(goal, Contents(), k + 1, sq', data[added..])
    {
      var add;
      add, sq' := CreateBuffer(sq, sq + added - 1, data);
      SegmentsOfInsert(nodes, k, add);
      InsertedNodes(nodes, k, add);
      LinkBefore(k, prev, add);
    }

    /** Moves to the next gap at or after sq and drops the bytes that the run before it holds already. */
    method FindGap(curr: PacketBuffer, prev: PacketBuffer?, sq: nat, data: seq<byte>,
                   ghost c: nat, ghost goal: seq<Segment>)
      returns (curr': PacketBuffer?, prev': PacketBuffer, sq': nat, rest: seq<byte>, ghost c': nat)
      requires Linked(front, nodes) && Consistent(nodes) && data != []
      requires curr == NodeAt(nodes, c) && curr.begin <= sq
      requires Remains(goal, Contents(), c, sq, data)
      ensures c < c' <= |nodes| && curr' == NodeAt(nodes, c') && prev' == nodes[c' - 1]
      ensures rest != [] && curr' != null ==> sq' <= curr'.begin
      ensures Remains(goal, Contents(), c', sq', rest)
    {
      ghost var k;
      curr', prev', k := Advance(curr, prev, sq, c, goal, data);
      assert Contents()[k] == Segment(prev'.begin, prev'.data);
      sq' := DropHeld(prev', sq, data);
      c' := k + 1;
      rest := data[sq' - sq..];
      PastRun(goal, Contents(), k, sq, data, sq');
    }

    /** Where the bytes start that the run before the gap does not hold. */
    method DropHeld(prev: PacketBuffer, sq: nat, data: seq<byte>) returns (sq': nat)
      requires data != [] && prev.begin <= sq && prev.data != [] && prev.end == prev.begin + |prev.data| - 1
      ensures var limit := prev.begin + |prev.data|; sq' == if sq < limit then Min(sq + |data|, limit) else sq
    {
      sq' := sq;
      if prev.end >= sq {
        sq' := if sq + |data| - 1 <= prev.end then sq + |data| else prev.end + 1;
      }
    }

    /** One round of the outer loop: finds the next gap and fills it. */
    method FillNextGap(curr: PacketBuffer, prev: PacketBuffer?, sq: nat, data: seq<byte>,
                       ghost c: nat, ghost goal: seq<Segment>)
      returns (curr': PacketBuffer?, prev': PacketBuffer, sq': nat, rest: seq<byte>, ghost c': nat)
      requires Linked(front, nodes) && Consistent(nodes) && data != []
      requires curr == NodeAt(nodes, c) && curr.begin <= sq
      requires Remains(goal, Contents(), c, sq, data)
      modifies this, set n | n in nodes
      ensures Linked(front, nodes) && Consistent(nodes)
      ensures forall n :: n in nodes ==> n in old(nodes) || fresh(n)
      ensures rest != [] ==> curr' != null && curr'.begin <= sq'
      ensures c' <= |nodes| && curr' == NodeAt(nodes, c') && |nodes| - c' < |old(nodes)| - c
      ensures Remains(goal, Contents(), c', sq', rest)
    {
      curr', prev', sq', rest, c' := FindGap(curr, prev, sq, data, c, goal);
      if rest == [] { return; }
      var added := if curr' == null then |rest| else Min(|rest|, curr'.begin - sq');
      if added > 0 {
        FillGap(goal, Contents(), c', sq', rest, added);
        sq' := InsertRun(c', prev', sq', added, rest, goal);
        rest := rest[added..];
        c' := c' + 1;
      }
    }

    /** The outer loop, from the node at c on. */
    method FillGaps(curr0: PacketBuffer?, prev0: PacketBuffer?, startSeq: nat, frame: seq<byte>,
                    ghost c0: nat, ghost goal: seq<Segment>)
      requires Linked(front, nodes) && Consistent(nodes)
      requires curr0 == NodeAt(nodes, c0) && (frame != [] ==> curr0 != null && curr0.begin <= startSeq)
      requires Remains(goal, Contents(), c0, startSeq, frame)
      modifies this, set n | n in nodes
      ensures Linked(front, nodes) && Consistent(nodes) && Contents() == goal
      ensures forall n :: n in nodes ==> n in old(nodes) || fresh(n)
    {
      var curr, prev, rest := curr0, prev0, frame;
      var sq: nat := startSeq;
      ghost var c: nat := c0;
      while rest != []
        invariant Linked(front, nodes) && Consistent(nodes)
        invariant forall n :: n in nodes ==> n in old(nodes) || fresh(n)
        invariant c <= |nodes| && curr == NodeAt(nodes, c)
        invariant rest != [] ==> curr != null && curr.begin <= sq
        invariant Remains(goal, Contents(), c, sq, rest)
        decreases |nodes| - c
      {
        curr, prev, sq, rest, c := FillNextGap(curr, prev, sq, rest, c, goal);
      }
      FillNothing(goal, Contents(), c, sq);
    }

    /** AddToReassembly: walks the list once and copies into it only the bytes it does not hold yet. */
    method Add(startSeq: nat, frame: seq<byte>)
      requires Valid() && frame != [] && startSeq + |frame| <= WORD32_LIMIT
      modifies this, set n | n in nodes
      ensures Valid()
      ensures forall n :: n in nodes ==> n in old(nodes) || fresh(n)
      ensures Contents() == Fill(old(Contents()), startSeq, frame)
    {
      ghost var goal := Fill(Contents(), startSeq, frame);
      FillWellFormed(Contents(), 0, startSeq, frame);
      if front == null || startSeq < front.begin {
        AddBefore(startSeq, frame, goal);
      } else {
        FillGaps(front, front, startSeq, frame, 0, goal);
      }
    }

    /** Before the front: up to the front's begin, or everything when the list is empty; then the rest of the frame. */
    method AddBefore(startSeq: nat, frame: seq<byte>, ghost goal: seq<Segment>)
      requires Valid() && frame != [] && startSeq + |frame| <= WORD32_LIMIT
      requires front == null || startSeq < front.begin
      requires goal == Fill(Contents(), startSeq, frame)
      modifies this, set n | n in nodes
      ensures Linked(front, nodes) && Consistent(nodes) && Contents() == goal
      ensures forall n :: n in nodes ==> n in old(nodes) || fresh(n)
    {
      var curr := front;
      var end := startSeq + |frame| - 1;
      if curr != null && end >= curr.begin { end := curr.begin - 1; }
      var added := end + 1 - startSeq;
      FillGap(goal, Contents(), 0, startSeq, frame, added);
      var sq := InsertRun(0, null, startSeq, added, frame, goal);
      FillGaps(curr, curr, sq, frame[added..], 1, goal);
    }
  }
}
