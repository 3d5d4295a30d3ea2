/** The broadcast filter of nanostack (nanostack/cIPv6.c): a table of the originators heard last, each with the
    sequence number of its last broadcast, replaced round robin. */
module Flooding {
  type Byte = i: int | 0 <= i < 256

  datatype Kind = NONE | SHORT | LONG | OTHER

  type Address = a: seq<Byte> | |a| == 8 witness [0, 0, 0, 0, 0, 0, 0, 0]

  /** flooding_info_t. */
  datatype Slot = Slot(kind: Kind, address: Address, sqn: Byte, hop: Byte)

  /** What check_broadcast_id reads of namomesh_info_t. */
  datatype Packet = Packet(kind: Kind, address: Address, sqn: Byte, hop: Byte)

  /** flooding_table together with flood_indexs. */
  datatype Table = Table(slots: seq<Slot>, count: nat, next: nat)

  function Length(kind: Kind): nat { if kind == SHORT then 2 else 8 }

  /** The comparison of types and the memcmp. */
  predicate Matches(s: Slot, kind: Kind, address: Address) {
    s.kind == kind && s.address[..Length(kind)] == address[..Length(kind)]
  }

  predicate SameOriginator(p: Packet, q: Packet) { p.kind == q.kind && p.address[..Length(p.kind)] == q.address[..Length(q.kind)] }

  /** The first slot that matches, or the number of slots. */
  function Find(slots: seq<Slot>, kind: Kind, address: Address): (i: nat)
    ensures i <= |slots| && (i < |slots| ==> Matches(slots[i], kind, address))
    ensures forall j :: 0 <= j < i ==> !Matches(slots[j], kind, address)
  {
    if slots == [] || Matches(slots[0], kind, address) then 0 else 1 + Find(slots[1..], kind, address)
  }

  /** Only as many address bytes are copied as the type has. */
  function Stored(was: Slot, p: Packet): Slot {
    Slot(p.kind, p.address[..Length(p.kind)] + was.address[Length(p.kind)..], p.sqn, p.hop)
  }

  predicate WellFormed(t: Table) { 0 < |t.slots| < 256 && t.count <= |t.slots| && t.next < |t.slots| }

  /** check_broadcast_id: 1 for a new broadcast, 0 and 2 for a repeat with another and with the same hop count. */
  function Check(t: Table, p: Packet): (r: (Table, nat))
    requires WellFormed(t)
    ensures WellFormed(r.0) && |r.0.slots| == |t.slots|
  {
    var n := |t.slots|;
    var i := Find(t.slots, p.kind, p.address);
    if t.count > 0 && i < n then
      if t.slots[i].sqn != p.sqn then (t.(slots := t.slots[i := t.slots[i].(sqn := p.sqn, hop := p.hop)]), 1)
      else (t, if t.slots[i].hop != p.hop then 0 else 2)
    else if t.count == n then
      (Table(t.slots[t.next := Stored(t.slots[t.next], p)], t.count, if t.next + 1 == n then 0 else t.next + 1), 1)
    else
      (Table(t.slots[t.count := Stored(t.slots[t.count], p)], t.count + 1, t.next), 1)
  }

  class Filter {
    const info: array<Slot>
    var count: nat
    var next: nat
    var ownSqn: Byte

    predicate Valid()
      reads this, info
    {
      0 < info.Length < 256 && count <= info.Length && next < info.Length
    }

    function Contents(): (t: Table)
      requires Valid()
      reads this, info
      ensures WellFormed(t)
    {
      Table(info[..], count, next)
    }

    /** The globals at program start; flood_indexs is 0. */
    constructor (size: nat)
      requires 0 < size < 256
      ensures Valid() && fresh(info) && info.Length == size && count == 0 && next == 0 && ownSqn == 0
    {
      info := new Slot[size](_ => Slot(NONE, [0, 0, 0, 0, 0, 0, 0, 0], 0, 0));
      count, next, ownSqn := 0, 0, 0;
    }

    /** The table's part of cipv6_init: flood_indexs is not reset, and neither are addresses and hop counts. */
    method Init()
      requires Valid()
      modifies this, info
      ensures Valid() && Contents() == Cleared(old(Contents())) && ownSqn == 0
    {
      count := 0;
      var i := 0;
      while i < info.Length
        invariant i <= info.Length && Valid() && count == 0 && next == old(next)
        invariant forall j :: 0 <= j < i ==> info[j] == old(info[j]).(kind := NONE, sqn := 0)
        invariant forall j :: i <= j < info.Length ==> info[j] == old(info[j])
      {
        info[i] := info[i].(kind := NONE);
        info[i] := info[i].(sqn := 0);
        i := i + 1;
      }
      ownSqn := 0;
    }

    /** check_broadcast_id. */
    method CheckBroadcastId(p: Packet) returns (r: nat)
      requires Valid()
      modifies this`count, this`next, info
      ensures Valid() && (Contents(), r) == Check(old(Contents()), p)
    {
      ghost var t := Contents();
      ghost var at := Find(t.slots, p.kind, p.address);
      var length := if p.kind == SHORT then 2 else 8;
      if count > 0 {
        var i := 0;
        while i < info.Length
          invariant i <= info.Length && info[..] == t.slots && i <= at
        {
          if info[i].kind == p.kind {
            if info[i].address[..length] == p.address[..length] {
              if info[i].sqn != p.sqn {
                info[i] := info[i].(sqn := p.sqn);
                info[i] := info[i].(hop := p.hop);
                assert info[..] == t.slots[i := t.slots[i].(sqn := p.sqn, hop := p.hop)];
                return 1;
              } else if info[i].hop != p.hop {
                return 0;
              } else {
                return 2;
              }
            }
          }
          i := i + 1;
        }
        if count == info.Length {
          Fill(next, p, length);
          next := next + 1;
          if next == info.Length { next := 0; }
          return 1;
        }
      }
      Fill(count, p, length);
      count := count + 1;
      return 1;
    }

    /** The assignments to a slot, its address byte by byte. */
    method Fill(i: nat, p: Packet, length: nat)
      requires i < info.Length && length == Length(p.kind)
      modifies info
      ensures info[..] == old(info[..])[i := Stored(old(info[i]), p)]
    {
      ghost var all, was := info[..], info[i];
      assert p.address[..0] + was.address[0..] == was.address;
      info[i] := info[i].(kind := p.kind);
      var j := 0;
      while j < length
        invariant j <= length
        invariant info[..] == all[i := was.(kind := p.kind, address := p.address[..j] + was.address[j..])]
      {
        assert (p.address[..j] + was.address[j..])[j := p.address[j]] == p.address[..j + 1] + was.address[j + 1..];
        info[i] := info[i].(address := info[i].address[j := p.address[j]]);
        j := j + 1;
      }
      info[i] := info[i].(sqn := p.sqn);
      info[i] := info[i].(hop := p.hop);
    }

    /** update_ip_sqn. */
    method UpdateSqn()
      modifies this`ownSqn
      ensures ownSqn == NextSqn(old(ownSqn))
    {
      if ownSqn == 0xff { ownSqn := 1; } else { ownSqn := ownSqn + 1; }
    }
  }

  function Cleared(t: Table): Table
    requires WellFormed(t)
  {
    Table(seq(|t.slots|, i requires 0 <= i < |t.slots| => t.slots[i].(kind := NONE, sqn := 0)), 0, t.next)
  }

  function NextSqn(s: Byte): Byte { if s == 0xff then 1 else s + 1 }

  // ---------------------------------------------------------------- what every run keeps

  /** Slots in use come first and belong to different originators. */
  ghost predicate Good(t: Table) {
    && WellFormed(t)
    && (forall i :: 0 <= i < t.count ==> t.slots[i].kind != NONE)
    && (forall i :: t.count <= i < |t.slots| ==> t.slots[i].kind == NONE)
    && forall i, j :: 0 <= i < j < t.count ==> !Matches(t.slots[i], t.slots[j].kind, t.slots[j].address)
  }

  /** The callers in cIPv6.c pass the two address types of a mesh header only. */
  predicate Addressed(p: Packet) { p.kind != NONE }

  predicate FirstSeen(t: Table, p: Packet)
    requires WellFormed(t)
  {
    t.count == 0 || Find(t.slots, p.kind, p.address) == |t.slots|
  }

  /** The i-th slot is in use for p's originator. */
  predicate At(t: Table, i: nat, p: Packet) { i < t.count <= |t.slots| && Matches(t.slots[i], p.kind, p.address) }

  function Start(size: nat): Table
    requires 0 < size < 256
  {
    Table(seq(size, _ => Slot(NONE, [0, 0, 0, 0, 0, 0, 0, 0], 0, 0)), 0, 0)
  }

  lemma MatchesStored(was: Slot, p: Packet, q: Packet)
    ensures Matches(Stored(was, p), q.kind, q.address) == SameOriginator(p, q)
  {
  }

  lemma MatchesSame(s: Slot, p: Packet, q: Packet)
    requires Matches(s, p.kind, p.address)
    ensures Matches(s, q.kind, q.address) == SameOriginator(p, q)
  {
  }

  /** The slot a first-seen originator gets. */
  function Taken(t: Table): nat
    requires WellFormed(t)
  {
    if t.count == |t.slots| then t.next else t.count
  }

  lemma CheckFirstSeen(t: Table, p: Packet)
    requires Good(t) && Addressed(p) && FirstSeen(t, p)
    ensures var u := Check(t, p).0; var n := |t.slots|;
      && Check(t, p).1 == 1 && Taken(t) < n && u.slots == t.slots[Taken(t) := Stored(t.slots[Taken(t)], p)]
      && u.count == (if t.count == n then n else t.count + 1)
      && u.next == (if t.count < n then t.next else if t.next + 1 == n then 0 else t.next + 1)
    ensures forall j :: 0 <= j < t.count ==> !Matches(t.slots[j], p.kind, p.address)
  {
  }

  lemma CheckKnown(t: Table, p: Packet, i: nat)
    requires Good(t) && At(t, i, p)
    ensures !FirstSeen(t, p) && Find(t.slots, p.kind, p.address) == i
    ensures Check(t, p) ==
      if t.slots[i].sqn != p.sqn then (t.(slots := t.slots[i := t.slots[i].(sqn := p.sqn, hop := p.hop)]), 1)
      else (t, if t.slots[i].hop != p.hop then 0 else 2)
  {
  }

  lemma KnownIsAt(t: Table, p: Packet) returns (i: nat)
    requires Good(t) && Addressed(p) && !FirstSeen(t, p)
    ensures At(t, i, p)
  {
    i := Find(t.slots, p.kind, p.address);
  }

  /** The table never holds an originator twice. */
  lemma CheckKeepsGood(t: Table, p: Packet)
    requires Good(t) && Addressed(p)
    ensures Good(Check(t, p).0)
  {
    var u := Check(t, p).0;
    if FirstSeen(t, p) {
      CheckFirstSeen(t, p);
      var k := Taken(t);
      forall i, j | 0 <= i < j < u.count ensures !Matches(u.slots[i], u.slots[j].kind, u.slots[j].address) {
        if i == k { StoredDiffers(t, p, j); } else if j == k { StoredDiffers(t, p, i); }
      }
    } else {
      var i := KnownIsAt(t, p);
      CheckKnown(t, p, i);
    }
  }

  lemma StoredDiffers(t: Table, p: Packet, j: nat)
    requires Good(t) && Addressed(p) && FirstSeen(t, p) && j < t.count
    ensures var s, k := Stored(t.slots[Taken(t)], p), t.slots[j];
      !Matches(s, k.kind, k.address) && !Matches(k, s.kind, s.address)
  {
  }

  lemma StartIsGood(size: nat)
    requires 0 < size < 256
    ensures Good(Start(size))
  {
  }

  lemma ClearedIsGood(t: Table)
    requires WellFormed(t)
    ensures Good(Cleared(t))
  {
  }

  // ---------------------------------------------------------------- answers

  /** The same type and address: two bytes of it for a short one, eight for the others. */
  predicate SameSender(kind: Kind, a: Address, kind': Kind, b: Address) {
    kind == kind' && a[0] == b[0] && a[1] == b[1] && (kind == SHORT || a == b)
  }

  lemma SendersMatch(s: Slot, kind: Kind, a: Address)
    ensures Matches(s, kind, a) <==> SameSender(s.kind, s.address, kind, a)
  {
    if SameSender(s.kind, s.address, kind, a) { assert s.address[..2] == a[..2]; }
    if Matches(s, kind, a) {
      assert s.address[..Length(kind)][0] == a[..Length(kind)][0] && s.address[..Length(kind)][1] == a[..Length(kind)][1];
      assert s.address[..8] == s.address && a[..8] == a;
    }
  }

  /** The i-th slot is in use and holds p's sender. */
  predicate InSlot(t: Table, i: nat, p: Packet) {
    i < t.count <= |t.slots| && SameSender(t.slots[i].kind, t.slots[i].address, p.kind, p.address)
  }

  /** A broadcast is new if and only if no slot holds its sender with its number; a repeat is told from one that came
      another way by the hop count. */
  lemma AnswersExactly(t: Table, p: Packet)
    requires Good(t) && Addressed(p)
    ensures Check(t, p).1 == 1 <==> forall i: nat :: InSlot(t, i, p) ==> t.slots[i].sqn != p.sqn
    ensures Check(t, p).1 == 0 <==> exists i: nat :: InSlot(t, i, p) && t.slots[i].sqn == p.sqn && t.slots[i].hop != p.hop
    ensures Check(t, p).1 == 2 <==> exists i: nat :: InSlot(t, i, p) && t.slots[i].sqn == p.sqn && t.slots[i].hop == p.hop
  {
    forall i: nat | InSlot(t, i, p) ensures Find(t.slots, p.kind, p.address) == i {
      SendersMatch(t.slots[i], p.kind, p.address);
      CheckKnown(t, p, i);
    }
    if FirstSeen(t, p) {
      CheckFirstSeen(t, p);
    } else {
      var i := KnownIsAt(t, p);
      CheckKnown(t, p, i);
      SendersMatch(t.slots[i], p.kind, p.address);
      assert InSlot(t, i, p);
    }
  }

  /** A new broadcast is held with its number and hop count from then on, in one slot. */
  lemma NewIsHeld(t: Table, p: Packet) returns (i: nat)
    requires Good(t) && Addressed(p) && Check(t, p).1 == 1
    ensures var u := Check(t, p).0;
      Good(u) && InSlot(u, i, p) && u.slots[i].sqn == p.sqn && u.slots[i].hop == p.hop
    ensures var u := Check(t, p).0; forall j :: 0 <= j < t.count && j != i ==> u.slots[j] == t.slots[j]
  {
    CheckKeepsGood(t, p);
    if FirstSeen(t, p) {
      i := Taken(t);
      CheckFirstSeen(t, p);
      MatchesStored(t.slots[i], p, p);
    } else {
      i := KnownIsAt(t, p);
      CheckKnown(t, p, i);
    }
    SendersMatch(Check(t, p).0.slots[i], p.kind, p.address);
  }

  // ---------------------------------------------------------------- how long an originator is remembered

  function Run(t: Table, ps: seq<Packet>): (u: Table)
    requires WellFormed(t)
    ensures WellFormed(u) && |u.slots| == |t.slots|
    decreases |ps|
  {
    if ps == [] then t else Run(Check(t, ps[0]).0, ps[1..])
  }

  /** How many first-seen originators a run inserts. */
  function Inserted(t: Table, ps: seq<Packet>): nat
    requires WellFormed(t)
    decreases |ps|
  {
    if ps == [] then 0 else (if FirstSeen(t, ps[0]) then 1 else 0) + Inserted(Check(t, ps[0]).0, ps[1..])
  }

  /** The number that p's originator used last: in the run, or s before it. */
  function LastNumber(p: Packet, ps: seq<Packet>, s: Byte): Byte
    decreases |ps|
  {
    if ps == [] then s else LastNumber(p, ps[1..], if SameOriginator(p, ps[0]) then ps[0].sqn else s)
  }

  /** How many insertions it takes until the i-th slot is replaced: the unused slots, and then the turns of `next`. */
  function Left(t: Table, i: nat): nat
    requires WellFormed(t) && i < t.count
  {
    |t.slots| - t.count + (if i >= t.next then i - t.next else i - t.next + |t.slots|) + 1
  }

  predicate AllAddressed(ps: seq<Packet>) { forall q :: q in ps ==> Addressed(q) }

  lemma CheckKeepsSlot(t: Table, i: nat, p: Packet, q: Packet)
    requires Good(t) && At(t, i, p) && Addressed(q) && (FirstSeen(t, q) ==> Left(t, i) > 1)
    ensures var u := Check(t, q).0;
      && At(u, i, p) && Left(u, i) == Left(t, i) - (if FirstSeen(t, q) then 1 else 0)
      && u.slots[i].sqn == if SameOriginator(p, q) then q.sqn else t.slots[i].sqn
  {
  }

  /** While fewer originators have been inserted than the slot has left, it keeps its originator and knows the
      number that the originator used last. */
  lemma {:induction false} Remembered(t: Table, i: nat, p: Packet, ps: seq<Packet>)
    requires Good(t) && At(t, i, p) && AllAddressed(ps) && Inserted(t, ps) < Left(t, i)
    ensures Good(Run(t, ps)) && At(Run(t, ps), i, p)
    ensures Run(t, ps).slots[i].sqn == LastNumber(p, ps, t.slots[i].sqn)
    decreases |ps|
  {
    if ps != [] {
      assert ps[0] in ps;
      CheckKeepsGood(t, ps[0]);
      CheckKeepsSlot(t, i, p, ps[0]);
      Remembered(Check(t, ps[0]).0, i, p, ps[1..]);
    }
  }

  /** So a packet of that originator is reported new exactly when its number is another one. */
  lemma RepeatsAreRefused(t: Table, i: nat, p: Packet, ps: seq<Packet>, q: Packet)
    requires Good(t) && At(t, i, p) && AllAddressed(ps) && Inserted(t, ps) < Left(t, i) && SameOriginator(p, q)
    ensures Check(Run(t, ps), q).1 == 1 <==> q.sqn != LastNumber(p, ps, t.slots[i].sqn)
  {
    Remembered(t, i, p, ps);
    MatchesSame(Run(t, ps).slots[i], p, q);
    CheckKnown(Run(t, ps), q, i);
  }

  predicate Absent(t: Table, p: Packet) { forall j :: 0 <= j < |t.slots| ==> !Matches(t.slots[j], p.kind, p.address) }

  lemma {:induction false} StaysAbsent(t: Table, p: Packet, ps: seq<Packet>)
    requires Good(t) && Absent(t, p) && AllAddressed(ps) && forall q :: q in ps ==> !SameOriginator(p, q)
    ensures Good(Run(t, ps)) && Absent(Run(t, ps), p)
    decreases |ps|
  {
    if ps != [] {
      var q := ps[0];
      assert q in ps;
      var u := Check(t, q).0;
      CheckKeepsGood(t, q);
      if FirstSeen(t, q) {
        CheckFirstSeen(t, q);
        MatchesStored(t.slots[Taken(t)], q, p);
      } else {
        var k := KnownIsAt(t, q);
        CheckKnown(t, q, k);
      }
      StaysAbsent(u, p, ps[1..]);
    }
  }

  lemma LastTurn(t: Table, i: nat, p: Packet, q: Packet)
    requires Good(t) && At(t, i, p) && Addressed(q) && FirstSeen(t, q) && Left(t, i) == 1
    ensures !SameOriginator(p, q) && Absent(Check(t, q).0, p)
  {
  }

  lemma {:induction false} Forgotten(t: Table, i: nat, p: Packet, ps: seq<Packet>)
    requires Good(t) && At(t, i, p) && AllAddressed(ps) && (forall q :: q in ps ==> !SameOriginator(p, q))
    requires Inserted(t, ps) >= Left(t, i)
    ensures Good(Run(t, ps)) && Absent(Run(t, ps), p)
    decreases |ps|
  {
    var q := ps[0];
    assert q in ps;
    CheckKeepsGood(t, q);
    if FirstSeen(t, q) && Left(t, i) == 1 {
      LastTurn(t, i, p, q);
      StaysAbsent(Check(t, q).0, p, ps[1..]);
    } else {
      CheckKeepsSlot(t, i, p, q);
      Forgotten(Check(t, q).0, i, p, ps[1..]);
    }
  }

  /** With nothing from its originator in between, a repeat is taken for new exactly when as many originators were
      inserted as its slot had left. */
  lemma ForgottenExactly(t: Table, i: nat, p: Packet, ps: seq<Packet>)
    requires Good(t) && At(t, i, p) && t.slots[i].sqn == p.sqn && Addressed(p)
    requires AllAddressed(ps) && forall q :: q in ps ==> !SameOriginator(p, q)
    ensures Check(Run(t, ps), p).1 == 1 <==> Inserted(t, ps) >= Left(t, i)
  {
    if Inserted(t, ps) >= Left(t, i) {
      Forgotten(t, i, p, ps);
      CheckFirstSeen(Run(t, ps), p);
    } else {
      RepeatsAreRefused(t, i, p, ps, p);
      NothingNew(p, ps, p.sqn);
    }
  }

  lemma {:induction false} NothingNew(p: Packet, ps: seq<Packet>, s: Byte)
    requires forall q :: q in ps && SameOriginator(p, q) ==> q.sqn == s
    ensures LastNumber(p, ps, s) == s
    decreases |ps|
  {
    if ps != [] {
      assert ps[0] in ps;
      NothingNew(p, ps[1..], s);
    }
  }

  // ---------------------------------------------------------------- the promise: as many insertions as there are slots

  /** Insertions fill the table from its first slot and replace it from there. */
  predicate InOrder(t: Table)
    requires WellFormed(t)
  {
    t.count == |t.slots| || t.next == 0
  }

  lemma CheckKeepsOrder(t: Table, p: Packet)
    requires Good(t) && InOrder(t) && Addressed(p)
    ensures InOrder(Check(t, p).0)
  {
  }

  /** What a slot has left when it has just been taken. */
  lemma LeftWhenTaken(t: Table, p: Packet)
    requires Good(t) && Addressed(p) && FirstSeen(t, p)
    ensures var u := Check(t, p).0; var n := |t.slots|;
      && At(u, Taken(t), p) && u.slots[Taken(t)].sqn == p.sqn
      && Left(u, Taken(t)) == if t.count == n then n else if t.next <= t.count then n - t.next else 2 * n - t.next
  {
  }

  /** A new entry is kept for as many insertions as there are slots unless flood_indexs was not zero when the table
      was cleared and the entry's place is not in front of it. */
  lemma KeptLongEnough(t: Table, p: Packet)
    requires Good(t) && Addressed(p) && FirstSeen(t, p)
    ensures Left(Check(t, p).0, Taken(t)) >= |t.slots| <==> InOrder(t) || t.next > t.count
  {
  }

  lemma {:induction false} RunKeeps(t: Table, ps: seq<Packet>)
    requires Good(t) && InOrder(t) && AllAddressed(ps)
    ensures Good(Run(t, ps)) && InOrder(Run(t, ps))
    decreases |ps|
  {
    if ps != [] {
      assert ps[0] in ps;
      CheckKeepsGood(t, ps[0]);
      CheckKeepsOrder(t, ps[0]);
      RunKeeps(Check(t, ps[0]).0, ps[1..]);
    }
  }

  /** From program start on: once an originator has been inserted with p, a later packet q of that originator is
      reported new exactly when it carries another number than the originator's last one, as long as fewer
      originators have been inserted since than there are slots. */
  lemma NeverNewAgain(size: nat, before: seq<Packet>, p: Packet, later: seq<Packet>, q: Packet)
    requires 0 < size < 256 && AllAddressed(before) && AllAddressed(later) && Addressed(p) && SameOriginator(p, q)
    requires var t := Run(Start(size), before);
      FirstSeen(t, p) && Inserted(Check(t, p).0, later) < size
    ensures var t := Run(Check(Run(Start(size), before), p).0, later);
      Check(t, q).1 == 1 <==> q.sqn != LastNumber(p, later, p.sqn)
  {
    StartIsGood(size);
    RunKeeps(Start(size), before);
    var t := Run(Start(size), before);
    CheckKeepsGood(t, p);
    LeftWhenTaken(t, p);
    RepeatsAreRefused(Check(t, p).0, Taken(t), p, later, q);
  }

  ghost predicate Different(ps: seq<Packet>) {
    AllAddressed(ps) && forall i, j :: 0 <= i < |ps| && 0 <= j < |ps| && i != j ==> !SameOriginator(ps[i], ps[j])
  }

  /** Two slots that hold a and b, or nothing yet. */
  ghost predicate Holds(t: Table, ps: seq<Packet>) {
    Good(t) && |t.slots| == 2 && t.count == |ps| <= 2 &&
    forall i, q: Packet :: 0 <= i < |ps| ==> Matches(t.slots[i], q.kind, q.address) == SameOriginator(ps[i], q)
  }

  lemma Inserts(t: Table, ps: seq<Packet>, p: Packet)
    requires Holds(t, ps) && Addressed(p) && forall i :: 0 <= i < |ps| ==> !SameOriginator(ps[i], p)
    ensures FirstSeen(t, p) && Check(t, p).1 == 1
    ensures var u := Check(t, p).0;
      if |ps| < 2 then Holds(u, ps + [p]) && u.next == t.next else Holds(u, ps[t.next := p]) && u.next == 1 - t.next
  {
    assert forall i :: 0 <= i < |ps| ==> !Matches(t.slots[i], p.kind, p.address);
    CheckFirstSeen(t, p);
    CheckKeepsGood(t, p);
    forall q: Packet ensures Matches(Stored(t.slots[Taken(t)], p), q.kind, q.address) == SameOriginator(p, q) {
      MatchesStored(t.slots[Taken(t)], p, q);
    }
  }

  lemma RunThree(t: Table, a: Packet, b: Packet, c: Packet)
    requires WellFormed(t)
    ensures Run(t, [a]) == Check(t, a).0 && Run(t, [a, b, c]) == Check(Check(Check(t, a).0, b).0, c).0
  {
    assert [a, b, c][1..] == [b, c] && [b, c][1..] == [c] && [c][1..] == [] && [a][1..] == [];
    assert Run(t, [a, b, c]) == Run(Check(t, a).0, [b, c]);
    assert Run(Check(t, a).0, [b, c]) == Run(Check(Check(t, a).0, b).0, [c]);
  }

  /** cipv6_init leaves flood_indexs where it was. With two slots and three originators, flood_indexs is 1 when the table
      is cleared; then b, which fills the second slot, is gone after one insertion, and a repeat is taken for new. */
  lemma ClearedTableForgetsEarly(a: Packet, b: Packet, c: Packet)
    requires Different([a, b, c])
    ensures var t := Run(Cleared(Run(Start(2), [a, b, c])), [a]);
      FirstSeen(t, b) && Inserted(Check(t, b).0, [c]) == 1 && Check(Run(Check(t, b).0, [c]), b).1 == 1
  {
    var ps := [a, b, c];
    assert !SameOriginator(ps[0], ps[1]) && !SameOriginator(ps[0], ps[2]) && !SameOriginator(ps[1], ps[2]);
    assert Addressed(ps[0]) && Addressed(ps[1]) && Addressed(ps[2]);
    var s0 := Start(2);
    StartIsGood(2);
    Inserts(s0, [], a);
    var s1 := Check(s0, a).0;
    assert [] + [a] == [a] && [a] + [b] == [a, b];
    Inserts(s1, [a], b);
    var s2 := Check(s1, b).0;
    Inserts(s2, [a, b], c);
    RunThree(s0, a, b, c);
    ForgetsEarly(Check(s2, c).0, a, b, c);
  }

  lemma ForgetsEarly(t: Table, a: Packet, b: Packet, c: Packet)
    requires WellFormed(t) && |t.slots| == 2 && t.next == 1 && Addressed(a) && Addressed(b) && Addressed(c)
    requires !SameOriginator(a, b) && !SameOriginator(a, c) && !SameOriginator(b, c)
    ensures var u := Run(Cleared(t), [a]);
      FirstSeen(u, b) && Inserted(Check(u, b).0, [c]) == 1 && Check(Run(Check(u, b).0, [c]), b).1 == 1
  {
    var t0 := Cleared(t);
    ClearedIsGood(t);
    assert [] + [a] == [a] && [a] + [b] == [a, b];
    Inserts(t0, [], a);
    RunThree(t0, a, b, c);
    var t1 := Check(t0, a).0;
    Inserts(t1, [a], b);
    var t2 := Check(t1, b).0;
    GoneAfterOne(t2, a, b, c);
  }

  lemma GoneAfterOne(t: Table, a: Packet, b: Packet, c: Packet)
    requires Holds(t, [a, b]) && t.next == 1 && Addressed(b) && Addressed(c)
    requires !SameOriginator(a, b) && !SameOriginator(a, c) && !SameOriginator(b, c)
    ensures Inserted(t, [c]) == 1 && Check(Run(t, [c]), b).1 == 1
  {
    var u := Check(t, c).0;
    Inserts(t, [a, b], c);
    assert [a, b][1 := c] == [a, c];
    assert [c][1..] == [];
    assert Run(t, [c]) == Run(u, []) == u;
    Inserts(u, [a, c], b);
  }

  /** A packet without an address type matches an unused slot that happens to hold its address bytes: nothing is
      inserted, and it is refused if the slot also holds its number. */
  lemma UnusedSlotMatches(t: Table, p: Packet, j: nat)
    requires Good(t) && p.kind == NONE && 0 < t.count <= j < |t.slots| && t.slots[j].address == p.address
    ensures var i := Find(t.slots, p.kind, p.address);
      && t.count <= i <= j
      && Check(t, p).0.count == t.count && Check(t, p).0.next == t.next && !FirstSeen(t, p)
      && (Check(t, p).1 == 1 <==> t.slots[i].sqn != p.sqn)
  {
    assert Matches(t.slots[j], p.kind, p.address);
  }

  /** From program start on: after one broadcast, one that was never heard is taken for a repeat. */
  lemma NeverHeardRefused(size: nat, a: Packet, p: Packet)
    requires 1 < size < 256 && Addressed(a) && p == Packet(NONE, [0, 0, 0, 0, 0, 0, 0, 0], 0, 0)
    ensures var t := Run(Start(size), [a]); Check(t, p) == (t, 2)
  {
    var t0 := Start(size);
    StartIsGood(size);
    CheckFirstSeen(t0, a);
    CheckKeepsGood(t0, a);
    assert [a][1..] == [];
    var t := Check(t0, a).0;
    assert Run(t0, [a]) == Run(t, []) == t;
    UnusedSlotMatches(t, p, 1);
  }

  // ---------------------------------------------------------------- the sender's own numbers

  function Sent(n: nat): Byte { if n == 0 then 0 else NextSqn(Sent(n - 1)) }

  /** The sender cycles through 1 to 255 and never sends 0. */
  lemma {:induction false} NumbersCycle(n: nat)
    requires n > 0
    ensures Sent(n) == (n - 1) % 255 + 1
    decreases n
  {
    if n > 1 {
      NumbersCycle(n - 1);
      NextModulo(n - 2);
    }
  }

  lemma NextModulo(m: nat)
    ensures (m + 1) % 255 == if m % 255 == 254 then 0 else m % 255 + 1
  {
  }

  /** Any two of 255 consecutive broadcasts carry different numbers. */
  lemma NumbersDiffer(n: nat, k: nat)
    requires 0 < n < k < n + 255
    ensures Sent(n) != Sent(k)
  {
    NumbersCycle(n);
    NumbersCycle(k);
  }
}
