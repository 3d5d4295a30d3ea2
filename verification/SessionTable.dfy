/** The sniffer's chained session table (sniffer.c: SessionHash, GetSnifferSession, CreateSession,
    RemoveSession, RemoveStaleSessions), proved to be a flat list of sessions, newest first. */
module SessionTable {

  const HASH_SIZE := 499
  const CYASSL_SNIFFER_TIMEOUT := 900
  const WORD32 := 0x1_0000_0000

  type word32 = x: int | 0 <= x < 0x1_0000_0000
  type word16 = x: int | 0 <= x < 0x1_0000

  /** The addressing of one packet: IpInfo and TcpInfo. */
  datatype Endpoints = Endpoints(src: word32, dst: word32, srcPort: word16, dstPort: word16) {
    /** The same connection, seen in the other direction. */
    function Reverse(): Endpoints { Endpoints(dst, src, dstPort, srcPort) }
  }

  /** SessionHash, in word32 arithmetic. */
  function SessionHash(e: Endpoints): (row: nat)
    ensures row < HASH_SIZE
  {
    var hash := e.src * e.dst % WORD32;
    hash * (e.srcPort * e.dstPort % WORD32) % WORD32 % HASH_SIZE
  }

  /** Both directions of a connection use the same row. */
  lemma HashIsSymmetric(e: Endpoints)
    ensures SessionHash(e.Reverse()) == SessionHash(e)
  {
    assert e.src * e.dst == e.dst * e.src && e.srcPort * e.dstPort == e.dstPort * e.srcPort;
  }

  class SnifferSession {
    const server: word32
    const client: word32
    const srvPort: word16
    const cliPort: word16
    var lastUsed: nat
    var next: SnifferSession?

    constructor (e: Endpoints, now: nat)
      ensures server == e.dst && client == e.src && srvPort == e.dstPort && cliPort == e.srcPort
      ensures lastUsed == now && next == null
    {
      server, client, srvPort, cliPort := e.dst, e.src, e.dstPort, e.srcPort;
      lastUsed, next := now, null;
    }

    /** The endpoints of the SYN that opened the session. */
    function Opened(): Endpoints { Endpoints(client, server, cliPort, srvPort) }

    predicate Matches(e: Endpoints) {
      || (server == e.src && client == e.dst && srvPort == e.srcPort && cliPort == e.dstPort)
      || (client == e.src && server == e.dst && cliPort == e.srcPort && srvPort == e.dstPort)
    }

    function Row(): nat { SessionHash(Opened()) }
  }

  /** A session's packets, in either direction, hash to the row that holds the session. */
  lemma MatchingPacketsShareRow(s: SnifferSession, e: Endpoints)
    requires s.Matches(e)
    ensures SessionHash(e) == s.Row()
  {
    HashIsSymmetric(e);
    assert e == s.Opened() || e.Reverse() == s.Opened();
  }

  /** What matching means: the packet's endpoints are those of the SYN, or those with the two ends exchanged. */
  lemma MatchesBothWays(s: SnifferSession, e: Endpoints)
    ensures s.Matches(e) <==> e == s.Opened() || Endpoints(e.dst, e.src, e.dstPort, e.srcPort) == s.Opened()
  {
  }

  // ---------------------------------------------------------------- the flat list

  /** The sessions of one row, in list order. */
  ghost function RowOf(all: seq<SnifferSession>, r: nat): seq<SnifferSession> {
    if all == [] then []
    else if all[0].Row() == r then [all[0]] + RowOf(all[1..], r)
    else RowOf(all[1..], r)
  }

  /** The list without the given sessions; the others keep their order. */
  ghost function Without(all: seq<SnifferSession>, gone: set<SnifferSession>): seq<SnifferSession> {
    if all == [] then []
    else if all[0] in gone then Without(all[1..], gone)
    else [all[0]] + Without(all[1..], gone)
  }

  /** The newest session with these endpoints. */
  ghost function Newest(all: seq<SnifferSession>, e: Endpoints): SnifferSession? {
    if all == [] then null
    else if all[0].Matches(e) then all[0]
    else Newest(all[1..], e)
  }

  ghost predicate Distinct(all: seq<SnifferSession>) {
    forall i, j :: 0 <= i < j < |all| ==> all[i] != all[j]
  }

  /** Looking only at the row of a packet finds the newest session of the whole table. */
  lemma {:induction false} RowLookupIsGlobal(all: seq<SnifferSession>, e: Endpoints)
    ensures Newest(RowOf(all, SessionHash(e)), e) == Newest(all, e)
  {
    if all != [] {
      RowLookupIsGlobal(all[1..], e);
      if all[0].Matches(e) { MatchingPacketsShareRow(all[0], e); }
    }
  }

  /** The lookup answers a live session with these endpoints and no newer one matches; or none matches at all. */
  lemma {:induction false} NewestIsFirstMatch(all: seq<SnifferSession>, e: Endpoints)
    ensures Newest(all, e) == null ==> forall s :: s in all ==> !s.Matches(e)
    ensures Newest(all, e) != null ==>
              exists i :: 0 <= i < |all| && all[i] == Newest(all, e) && all[i].Matches(e)
                          && forall j :: 0 <= j < i ==> !all[j].Matches(e)
  {
    if all != [] && !all[0].Matches(e) {
      NewestIsFirstMatch(all[1..], e);
      if Newest(all, e) != null {
        var i :| 0 <= i < |all[1..]| && all[1..][i] == Newest(all[1..], e)
                 && forall j :: 0 <= j < i ==> !all[1..][j].Matches(e);
        assert forall j :: 0 < j < i + 1 ==> all[j] == all[1..][j - 1];
        assert all[i + 1] == Newest(all, e);
      }
    }
  }

  /** A new session takes over exactly the packets that carry its endpoints, in either direction. */
  lemma NewestOfCreated(s: SnifferSession, all: seq<SnifferSession>, e: Endpoints)
    ensures Newest([s] + all, e) ==
      if e == Endpoints(s.client, s.server, s.cliPort, s.srvPort) || e == Endpoints(s.server, s.client, s.srvPort, s.cliPort) then s
      else Newest(all, e)
  {
    assert ([s] + all)[1..] == all;
  }

  lemma {:induction false} RowOfMembers(all: seq<SnifferSession>, r: nat)
    ensures forall s :: s in RowOf(all, r) <==> s in all && s.Row() == r
  {
    if all != [] { RowOfMembers(all[1..], r); }
  }

  lemma {:induction false} WithoutMembers(all: seq<SnifferSession>, gone: set<SnifferSession>)
    ensures forall s :: s in Without(all, gone) <==> s in all && s !in gone
  {
    if all != [] { WithoutMembers(all[1..], gone); }
  }

  /** Removing sessions from the flat list is removing them from every row. */
  lemma {:induction false} WithoutByRow(all: seq<SnifferSession>, gone: set<SnifferSession>, r: nat)
    ensures RowOf(Without(all, gone), r) == Without(RowOf(all, r), gone)
  {
    if all != [] {
      WithoutByRow(all[1..], gone, r);
      assert [all[0]] + Without(all[1..], gone) != [];
      assert ([all[0]] + Without(all[1..], gone))[1..] == Without(all[1..], gone);
      assert ([all[0]] + RowOf(all[1..], r))[1..] == RowOf(all[1..], r);
    }
  }

  lemma {:induction false} WithoutTwice(all: seq<SnifferSession>, a: set<SnifferSession>, b: set<SnifferSession>)
    ensures Without(Without(all, a), b) == Without(all, a + b)
  {
    if all != [] {
      WithoutTwice(all[1..], a, b);
      assert ([all[0]] + Without(all[1..], a))[1..] == Without(all[1..], a);
    }
  }

  lemma {:induction false} WithoutNone(all: seq<SnifferSession>, gone: set<SnifferSession>)
    requires forall s :: s in all ==> s !in gone
    ensures Without(all, gone) == all
  {
    if all != [] { WithoutNone(all[1..], gone); }
  }

  /** In a list without repetitions, removing one session closes exactly its gap. */
  lemma {:induction false} WithoutOne(all: seq<SnifferSession>, k: nat)
    requires Distinct(all) && k < |all|
    ensures Without(all, {all[k]}) == all[..k] + all[k + 1..]
  {
    if k == 0 {
      WithoutNone(all[1..], {all[0]});
    } else {
      WithoutOne(all[1..], k - 1);
      assert all[1..][k - 1] == all[k];
      assert all[..k] == [all[0]] + all[1..][..k - 1];
      assert all[1..][k..] == all[k + 1..];
    }
  }

  lemma {:induction false} RowOfDistinct(all: seq<SnifferSession>, r: nat)
    requires Distinct(all)
    ensures Distinct(RowOf(all, r))
  {
    if all != [] {
      RowOfDistinct(all[1..], r);
      RowOfMembers(all[1..], r);
    }
  }

  lemma {:induction false} WithoutDistinct(all: seq<SnifferSession>, gone: set<SnifferSession>)
    requires Distinct(all)
    ensures Distinct(Without(all, gone))
  {
    if all != [] {
      WithoutDistinct(all[1..], gone);
      WithoutMembers(all[1..], gone);
    }
  }

  /** Removing the k-th session of one row leaves every other row as it is. */
  lemma RowAfterUnlink(all: seq<SnifferSession>, row: nat, k: nat, r: nat)
    requires Distinct(all) && k < |RowOf(all, row)|
    ensures var nodes := RowOf(all, row);
      RowOf(Without(all, {nodes[k]}), r) == if r == row then nodes[..k] + nodes[k + 1..] else RowOf(all, r)
  {
    var nodes := RowOf(all, row);
    WithoutByRow(all, {nodes[k]}, r);
    RowOfMembers(all, row);
    if r == row {
      RowOfDistinct(all, row);
      WithoutOne(nodes, k);
    } else {
      RowOfMembers(all, r);
      assert nodes[k] in RowOf(all, row) && nodes[k].Row() == row;
      WithoutNone(RowOf(all, r), {nodes[k]});
    }
  }

  // ---------------------------------------------------------------- the linked rows

  ghost function NodeAt(nodes: seq<SnifferSession>, i: nat): SnifferSession? {
    if i < |nodes| then nodes[i] else null
  }

  /** Following `next` from `front` visits exactly `nodes`. */
  ghost predicate Chain(front: SnifferSession?, nodes: seq<SnifferSession>)
    reads (set n | n in nodes)`next
  {
    front == NodeAt(nodes, 0) &&
    forall i {:trigger nodes[i].next} :: 0 <= i < |nodes| ==> nodes[i].next == NodeAt(nodes, i + 1)
  }

  ghost function MembersOf(all: seq<SnifferSession>): set<SnifferSession> { set s | s in all }

  /** The tail of the list is exactly `tail`. */
  ghost predicate EndsIn(list: seq<SnifferSession>, tail: seq<SnifferSession>) {
    |tail| <= |list| && list[|list| - |tail|..] == tail
  }

  /** The first node of a list's tail, and the tail behind it, with or without that node. */
  lemma EndsInHead(list: seq<SnifferSession>, tail: seq<SnifferSession>)
    requires Distinct(list) && tail != [] && EndsIn(list, tail)
    ensures EndsIn(list, tail[1..]) && EndsIn(Without(list, {tail[0]}), tail[1..])
    ensures var at := |list| - |tail|; list[at] == tail[0] && NodeAt(list, at + 1) == NodeAt(tail, 1)
  {
    var at := |list| - |tail|;
    assert list[at..][0] == list[at] && list[at..][1..] == list[at + 1..];
    if 1 < |tail| { assert list[at..][1] == list[at + 1]; }
    WithoutOne(list, at);
  }

  lemma {:induction false} RowElement(all: seq<SnifferSession>, i: nat, k: nat)
    requires k < |RowOf(all, i)|
    ensures RowOf(all, i)[k] in all && RowOf(all, i)[k].Row() == i
  {
    if all[0].Row() != i {
      RowElement(all[1..], i, k);
    } else if k > 0 {
      RowElement(all[1..], i, k - 1);
    }
  }

  /** The same for the tail of one row, when the session is removed from the whole table. */
  lemma TailStep(all: seq<SnifferSession>, i: nat, tail: seq<SnifferSession>)
    requires Distinct(all) && tail != [] && EndsIn(RowOf(all, i), tail)
    ensures tail[0] in all && tail[0].Row() == i
    ensures EndsIn(RowOf(all, i), tail[1..]) && EndsIn(RowOf(Without(all, {tail[0]}), i), tail[1..])
    ensures var at := |RowOf(all, i)| - |tail|;
      RowOf(all, i)[at] == tail[0] && NodeAt(RowOf(all, i), at + 1) == NodeAt(tail, 1)
    ensures MembersOf(Without(all, {tail[0]})) <= MembersOf(all)
  {
    RowOfDistinct(all, i);
    EndsInHead(RowOf(all, i), tail);
    RowElement(all, i, |RowOf(all, i)| - |tail|);
    WithoutByRow(all, {tail[0]}, i);
    assert MembersOf(Without(all, {tail[0]})) <= MembersOf(all) by { WithoutMembers(all, {tail[0]}); }
  }

  /** time >= lastUsed + CYASSL_SNIFFER_TIMEOUT. */
  ghost function Stale(all: seq<SnifferSession>, now: nat): set<SnifferSession>
    reads (set s | s in all)`lastUsed
  {
    set s | s in all && now >= s.lastUsed + CYASSL_SNIFFER_TIMEOUT
  }

  /** The stale sessions of the rows below i. */
  ghost function Below(stale: set<SnifferSession>, i: nat): set<SnifferSession> {
    set s | s in stale && s.Row() < i
  }

  lemma SweptRow(was: seq<SnifferSession>, stale: set<SnifferSession>, i: nat)
    requires stale <= MembersOf(was)
    ensures Below(stale, i) + stale * MembersOf(RowOf(Without(was, Below(stale, i)), i)) == Below(stale, i + 1)
  {
    var rest := Without(was, Below(stale, i));
    RowOfMembers(rest, i);
    WithoutMembers(was, Below(stale, i));
  }

  lemma SweptRows(was: seq<SnifferSession>, stale: set<SnifferSession>, i: nat, before: seq<SnifferSession>, after: seq<SnifferSession>)
    requires stale <= MembersOf(was) && before == Without(was, Below(stale, i))
    requires after == Without(before, stale * MembersOf(RowOf(before, i)))
    ensures after == Without(was, Below(stale, i + 1))
  {
    SweptRow(was, stale, i);
    WithoutTwice(was, Below(stale, i), stale * MembersOf(RowOf(before, i)));
  }

  /** Visiting the k-th session of a row: what has been removed so far grows by that session if it is stale. */
  lemma SweptOne(was: seq<SnifferSession>, nodes: seq<SnifferSession>, k: nat, stale: set<SnifferSession>)
    requires k < |nodes|
    ensures nodes[k..] != [] && nodes[k..][0] == nodes[k] && nodes[k..][1..] == nodes[k + 1..]
    ensures NodeAt(nodes[k..], 1) == NodeAt(nodes, k + 1)
    ensures Without(was, stale * MembersOf(nodes[..k + 1])) ==
            Without(Without(was, stale * MembersOf(nodes[..k])), if nodes[k] in stale then {nodes[k]} else {})
  {
    assert nodes[..k + 1] == nodes[..k] + [nodes[k]];
    var one := if nodes[k] in stale then {nodes[k]} else {};
    assert stale * MembersOf(nodes[..k + 1]) == stale * MembersOf(nodes[..k]) + one;
    WithoutTwice(was, stale * MembersOf(nodes[..k]), one);
  }

  /** SessionTable and SessionCount. */
  class Table {
    const rows: array<SnifferSession?>
    var sessionCount: nat
    ghost var all: seq<SnifferSession>

    ghost predicate Valid()
      reads this`all, rows, MembersOf(all)`next
    {
      && rows.Length == HASH_SIZE && Distinct(all)
      && forall r :: 0 <= r < HASH_SIZE ==> RowOk(r)
    }

    ghost predicate RowOk(r: nat)
      requires r < rows.Length
      reads this`all, rows, MembersOf(all)`next
    {
      RowOfMembers(all, r);
      Chain(rows[r], RowOf(all, r))
    }

    constructor ()
      ensures Valid() && all == [] && sessionCount == 0 && fresh(rows)
    {
      rows := new SnifferSession?[HASH_SIZE](_ => null);
      sessionCount, all := 0, [];
    }

    /** The walk of GetSnifferSession along one row. */
    method Find(e: Endpoints) returns (session: SnifferSession?)
      requires Valid()
      ensures session == Newest(all, e)
    {
      var row := SessionHash(e);
      assert RowOk(row);
      ghost var nodes, k := RowOf(all, row), 0;
      RowLookupIsGlobal(all, e);
      session := rows[row];
      while session != null
        invariant k <= |nodes| && session == NodeAt(nodes, k)
        invariant Newest(nodes[k..], e) == Newest(all, e)
        decreases |nodes| - k
      {
        if session.server == e.src && session.client == e.dst &&
           session.srvPort == e.srcPort && session.cliPort == e.dstPort { break; }
        if session.client == e.src && session.server == e.dst &&
           session.cliPort == e.srcPort && session.srvPort == e.dstPort { break; }
        session := session.next;
        k := k + 1;
      }
    }

    /** GetSnifferSession: the newest session with these endpoints, kept alive by the lookup. */
    method GetSnifferSession(e: Endpoints, now: nat) returns (session: SnifferSession?)
      requires Valid()
      modifies MembersOf(all)`lastUsed
      ensures Valid() && session == Newest(all, e)
      ensures session != null ==> session.lastUsed == now
      ensures forall s :: s in all && s != session ==> s.lastUsed == old(s.lastUsed)
    {
      session := Find(e);
      NewestIsFirstMatch(all, e);
      if session != null {
        session.lastUsed := now;
      }
    }

    /** CreateSession: a registered server's connection goes to the front of its row; every HASH_SIZE creations
        the stale sessions are removed, and no session that was used in the last 899 seconds. */
    method CreateSession(e: Endpoints, now: nat, registered: bool) returns (session: SnifferSession?)
      requires Valid()
      modifies this, rows, MembersOf(all)`next
      ensures Valid() && (session == null <==> !registered)
      ensures session == null ==> all == old(all) && sessionCount == old(sessionCount)
      ensures session != null ==>
                fresh(session) && session.Opened() == e && session.lastUsed == now && sessionCount == old(sessionCount) + 1
      ensures session != null ==>
                all != [] && all[0] == session && forall s :: s in all ==> s == session || s in old(all)
      ensures session != null ==> forall s :: s in old(all) && now < s.lastUsed + 900 ==> s in all
      ensures session != null ==>
                all == if sessionCount % HASH_SIZE == 0 then Without([session] + old(all), Stale([session] + old(all), now))
                       else [session] + old(all)
    {
      if !registered { return null; }
      session := new SnifferSession(e, now);
      var row := SessionHash(e);
      Prepend(row, session);
      sessionCount := sessionCount + 1;
      if sessionCount % HASH_SIZE == 0 {
        ghost var listed, stale := all, Stale(all, now);
        RemoveStaleSessions(now);
        WithoutMembers(listed, stale);
        assert listed == [session] + old(all) && session !in stale;
      }
    }

    /** session->next = SessionTable[row]; SessionTable[row] = session. */
    method Prepend(row: nat, session: SnifferSession)
      requires Valid() && row == session.Row() && session !in all
      modifies this`all, rows, session`next
      ensures Valid() && all == [session] + old(all)
    {
      assert RowOk(row);
      session.next := rows[row];
      rows[row] := session;
      ghost var was := all;
      all := [session] + all;
      forall r | 0 <= r < HASH_SIZE
        ensures RowOk(r)
      {
        assert all[1..] == was;
        RowOfMembers(was, r);
        assert old(RowOk(r));
      }
    }

    /** RemoveSession: unlinks the session if it is in this row, and leaves everything else in order. */
    method RemoveSession(session: SnifferSession, row: nat)
      requires Valid() && row < HASH_SIZE
      modifies this`all, rows, MembersOf(all)`next
      ensures Valid() && sessionCount == old(sessionCount)
      ensures all == if session.Row() == row then Without(old(all), {session}) else old(all)
    {
      assert RowOk(row);
      ghost var nodes, k := RowOf(all, row), 0;
      RowOfMembers(all, row);
      var previous: SnifferSession?, current := null, rows[row];
      while current != null
        invariant k <= |nodes| && current == NodeAt(nodes, k)
        invariant forall j :: 0 <= j < k ==> nodes[j] != session
        invariant previous == if k == 0 then null else nodes[k - 1]
        decreases |nodes| - k
      {
        if current == session {
          Unlink(row, k, previous, current);
          return;
        }
        previous := current;
        current := current.next;
        k := k + 1;
      }
      if session.Row() == row { WithoutNone(all, {session}); }
    }

    /** The relinking step of RemoveSession. */
    method Unlink(row: nat, ghost k: nat, previous: SnifferSession?, current: SnifferSession)
      requires Valid() && row < HASH_SIZE && k < |RowOf(all, row)| && current == RowOf(all, row)[k]
      requires previous == if k == 0 then null else RowOf(all, row)[k - 1]
      modifies this`all, rows, (if previous == null then {} else {previous})`next
      ensures Valid() && all == Without(old(all), {current})
    {
      assert RowOk(row);
      if previous != null {
        previous.next := current.next;
      } else {
        rows[row] := current.next;
      }
      ghost var was, nodes := all, RowOf(all, row);
      all := Without(all, {current});
      WithoutDistinct(was, {current});
      RowOfDistinct(was, row);
      RowOfMembers(was, row);
      forall r | 0 <= r < HASH_SIZE
        ensures RowOk(r)
      {
        assert old(RowOk(r));
        RowOfMembers(was, r);
        RowAfterUnlink(was, row, k, r);
      }
    }

    /** One row of RemoveStaleSessions, with the rows before it done. */
    method SweepNext(now: nat, i: nat, ghost was: seq<SnifferSession>, ghost stale: set<SnifferSession>)
      requires Valid() && i < HASH_SIZE && stale <= MembersOf(was) && MembersOf(all) <= MembersOf(was)
      requires forall s :: s in was ==> (s in stale <==> now >= s.lastUsed + CYASSL_SNIFFER_TIMEOUT)
      requires all == Without(was, Below(stale, i))
      modifies this`all, rows, MembersOf(all)`next
      ensures Valid() && MembersOf(all) <= MembersOf(old(all)) && all == Without(was, Below(stale, i + 1))
    {
      ghost var before := all;
      assert forall s :: s in all ==> s in MembersOf(was);
      SweepRow(now, i, stale);
      SweptRows(was, stale, i, before, all);
    }

    /** RemoveStaleSessions: deletes exactly the sessions not used for CYASSL_SNIFFER_TIMEOUT and keeps the rest in order. */
    method RemoveStaleSessions(now: nat)
      requires Valid()
      modifies this`all, rows, MembersOf(all)`next
      ensures Valid() && all == Without(old(all), Stale(old(all), now))
      ensures forall s :: s in all <==> s in old(all) && now < s.lastUsed + 900
    {
      ghost var was, stale := all, Stale(all, now);
      assert Below(stale, 0) == {};
      WithoutNone(all, {});
      for i := 0 to HASH_SIZE
        invariant Valid() && all == Without(was, Below(stale, i)) && MembersOf(all) <= MembersOf(was)
      {
        SweepNext(now, i, was, stale);
      }
      assert Below(stale, HASH_SIZE) == stale;
      WithoutMembers(was, stale);
    }

    /** One session of RemoveStaleSessions. */
    method SweepOne(session: SnifferSession, now: nat, i: nat, ghost tail: seq<SnifferSession>)
      returns (next: SnifferSession?)
      requires Valid() && i < HASH_SIZE && tail != [] && session == tail[0] && EndsIn(RowOf(all, i), tail)
      modifies this`all, rows, MembersOf(all)`next
      ensures Valid() && next == NodeAt(tail, 1) && EndsIn(RowOf(all, i), tail[1..])
      ensures all == Without(old(all), if now >= session.lastUsed + CYASSL_SNIFFER_TIMEOUT then {session} else {})
      ensures MembersOf(all) <= MembersOf(old(all))
    {
      TailStep(all, i, tail);
      assert RowOk(i);
      next := session.next;
      if now >= session.lastUsed + CYASSL_SNIFFER_TIMEOUT {
        RemoveSession(session, i);
      } else {
        WithoutNone(all, {});
      }
    }

    /** One row of RemoveStaleSessions. */
    method SweepRow(now: nat, i: nat, ghost stale: set<SnifferSession>)
      requires Valid() && i < HASH_SIZE
      requires forall s :: s in all ==> (s in stale <==> now >= s.lastUsed + CYASSL_SNIFFER_TIMEOUT)
      modifies this`all, rows, MembersOf(all)`next
      ensures Valid() && MembersOf(all) <= MembersOf(old(all))
      ensures all == Without(old(all), stale * MembersOf(RowOf(old(all), i)))
    {
      ghost var was, nodes, k := all, RowOf(all, i), 0;
      WithoutNone(all, stale * MembersOf(nodes[..0]));
      assert RowOk(i) && nodes[0..] == nodes;
      var session := rows[i];
      while session != null
        invariant Valid() && MembersOf(all) <= MembersOf(was)
        invariant k <= |nodes| && session == NodeAt(nodes, k) && EndsIn(RowOf(all, i), nodes[k..])
        invariant all == Without(was, stale * MembersOf(nodes[..k]))
        decreases |nodes| - k
      {
        SweptOne(was, nodes, k, stale);
        RowElement(was, i, k);
        session := SweepOne(session, now, i, nodes[k..]);
        k := k + 1;
      }
      assert nodes[..k] == nodes;
    }
  }

  /** A session is found by the client's packets and by the server's, right behind the SYN that opened it. */
  method CreateThenFind(table: Table, e: Endpoints, now: nat, later: nat)
    returns (session: SnifferSession?, client: SnifferSession?, server: SnifferSession?)
    requires table.Valid()
    modifies table, table.rows, MembersOf(table.all)`next, MembersOf(table.all)`lastUsed
    ensures session != null && fresh(session) && table.Valid()
    ensures session.client == e.src && session.server == e.dst && session.cliPort == e.srcPort && session.srvPort == e.dstPort
    ensures client == session && server == session
  {
    ghost var was := table.all;
    session := table.CreateSession(e, now, true);
    assert table.all == [session] + table.all[1..];
    NewestOfCreated(session, table.all[1..], e);
    NewestOfCreated(session, table.all[1..], Endpoints(e.dst, e.src, e.dstPort, e.srcPort));
    client := table.GetSnifferSession(e, later);
    server := table.GetSnifferSession(Endpoints(e.dst, e.src, e.dstPort, e.srcPort), later);
  }
}
