/** Cutting a byte stream into TLS records: section 6.2.1 of RFC 5246, as the sniffer does it
    in GetRecordHeader and ProcessMessage (sniffer.c). */
module RecordLayer {
  import opened Reassembly

  const RECORD_HEADER_SZ := 5

  /** MAX_RECORD_SIZE + COMP_EXTRA + MAX_MSG_EXTRA in the build without zlib whose largest hash is SHA-256. */
  const MAX_BODY := 16384 + 38 + 32

  datatype Record = Record(header: seq<byte>, body: seq<byte>)

  /** The records cut off the front of a stream, the bytes left over, and whether a malformed record stopped the cut. */
  datatype Framing = Framing(records: seq<Record>, rest: seq<byte>, bad: bool)

  /** rh->length, big-endian. */
  function BodySize(b: seq<byte>): nat
    requires |b| >= RECORD_HEADER_SZ
  {
    b[3] as int * 256 + b[4] as int
  }

  /** change_cipher_spec, alert, handshake, application_data. */
  predicate KnownType(t: byte) { 20 <= t <= 23 }

  /** The header is there and announces a body that is too long. */
  predicate BadHeader(b: seq<byte>) { |b| >= RECORD_HEADER_SZ && BodySize(b) > MAX_BODY }

  predicate HasRecord(b: seq<byte>) { |b| >= RECORD_HEADER_SZ && BodySize(b) <= |b| - RECORD_HEADER_SZ }

  function RecordSize(b: seq<byte>): nat
    requires |b| >= RECORD_HEADER_SZ
  {
    RECORD_HEADER_SZ + BodySize(b)
  }

  /** Parsing a whole stream at once. */
  function Frame(b: seq<byte>): Framing {
    if BadHeader(b) then Framing([], [], true)
    else if !HasRecord(b) then Framing([], b, false)
    else if !KnownType(b[0]) then Framing([], [], true)
    else Push(FirstRecord(b), Frame(b[RecordSize(b)..]))
  }

  function FirstRecord(b: seq<byte>): Record
    requires HasRecord(b)
  {
    Record(b[..RECORD_HEADER_SZ], b[RECORD_HEADER_SZ..RecordSize(b)])
  }

  function Push(r: Record, f: Framing): Framing { f.(records := [r] + f.records) }

  /** Parsing goes on where an earlier parse stopped. */
  function Resume(f: Framing, more: seq<byte>): Framing {
    if f.bad then f else var g := Frame(f.rest + more); g.(records := f.records + g.records)
  }

  lemma PushResume(r: Record, f: Framing, more: seq<byte>)
    ensures Resume(Push(r, f), more) == Push(r, Resume(f, more))
  {
  }

  /** More bytes change nothing about a record that is complete already. */
  lemma FirstRecordStays(a: seq<byte>, b: seq<byte>)
    requires HasRecord(a)
    ensures HasRecord(a + b) && RecordSize(a + b) == RecordSize(a) && FirstRecord(a + b) == FirstRecord(a)
    ensures (a + b)[RecordSize(a)..] == a[RecordSize(a)..] + b
  {
  }

  /** Framing does not depend on where the stream is cut: parsing the first piece, and then its
      leftover with the next piece, is parsing both pieces at once. */
  lemma {:induction false} FrameIsChunkingIndependent(a: seq<byte>, b: seq<byte>)
    ensures Frame(a + b) == Resume(Frame(a), b)
    decreases |a|
  {
    if BadHeader(a) {
    } else if !HasRecord(a) {
    } else if KnownType(a[0]) {
      var rest := a[RecordSize(a)..];
      FirstRecordStays(a, b);
      FrameIsChunkingIndependent(rest, b);
      PushResume(FirstRecord(a), Frame(rest), b);
    }
  }

  function Concat(chunks: seq<seq<byte>>): seq<byte> { if chunks == [] then [] else chunks[0] + Concat(chunks[1..]) }

  /** Chunk after chunk, each parsed together with what the ones before it left over. */
  function Fed(f: Framing, chunks: seq<seq<byte>>): Framing
    decreases |chunks|
  {
    if chunks == [] then f else Fed(Resume(f, chunks[0]), chunks[1..])
  }

  /** However the stream is cut, the records handed out and the leftover are those of the whole stream. */
  lemma {:induction false} AnyChunking(a: seq<byte>, chunks: seq<seq<byte>>)
    ensures Fed(Frame(a), chunks) == Frame(a + Concat(chunks))
    decreases |chunks|
  {
    if chunks == [] {
      assert a + Concat(chunks) == a;
    } else {
      FrameIsChunkingIndependent(a, chunks[0]);
      AnyChunking(a + chunks[0], chunks[1..]);
      assert a + chunks[0] + Concat(chunks[1..]) == a + Concat(chunks);
    }
  }

  /** The leftover is never a complete record and never grows past one. */
  lemma {:induction false} LeftoverIsIncomplete(b: seq<byte>)
    ensures !Frame(b).bad ==> !HasRecord(Frame(b).rest) && |Frame(b).rest| < RECORD_HEADER_SZ + MAX_BODY
    ensures Frame(b).bad ==> Frame(b).rest == []
    decreases |b|
  {
    if !BadHeader(b) && HasRecord(b) && KnownType(b[0]) {
      LeftoverIsIncomplete(b[RecordSize(b)..]);
    }
  }

  predicate WellFormedRecord(r: Record) {
    |r.header| == RECORD_HEADER_SZ && KnownType(r.header[0]) &&
    BodySize(r.header) == |r.body| <= MAX_BODY
  }

  function Encode(records: seq<Record>): seq<byte> {
    if records == [] then [] else records[0].header + records[0].body + Encode(records[1..])
  }

  /** The first record of an encoded stream. */
  lemma FirstEncoded(r: Record, rest: seq<byte>)
    requires WellFormedRecord(r)
    ensures var b := r.header + r.body + rest;
      HasRecord(b) && !BadHeader(b) && KnownType(b[0]) && FirstRecord(b) == r && b[RecordSize(b)..] == rest
  {
    var b := r.header + r.body + rest;
    assert b[..RECORD_HEADER_SZ] == r.header;
  }

  /** Parsing undoes encoding: any list of well-formed records comes back, and an incomplete tail is left over. */
  lemma {:induction false} FrameUndoesEncode(records: seq<Record>, tail: seq<byte>)
    requires forall r :: r in records ==> WellFormedRecord(r)
    requires !BadHeader(tail) && !HasRecord(tail)
    ensures Frame(Encode(records) + tail) == Framing(records, tail, false)
  {
    if records == [] {
      assert Encode(records) + tail == tail;
    } else {
      var r, rest := records[0], Encode(records[1..]) + tail;
      assert r in records;
      assert Encode(records) + tail == r.header + r.body + rest;
      FirstEncoded(r, rest);
      FrameUndoesEncode(records[1..], tail);
    }
  }

  lemma EncodeFirst(r: Record, records: seq<Record>, rest: seq<byte>)
    ensures Encode([r] + records) + rest == r.header + r.body + (Encode(records) + rest)
  {
    assert ([r] + records)[1..] == records;
  }

  /** Encoding undoes parsing: no byte is lost, added or moved, and every record handed out is well formed. */
  lemma {:induction false} EncodeUndoesFrame(b: seq<byte>)
    requires !Frame(b).bad
    ensures Encode(Frame(b).records) + Frame(b).rest == b
    ensures forall r :: r in Frame(b).records ==> WellFormedRecord(r)
    decreases |b|
  {
    if HasRecord(b) {
      var rest := b[RecordSize(b)..];
      EncodeUndoesFrame(rest);
      var r, f := FirstRecord(b), Frame(rest);
      EncodeFirst(r, f.records, f.rest);
      assert b == r.header + r.body + rest;
    }
  }

  // ---------------------------------------------------------------- records as the protocol spells them

  /** TLSPlaintext of section 6.2.1 of RFC 5246. */
  datatype Plaintext = Plaintext(typ: byte, major: byte, minor: byte, fragment: seq<byte>)

  /** The five bytes of its header: type, version, and the length in two bytes, the higher one first. */
  function Spelled5(r: Plaintext): seq<byte>
    requires |r.fragment| < 0x10000
  {
    [r.typ, r.major, r.minor, |r.fragment| / 256, |r.fragment| % 256]
  }

  function Spelled(r: Plaintext): seq<byte>
    requires |r.fragment| < 0x10000
  {
    Spelled5(r) + r.fragment
  }

  function AllSpelled(rs: seq<Plaintext>): seq<byte>
    requires forall r :: r in rs ==> |r.fragment| < 0x10000
  {
    if rs == [] then [] else Spelled(rs[0]) + AllSpelled(rs[1..])
  }

  /** change_cipher_spec to application_data, and not longer than the sniffer's limit. */
  predicate Accepted(r: Plaintext) { 20 <= r.typ <= 23 && |r.fragment| <= 16454 }

  predicate AllAccepted(rs: seq<Plaintext>) { forall r :: r in rs ==> Accepted(r) }

  /** These records are those, fragment for fragment. */
  predicate Delivers(records: seq<Record>, rs: seq<Plaintext>) {
    |records| == |rs| && forall i :: 0 <= i < |rs| ==> records[i].body == rs[i].fragment && DeliversHeader(records[i], rs[i])
  }

  predicate DeliversHeader(record: Record, r: Plaintext) {
    |r.fragment| < 0x10000 && record.header == [r.typ, r.major, r.minor, |r.fragment| / 256, |r.fragment| % 256]
  }

  /** What the first record of a stream does to the framing. */
  lemma FirstSpelled(r: Plaintext, rest: seq<byte>)
    requires Accepted(r)
    ensures Frame(Spelled(r) + rest) == Push(Record(Spelled5(r), r.fragment), Frame(rest))
  {
    var b := Spelled(r) + rest;
    assert b[0] == r.typ && b[3] as int * 256 + b[4] as int == |r.fragment|;
    assert b[..RECORD_HEADER_SZ] == Spelled5(r) && b[RECORD_HEADER_SZ..RecordSize(b)] == r.fragment;
    assert b[RecordSize(b)..] == rest;
  }

  /** A piece of a record, short of its last byte, is kept. */
  lemma PieceWaits(r: Plaintext, n: nat)
    requires Accepted(r) && n < |Spelled(r)|
    ensures Frame(Spelled(r)[..n]) == Framing([], Spelled(r)[..n], false)
  {
    var b := Spelled(r)[..n];
    if n >= RECORD_HEADER_SZ { assert b[3] as int * 256 + b[4] as int == |r.fragment|; }
  }

  function AsRecords(rs: seq<Plaintext>): (records: seq<Record>)
    requires forall r :: r in rs ==> |r.fragment| < 0x10000
    ensures |records| == |rs|
  {
    if rs == [] then [] else [Record(Spelled5(rs[0]), rs[0].fragment)] + AsRecords(rs[1..])
  }

  lemma {:induction false} AsRecordsDeliver(rs: seq<Plaintext>)
    requires forall r :: r in rs ==> |r.fragment| < 0x10000
    ensures Delivers(AsRecords(rs), rs)
    decreases |rs|
  {
    if rs != [] {
      assert rs[0] in rs;
      AsRecordsDeliver(rs[1..]);
    }
  }

  lemma {:induction false} SpelledFrame(rs: seq<Plaintext>, tail: seq<byte>)
    requires AllAccepted(rs)
    ensures var g := Frame(tail); Frame(AllSpelled(rs) + tail) == Framing(AsRecords(rs) + g.records, g.rest, g.bad)
    decreases |rs|
  {
    if rs == [] {
      assert AllSpelled(rs) + tail == tail;
      assert AsRecords(rs) + Frame(tail).records == Frame(tail).records;
    } else {
      RestSpelled(rs);
      SpelledFrame(rs[1..], tail);
      FirstSpelled(rs[0], AllSpelled(rs[1..]) + tail);
      Assoc(Spelled(rs[0]), AllSpelled(rs[1..]), tail);
      Assoc([Record(Spelled5(rs[0]), rs[0].fragment)], AsRecords(rs[1..]), Frame(tail).records);
    }
  }

  lemma RestSpelled(rs: seq<Plaintext>)
    requires rs != [] && AllAccepted(rs)
    ensures Accepted(rs[0]) && AllAccepted(rs[1..])
    ensures AllSpelled(rs) == Spelled(rs[0]) + AllSpelled(rs[1..])
    ensures AsRecords(rs) == [Record(Spelled5(rs[0]), rs[0].fragment)] + AsRecords(rs[1..])
  {
    assert rs[0] in rs && forall q :: q in rs[1..] ==> q in rs;
  }

  lemma Assoc<T>(a: seq<T>, b: seq<T>, c: seq<T>)
    ensures a + b + c == a + (b + c)
  {
  }

  /** Any records of known types, spelled as the protocol says and followed by a piece of one more, are cut into
      exactly these records, and the piece is kept. */
  lemma SpelledRecordsComeBack(rs: seq<Plaintext>, last: Plaintext, n: nat)
    requires AllAccepted(rs) && Accepted(last) && n < |Spelled(last)|
    ensures var f := Frame(AllSpelled(rs) + Spelled(last)[..n]);
      Delivers(f.records, rs) && f.rest == Spelled(last)[..n] && !f.bad
  {
    PieceWaits(last, n);
    SpelledFrame(rs, Spelled(last)[..n]);
    AsRecordsDeliver(rs);
    assert AsRecords(rs) + [] == AsRecords(rs);
  }

  /** A record of any other type is fatal once it is complete, and one that is too long as soon as its header is there;
      the records in front of it are handed out. */
  lemma OthersAreFatal(rs: seq<Plaintext>, r: Plaintext, n: nat, more: seq<byte>)
    requires AllAccepted(rs) && |r.fragment| < 0x10000 && !Accepted(r)
    requires n == if |r.fragment| > 16454 then 5 else 5 + |r.fragment|
    ensures var f := Frame(AllSpelled(rs) + (Spelled(r)[..n] + more));
      Delivers(f.records, rs) && f.rest == [] && f.bad
  {
    var b := Spelled(r)[..n] + more;
    assert b[0] == r.typ && b[3] as int * 256 + b[4] as int == |r.fragment|;
    assert Frame(b) == Framing([], [], true);
    SpelledFrame(rs, b);
    AsRecordsDeliver(rs);
    assert AsRecords(rs) + [] == AsRecords(rs);
  }
}
