/** The sniffer's session code for one direction, step by step: AdjustSequence, CheckPreRecord,
    HaveMoreInput and ProcessMessage (sniffer.c), each proved against the functions of module Stream. */
module Session {
  import opened Reassembly
  import opened RecordLayer
  import opened Stream

  /** sslFrame: a position in the captured packet or in the input buffer. */
  datatype Cursor = InPacket(at: nat) | InBuffer(at: nat)

  /** The fields of a SnifferSession that belong to one direction. */
  class Half {
    const inputBuffer: array<byte>
    const list: ReassemblyList
    var length: nat               // inputBuffer.length
    var expected: nat             // cliExpected or srvExpected
    var records: seq<Record>      // what the message handlers were given
    var fatal: bool               // flags.fatalError

    ghost predicate Valid()
      reads this, inputBuffer, list, set n | n in list.nodes
    {
      && list.Valid()
      && length <= inputBuffer.Length && inputBuffer.Length >= MAX_INPUT_SZ
    }

    ghost function State(): Flow
      reads this, inputBuffer, list
    {
      var kept := if fatal || length > inputBuffer.Length then [] else inputBuffer[..length];
      Flow(expected, list.Contents(), kept, records, fatal)
    }

    constructor (bufferSize: nat)
      requires bufferSize >= MAX_INPUT_SZ
      ensures Valid() && State() == INITIAL && inputBuffer.Length == bufferSize
    {
      inputBuffer := new byte[bufferSize](_ => 0);
      list := new ReassemblyList();
      length, expected, records, fatal := 0, 1, [], false;
    }

    /** XMEMCPY(&inputBuffer[at], data, |data|). */
    method CopyIn(at: nat, data: seq<byte>)
      requires at + |data| <= inputBuffer.Length
      modifies inputBuffer
      ensures inputBuffer[..at + |data|] == old(inputBuffer[..at]) + data
    {
      forall i | 0 <= i < |data| {
        inputBuffer[at + i] := data[i];
      }
    }

    /** The bytes from a cursor on. */
    ghost predicate InRange(packet: seq<byte>, c: Cursor, n: nat) {
      c.at + n <= if c.InPacket? then |packet| else inputBuffer.Length
    }

    function Bytes(packet: seq<byte>, c: Cursor, n: nat): seq<byte>
      requires InRange(packet, c, n)
      reads inputBuffer
    {
      if c.InPacket? then packet[c.at..c.at + n] else inputBuffer[c.at..c.at + n]
    }

    /** One round of HaveMoreInput: copies the front run behind the buffered bytes and unlinks its node. */
    method TakeFront()
      requires Valid() && !fatal && list.front != null
      requires list.front.end - list.front.begin + 1 <= inputBuffer.Length - length
      modifies this`length, this`expected, inputBuffer, list
      ensures Valid() && list.nodes == old(list.nodes)[1..]
      ensures var was, h := old(State()), old(State()).held[0];
        State() == was.(held := was.held[1..], expected := was.expected + |h.data|, buffer := was.buffer + h.data)
    {
      var packetLen := list.front.end - list.front.begin + 1;
      CopyIn(length, list.front.data);
      length := length + packetLen;
      expected := expected + packetLen;
      list.PopFront();
    }

    /** HaveMoreInput. */
    method HaveMoreInput() returns (moreInput: bool)
      requires Valid() && !fatal
      modifies this`length, this`expected, inputBuffer, list
      ensures Valid() && (forall n :: n in list.nodes ==> n in old(list.nodes))
      ensures State() == Drain(old(State()), inputBuffer.Length)
      ensures moreInput <==> |State().held| < |old(State()).held|
    {
      moreInput := false;
      ghost var goal := Drain(State(), inputBuffer.Length);
      while list.front != null && list.front.begin == expected
        invariant Valid() && (forall n :: n in list.nodes ==> n in old(list.nodes))
        invariant goal == Drain(State(), inputBuffer.Length)
        invariant |list.nodes| <= |old(list.nodes)|
        invariant moreInput <==> |list.nodes| < |old(list.nodes)|
        decreases |list.nodes|
      {
        var room := inputBuffer.Length - length;
        var packetLen := list.front.end - list.front.begin + 1;
        if packetLen <= room {
          TakeFront();
          moreInput := true;
        } else {
          break;
        }
      }
    }

    /** The partial-input branch of ProcessMessage: keep the leftover, then see whether the list has more. */
    method StorePartial(packet: seq<byte>, sslBegin: Cursor, sslFrame: Cursor, sslBytes: nat) returns (moreInput: bool)
      requires Valid() && !fatal && InRange(packet, sslFrame, sslBytes) && sslBytes <= inputBuffer.Length
      requires sslFrame == sslBegin && length != 0 ==> sslFrame == InBuffer(0) && sslBytes == length
      modifies this`length, this`expected, inputBuffer, list
      ensures Valid() && (forall n :: n in list.nodes ==> n in old(list.nodes))
      ensures State() == Drain(old(State().(buffer := Bytes(packet, sslFrame, sslBytes))), inputBuffer.Length)
      ensures moreInput <==> |State().held| < |old(State()).held|
    {
      if length == 0 || sslBegin != sslFrame {
        var leftover := Bytes(packet, sslFrame, sslBytes);
        CopyIn(0, leftover);
        length := sslBytes;
        assert inputBuffer[..length] == leftover;
      }
      moreInput := HaveMoreInput();
    }

    /** The bytes at the cursor are what is still to be parsed of the state. */
    ghost function Ahead(packet: seq<byte>, c: Cursor, n: nat): Flow
      requires InRange(packet, c, n)
      reads this, inputBuffer, list
    {
      State().(buffer := Bytes(packet, c, n))
    }

    /** The cursor is in the packet while nothing is buffered, at the start of exactly what is buffered, or past its own start. */
    ghost predicate CursorOk(packet: seq<byte>, sslBegin: Cursor, sslFrame: Cursor, sslBytes: nat)
      reads this
    {
      && InRange(packet, sslFrame, sslBytes)
      && (sslFrame.InPacket? ==> sslBegin.InPacket? && length == 0)
      && (sslFrame == sslBegin && length != 0 ==> sslFrame == InBuffer(0) && sslBytes == length)
    }

    /** A malformed record: SetError(..., FATAL_ERROR_STATE). */
    method Reject(packet: seq<byte>, sslFrame: Cursor, sslBytes: nat)
      requires Valid() && InRange(packet, sslFrame, sslBytes)
      requires var input := Bytes(packet, sslFrame, sslBytes);
        BadHeader(input) || (HasRecord(input) && !KnownType(input[0]))
      modifies this`fatal
      ensures Valid() && State() == Process(old(Ahead(packet, sslFrame, sslBytes)), inputBuffer.Length)
    {
      ProcessBad(Ahead(packet, sslFrame, sslBytes), inputBuffer.Length);
      fatal := true;
    }

    /** An incomplete record: keep it and go on only if the list adds to it. */
    method Wait(packet: seq<byte>, sslBegin: Cursor, sslFrame: Cursor, sslBytes: nat) returns (moreInput: bool)
      requires Valid() && !fatal && CursorOk(packet, sslBegin, sslFrame, sslBytes)
      requires var input := Bytes(packet, sslFrame, sslBytes); !BadHeader(input) && !HasRecord(input)
      modifies this`length, this`expected, inputBuffer, list
      ensures Valid() && (forall n :: n in list.nodes ==> n in old(list.nodes))
      ensures |State().held| < |old(State()).held| || !moreInput
      ensures Process(old(Ahead(packet, sslFrame, sslBytes)), inputBuffer.Length) ==
              if moreInput then Process(State(), inputBuffer.Length) else State()
    {
      ProcessPartial(Ahead(packet, sslFrame, sslBytes), inputBuffer.Length);
      moreInput := StorePartial(packet, sslBegin, sslFrame, sslBytes);
    }

    /** Everything buffered is used up: go on only with what the list adds. */
    method UseUp() returns (moreInput: bool)
      requires Valid() && !fatal
      modifies this`length, this`expected, inputBuffer, list
      ensures Valid() && (forall n :: n in list.nodes ==> n in old(list.nodes))
      ensures |list.nodes| < |old(list.nodes)| || !moreInput
      ensures Process(old(State().(buffer := [])), inputBuffer.Length) ==
              if moreInput then Process(State(), inputBuffer.Length) else State()
    {
      length := 0;
      ProcessPartial(State(), inputBuffer.Length);
      moreInput := HaveMoreInput();
    }

    /** A complete record: hand it out and move to the bytes behind it. */
    method HandOut(packet: seq<byte>, sslFrame: Cursor, sslBytes: nat) returns (next: Cursor, left: nat)
      requires Valid() && InRange(packet, sslFrame, sslBytes) && HasRecord(Bytes(packet, sslFrame, sslBytes))
      modifies this`records
      ensures var input := Bytes(packet, sslFrame, sslBytes);
        && next == (if sslFrame.InPacket? then InPacket(sslFrame.at + RecordSize(input)) else InBuffer(sslFrame.at + RecordSize(input)))
        && left == sslBytes - RecordSize(input) && InRange(packet, next, left)
        && Ahead(packet, next, left) ==
           old(State()).(records := old(records) + [FirstRecord(input)], buffer := input[RecordSize(input)..])
    {
      var input := Bytes(packet, sslFrame, sslBytes);
      var recordEnd := RecordSize(input);
      records := records + [FirstRecord(input)];
      left := sslBytes - recordEnd;
      next := if sslFrame.InPacket? then InPacket(sslFrame.at + recordEnd) else InBuffer(sslFrame.at + recordEnd);
      assert Bytes(packet, next, left) == input[recordEnd..];
    }

    /** A complete record and what follows it: the next record, or what the list adds, or nothing. */
    method NextRecord(packet: seq<byte>, sslBegin: Cursor, sslFrame: Cursor, sslBytes: nat)
      returns (again: bool, next: Cursor, left: nat)
      requires Valid() && !fatal && CursorOk(packet, sslBegin, sslFrame, sslBytes)
      requires sslBegin.InBuffer? ==> sslBegin.at == 0
      requires var input := Bytes(packet, sslFrame, sslBytes);
        !BadHeader(input) && HasRecord(input) && KnownType(input[0])
      modifies this`length, this`expected, this`records, inputBuffer, list
      ensures Valid() && (forall n :: n in list.nodes ==> n in old(list.nodes))
      ensures again ==> CursorOk(packet, sslBegin, next, left)
      ensures again ==> |list.nodes| < |old(list.nodes)| || (|list.nodes| == |old(list.nodes)| && left < sslBytes)
      ensures Process(old(Ahead(packet, sslFrame, sslBytes)), inputBuffer.Length) ==
              if again then Process(Ahead(packet, next, left), inputBuffer.Length) else State()
    {
      ProcessRecord(Ahead(packet, sslFrame, sslBytes), inputBuffer.Length);
      again := true;
      next, left := HandOut(packet, sslFrame, sslBytes);
      if left == 0 {
        assert Ahead(packet, next, left) == State().(buffer := []);
        again := UseUp();
        next, left := InBuffer(0), length;
      }
    }

    /** From the label doMessage to the next jump back to it, or to the return. */
    method DoMessage(packet: seq<byte>, sslBegin: Cursor, sslFrame: Cursor, sslBytes: nat)
      returns (again: bool, next: Cursor, left: nat)
      requires Valid() && !fatal && CursorOk(packet, sslBegin, sslFrame, sslBytes)
      requires sslBegin.InBuffer? ==> sslBegin.at == 0
      modifies this, inputBuffer, list
      ensures Valid() && (forall n :: n in list.nodes ==> n in old(list.nodes))
      ensures again ==> !fatal && CursorOk(packet, sslBegin, next, left)
      ensures again ==> |list.nodes| < |old(list.nodes)| || (|list.nodes| == |old(list.nodes)| && left < sslBytes)
      ensures Process(old(Ahead(packet, sslFrame, sslBytes)), inputBuffer.Length) ==
              if again then Process(Ahead(packet, next, left), inputBuffer.Length) else State()
    {
      again, next, left := false, sslFrame, sslBytes;
      var input := Bytes(packet, sslFrame, sslBytes);
      if sslBytes >= RECORD_HEADER_SZ && BodySize(input) > MAX_BODY {
        Reject(packet, sslFrame, sslBytes);
      } else if sslBytes < RECORD_HEADER_SZ || BodySize(input) > sslBytes - RECORD_HEADER_SZ {
        again := Wait(packet, sslBegin, sslFrame, sslBytes);
        next, left := InBuffer(0), length;
      } else if !KnownType(input[0]) {
        Reject(packet, sslFrame, sslBytes);
      } else {
        again, next, left := NextRecord(packet, sslBegin, sslFrame, sslBytes);
      }
    }

    /** ProcessMessage, one record at a time. Every message handler is taken to consume its record's body. */
    method ProcessMessage(packet: seq<byte>, sslBegin: Cursor, n: nat)
      requires Valid() && !fatal && InRange(packet, sslBegin, n)
      requires if sslBegin.InPacket? then length == 0 else sslBegin.at == 0 && n == length
      modifies this, inputBuffer, list
      ensures Valid() && (forall n :: n in list.nodes ==> n in old(list.nodes))
      ensures State() == Process(old(Ahead(packet, sslBegin, n)), inputBuffer.Length)
    {
      var sslFrame, sslBytes: nat := sslBegin, n;
      var again := true;
      while again
        invariant Valid() && (forall n :: n in list.nodes ==> n in old(list.nodes))
        invariant again ==> !fatal && CursorOk(packet, sslBegin, sslFrame, sslBytes)
        invariant Process(old(Ahead(packet, sslBegin, n)), inputBuffer.Length) ==
                  if again then Process(Ahead(packet, sslFrame, sslBytes), inputBuffer.Length) else State()
        decreases again, |list.nodes|, sslBytes
      {
        again, sslFrame, sslBytes := DoMessage(packet, sslBegin, sslFrame, sslBytes);
      }
    }

    /** The overlap branch of AdjustSequence against the front of the list: how many of the unseen bytes go on,
        and what is added behind the front. `after` is the byte of memory that follows the frame. */
    method TrimOverlap(sslFrame: seq<byte>, after: byte) returns (sslBytes: nat)
      requires Valid() && FrontAhead(State()) && expected + |sslFrame| < WORD32_LIMIT
      modifies list, set n | n in list.nodes
      ensures Valid() && (forall n :: n in list.nodes ==> n in old(list.nodes) || fresh(n))
      ensures sslBytes <= |sslFrame| && sslFrame[..sslBytes] == Trimmed(old(State()).held, expected, sslFrame)
      ensures State() == old(State()).(held := Overhang(old(State()).held, expected, sslFrame, after))
    {
      sslBytes := |sslFrame|;
      if list.front != null {
        var newEnd := expected + sslBytes;
        var begin, end := list.front.begin, list.front.end;
        if newEnd > begin {
          sslBytes := sslBytes - (newEnd - begin);
        }
        if newEnd > end {
          var memory := sslFrame + [after];
          assert memory[end - expected + 1..] == sslFrame[end + 1 - expected..] + [after];
          list.Add(end + 1, memory[end - expected + 1..]);
        }
      }
    }

    /** The overlap branch of AdjustSequence. */
    method Overlap(start: nat, sslFrame: seq<byte>, after: byte) returns (frame: seq<byte>)
      requires Valid() && FrontAhead(State()) && start < expected < start + |sslFrame| < WORD32_LIMIT
      modifies list, set n | n in list.nodes
      ensures Valid() && (forall n :: n in list.nodes ==> n in old(list.nodes) || fresh(n))
      ensures var was, unseen := old(State()), sslFrame[expected - start..];
        && frame == Trimmed(was.held, expected, unseen)
        && State() == was.(held := Overhang(was.held, expected, unseen, after))
    {
      frame := sslFrame[expected - start..];
      var sslBytes := TrimOverlap(frame, after);
      frame := frame[..sslBytes];
    }

    /** AdjustSequence, for a segment without FIN. */
    method AdjustSequence(start: nat, sslFrame: seq<byte>, after: byte) returns (verdict: Verdict)
      requires Valid() && Defined(State(), Packet(start, sslFrame, after))
      requires start + |sslFrame| < WORD32_LIMIT
      modifies this`expected, list, set n | n in list.nodes
      ensures Valid() && (forall n :: n in list.nodes ==> n in old(list.nodes) || fresh(n))
      ensures (State(), verdict) == Adjust(old(State()), Packet(start, sslFrame, after))
    {
      var frame := sslFrame;
      if start < expected {
        if start + |sslFrame| > expected {
          frame := Overlap(start, sslFrame, after);
        } else {
          return Stop;
        }
      } else if start > expected {
        if |sslFrame| > 0 {
          list.Add(start, sslFrame);
          return Stop;
        }
      }
      expected := expected + |frame|;
      return Continue(frame);
    }

    /** The partial-input part of CheckPreRecord: the record layer reads the frame where it is, or behind what is
        buffered. The room test never asks for a larger buffer here. */
    method CheckPreRecord(sslFrame: seq<byte>) returns (begin: Cursor, sslBytes: nat)
      requires Valid() && !fatal && length + |sslFrame| <= inputBuffer.Length
      modifies this`length, inputBuffer
      ensures Valid() && InRange(sslFrame, begin, sslBytes)
      ensures if begin.InPacket? then length == 0 else begin.at == 0 && sslBytes == length
      ensures Ahead(sslFrame, begin, sslBytes) == old(State().(buffer := State().buffer + sslFrame))
    {
      if length > 0 {
        CopyIn(length, sslFrame);
        length := length + |sslFrame|;
        return InBuffer(0), length;
      }
      assert sslFrame[0..|sslFrame|] == [] + sslFrame;
      return InPacket(0), |sslFrame|;
    }

    /** One captured data segment: AdjustSequence, then CheckPreRecord, then ProcessMessage. */
    method DecodeSegment(start: nat, sslFrame: seq<byte>, after: byte)
      requires Valid() && (fatal || Defined(State(), Packet(start, sslFrame, after)))
      requires start + |sslFrame| < WORD32_LIMIT
      requires length + |sslFrame| <= inputBuffer.Length
      modifies this, inputBuffer, list, set n | n in list.nodes
      ensures Valid() && (forall n :: n in list.nodes ==> n in old(list.nodes) || fresh(n))
      ensures State() == Decode(old(State()), Packet(start, sslFrame, after), inputBuffer.Length)
    {
      if fatal { return; }
      var verdict := AdjustSequence(start, sslFrame, after);
      if verdict.Stop? || verdict.data == [] { return; }
      var begin, sslBytes := CheckPreRecord(verdict.data);
      ProcessMessage(verdict.data, begin, sslBytes);
    }
  }
}
