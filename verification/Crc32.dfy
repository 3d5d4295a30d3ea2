/** crc32 (mkimage/crc32.c): the table-driven loop is polynomial division, composes over concatenation and tells
    apart messages that differ in a burst of at most 32 bits. */
module Crc32 {
  import opened CrcTable
  import opened CrcPoly
  import opened CrcBits

  // ---------------------------------------------------------------- the program

  function TableStep(s: bv32, b: bv8): bv32 {
    TableSize();
    TABLE[((s ^ b as bv32) & 0xFF) as bv8 as int] ^ (s >> 8)
  }

  /** f applied to every element in turn. */
  function Fold<S, A>(f: (S, A) -> S, s: S, m: seq<A>): S
    decreases |m|
  {
    if m == [] then s else Fold(f, f(s, m[0]), m[1..])
  }

  /** crc32 as a function. */
  function Crc(crc: bv32, m: seq<bv8>): bv32 { Fold(TableStep, crc ^ 0xFFFFFFFF, m) ^ 0xFFFFFFFF }

  /** crc32: `size` bytes from the start of the buffer. */
  method Crc32(crc: bv32, buf: array<bv8>, size: nat) returns (r: bv32)
    requires size <= buf.Length
    ensures r == Crc(crc, buf[..size])
  {
    r := Loop(TableStep, crc ^ 0xFFFFFFFF, buf, size);
    r := r ^ 0xFFFFFFFF;
  }

  /** Its loop: `step` is the assignment in the body. */
  method Loop<S>(step: (S, bv8) -> S, start: S, buf: array<bv8>, size: nat) returns (r: S)
    requires size <= buf.Length
    ensures r == Fold(step, start, buf[..size])
  {
    r := start;
    var p, left := 0, size;
    while left > 0
      invariant p + left == size
      invariant Fold(step, start, buf[..size]) == Fold(step, r, buf[p..size])
    {
      left := left - 1;
      FoldNext(step, r, buf[p..size], buf[p], buf[p + 1..size]);
      r := step(r, buf[p]);
      p := p + 1;
    }
  }

  lemma FoldNext<S, A>(f: (S, A) -> S, s: S, m: seq<A>, first: A, rest: seq<A>)
    requires m == [first] + rest
    ensures Fold(f, s, m) == Fold(f, f(s, first), rest)
  {
    assert m[1..] == rest;
  }

  lemma {:induction false} FoldAppend<S, A>(f: (S, A) -> S, s: S, a: seq<A>, b: seq<A>)
    ensures Fold(f, s, a + b) == Fold(f, Fold(f, s, a), b)
    decreases |a|
  {
    if a == [] {
      assert a + b == b;
    } else {
      assert (a + b)[1..] == a[1..] + b;
      FoldAppend(f, f(s, a[0]), a[1..], b);
    }
  }

  lemma Uncomplement(x: bv32)
    ensures (x ^ 0xFFFFFFFF) ^ 0xFFFFFFFF == x
  {
  }

  /** crc32 taken apart: the register before and after the loop. */
  lemma CrcParts(c: bv32, m: seq<bv8>) returns (s: bv32, f: bv32, r: bv32)
    ensures s == c ^ 0xFFFFFFFF && f == Fold(TableStep, s, m) && r == f ^ 0xFFFFFFFF && r == Crc(c, m)
  {
    s := c ^ 0xFFFFFFFF;
    f := Fold(TableStep, s, m);
    r := f ^ 0xFFFFFFFF;
  }

  lemma CrcFrom(r: bv32, f: bv32, b: seq<bv8>, f': bv32, r': bv32)
    requires r ^ 0xFFFFFFFF == f && f' == Fold(TableStep, f, b) && r' == f' ^ 0xFFFFFFFF
    ensures Crc(r, b) == r'
  {
  }

  /** A CRC can be continued: the result for a prefix is the start value for the rest. */
  lemma Composes(c: bv32, a: seq<bv8>, b: seq<bv8>)
    ensures Crc(Crc(c, a), b) == Crc(c, a + b)
  {
    var s, f, r := CrcParts(c, a);
    var s', f', r' := CrcParts(c, a + b);
    Uncomplement(f);
    FoldAppend(TableStep, s, a, b);
    CrcFrom(r, f, b, f', r');
  }

  // ---------------------------------------------------------------- the machine word

  function Add(x: bv32, y: bv32): bv32 { x ^ y }
  function Low(s: bv32): bool { s & 1 == 1 }
  function Down(s: bv32): bv32 { s >> 1 }

  function Join(b: bool, s: bv32): bv32 { (s << 1) | (if b then 1 else 0) }

  const WORD: Machine<bv32> := Machine(Add, Low, Down, Join, 0, 0xEDB88320)

  lemma XorDown(x: bv32, y: bv32)
    ensures (x ^ y) >> 1 == (x >> 1) ^ (y >> 1)
  {
  }

  lemma XorLow(x: bv32, y: bv32)
    ensures ((x ^ y) & 1 == 1) == ((x & 1 == 1) != (y & 1 == 1))
  {
  }

  lemma JoinParts(s: bv32)
    ensures ((s >> 1) << 1) | (if s & 1 == 1 then 1 else 0) == s
  {
  }

  lemma EightDown(s: bv32)
    ensures s >> 1 >> 1 >> 1 >> 1 >> 1 >> 1 >> 1 >> 1 == s >> 8
  {
  }

  lemma Shifted8(s: bv32)
    ensures Shifted(WORD, s, 8) == s >> 8
  {
    EightDown(s);
  }

  lemma FourBytes(s: bv32, a: bv32, b: bv32, c: bv32)
    requires a == s >> 8 && b == a >> 8 && c == b >> 8
    ensures c >> 8 == 0
  {
  }

  lemma AllOut(s: bv32)
    ensures Byte3(WORD, Shifted(WORD, s, 8)) == 0
  {
    var a := s >> 8; var b := a >> 8; var c := b >> 8;
    Shifted8(s);
    Shifted8(a);
    Shifted8(b);
    Shifted8(c);
    FourBytes(s, a, b, c);
  }

  lemma PolyBytes()
    ensures LowBits(WORD, 0xEDB88320, 8) == [false, false, false, false, false, true, false, false]
    ensures LowBits(WORD, 0xEDB883, 8) == [true, true, false, false, false, false, false, true]
    ensures LowBits(WORD, 0xEDB8, 8) == [false, false, false, true, true, true, false, true]
    ensures LowBits(WORD, 0xED, 8) == [true, false, true, true, false, true, true, true]
  {
  }

  lemma PolyShifts()
    ensures Shifted(WORD, 0xEDB88320, 8) == 0xEDB883 && Shifted(WORD, 0xEDB883, 8) == 0xEDB8 && Shifted(WORD, 0xEDB8, 8) == 0xED
  {
    Shifted8(0xEDB88320);
    Shifted8(0xEDB883);
    Shifted8(0xEDB8);
  }

  lemma PolyJoined()
    ensures LowBits(WORD, 0xEDB88320, 32) ==
      LowBits(WORD, 0xEDB88320, 8) + LowBits(WORD, 0xEDB883, 8) + LowBits(WORD, 0xEDB8, 8) + LowBits(WORD, 0xED, 8)
  {
    PolyShifts();
    LowBitsSplit(WORD, 0xEDB88320, 8, 24);
    LowBitsSplit(WORD, 0xEDB883, 8, 16);
    LowBitsSplit(WORD, 0xEDB8, 8, 8);
  }

  lemma PolyBits()
    ensures Bits(WORD, 0xEDB88320) == POLY
  {
    PolyBytes();
    PolyJoined();
    assert |POLY| == 32;
  }

  lemma LawLow()
    ensures AddsLow(WORD)
  {
    forall x, y ensures WORD.low(WORD.add(x, y)) == (WORD.low(x) != WORD.low(y)) { XorLow(x, y); }
  }

  lemma LawDown()
    ensures AddsDown(WORD)
  {
    forall x, y ensures WORD.down(WORD.add(x, y)) == WORD.add(WORD.down(x), WORD.down(y)) { XorDown(x, y); }
  }

  lemma LawOut()
    ensures Empties(WORD)
  {
    forall x ensures Byte3(WORD, Shifted(WORD, x, 8)) == WORD.zero { AllOut(x); }
  }

  lemma LawJoin()
    ensures Joins(WORD)
  {
    forall x ensures WORD.join(WORD.low(x), WORD.down(x)) == x { JoinParts(x); }
  }

  lemma WordLaws()
    ensures Laws(WORD)
  {
    LawLow();
    LawDown();
    LawOut();
    LawJoin();
    PolyBits();
  }

  // ---------------------------------------------------------------- the table

  lemma StepIsBit(s: bv32)
    ensures Step(WORD, s) == Bit(s)
  {
  }

  lemma EightSteps<W>(m: Machine<W>, s: W)
    ensures Steps(m, s, 8) == Step(m, Step(m, Step(m, Step(m, Step(m, Step(m, Step(m, Step(m, s))))))))
  {
  }

  lemma Bit8IsSteps(s: bv32)
    ensures Steps(WORD, s, 8) == Bit8(s)
  {
    EightSteps(WORD, s);
    var a := Bit(s); var b := Bit(a); var c := Bit(b); var d := Bit(c); var e := Bit(d); var f := Bit(e); var g := Bit(f);
    StepIsBit(s);
    StepIsBit(a);
    StepIsBit(b);
    StepIsBit(c);
    StepIsBit(d);
    StepIsBit(e);
    StepIsBit(f);
    StepIsBit(g);
  }

  lemma Bit8Shifts(x: bv32)
    requires x & 0xFF == 0
    ensures Bit8(x) == x >> 8
  {
  }

  lemma LowAndHigh(x: bv32, low: bv32, high: bv32, i: bv8)
    requires low == x & 0xFF && high == x & 0xFFFFFF00 && i == low as bv8
    ensures x == low ^ high && high & 0xFF == 0 && high >> 8 == x >> 8 && i as bv32 == low
  {
  }

  lemma ByteOnlyLow(s: bv32, b: bv8, x: bv32)
    requires x == s ^ b as bv32
    ensures x >> 8 == s >> 8
  {
  }

  lemma ByteIsShort(b: bv8)
    ensures (b as bv32) >> 8 == 0
  {
  }

  /** The register with the byte added, its low byte and the rest. */
  lemma Slices(x: bv32) returns (low: bv32, high: bv32, i: bv8)
    ensures i == (x & 0xFF) as bv8 && i as bv32 == low
    ensures x == low ^ high && high & 0xFF == 0 && high >> 8 == x >> 8
  {
    low, high, i := x & 0xFF, x & 0xFFFFFF00, (x & 0xFF) as bv8;
    LowAndHigh(x, low, high, i);
  }

  /** A table step, from the number of the entry. */
  lemma TableStepAt(s: bv32, b: bv8, i: bv8) returns (t: bv32, entry: bv32, rest: bv32)
    requires i == ((s ^ b as bv32) & 0xFF) as bv8
    ensures |TABLE| == 256 && t == TableStep(s, b) && t == entry ^ rest && entry == TABLE[i as int] && rest == s >> 8
  {
    TableSize();
    t, entry, rest := TableStep(s, b), TABLE[i as int], s >> 8;
  }

  /** The table's entry for the low byte and the shifted rest, both as steps. */
  lemma TableStepParts(s: bv32, b: bv8)
    returns (x: bv32, low: bv32, high: bv32, entry: bv32, rest: bv32, t: bv32)
    ensures x == s ^ b as bv32 && t == TableStep(s, b)
    ensures x == low ^ high && t == entry ^ rest
    ensures entry == Steps(WORD, low, 8) && rest == Steps(WORD, high, 8)
  {
    var i;
    x := s ^ b as bv32;
    low, high, i := Slices(x);
    ByteOnlyLow(s, b, x);
    t, entry, rest := TableStepAt(s, b, i);
    EntryIsSteps(i, low, entry);
    HighIsSteps(high, rest);
  }

  lemma SumIsAdd(x: bv32, y: bv32, z: bv32)
    requires z == x ^ y
    ensures z == WORD.add(x, y)
  {
  }

  lemma TableStepSum(s: bv32, b: bv8)
    returns (x: bv32, low: bv32, high: bv32, entry: bv32, rest: bv32, t: bv32)
    ensures x == s ^ b as bv32 && t == TableStep(s, b)
    ensures x == WORD.add(low, high) && t == WORD.add(entry, rest)
    ensures entry == Steps(WORD, low, 8) && rest == Steps(WORD, high, 8)
  {
    x, low, high, entry, rest, t := TableStepParts(s, b);
    SumIsAdd(low, high, x);
    SumIsAdd(entry, rest, t);
  }

  lemma EntryIsSteps(i: bv8, low: bv32, entry: bv32)
    requires low == i as bv32 && |TABLE| == 256 && entry == TABLE[i as int]
    ensures entry == Steps(WORD, low, 8)
  {
    TableIsBitSteps(i);
    Bit8IsSteps(low);
  }

  lemma HighIsSteps(high: bv32, rest: bv32)
    requires high & 0xFF == 0 && rest == high >> 8
    ensures rest == Steps(WORD, high, 8)
  {
    Bit8Shifts(high);
    Bit8IsSteps(high);
  }

  /** A table step is eight bit steps on the register with the byte added. */
  lemma TableStepIsSteps(s: bv32, b: bv8) returns (x: bv32, t: bv32)
    ensures x == s ^ b as bv32 && t == TableStep(s, b) && t == Steps(WORD, x, 8)
  {
    var low, high, entry, rest;
    x, low, high, entry, rest, t := TableStepSum(s, b);
    WordLaws();
    LookupIsSteps(WORD, x, low, high, entry, rest);
  }

  // ---------------------------------------------------------------- messages

  /** A byte's bits in the order they are sent, least significant first. */
  function ByteBits(b: bv8): seq<bool> { LowBits(WORD, b as bv32, 8) }

  function Concat<A>(g: A -> seq<bool>, m: seq<A>): seq<bool>
    decreases |m|
  {
    if m == [] then [] else g(m[0]) + Concat(g, m[1..])
  }

  function MessageBits(m: seq<bv8>): seq<bool> { Concat(ByteBits, m) }

  lemma TableStepRuns(s: bv32, b: bv8)
    ensures Bits(WORD, TableStep(s, b)) == Run(Bits(WORD, s), ByteBits(b))
  {
    var x, t := TableStepIsSteps(s, b);
    WordLaws();
    ByteIsShort(b);
    Shifted8(b as bv32);
    SumIsAdd(s, b as bv32, x);
    ByteFed(WORD, s, b as bv32);
  }

  lemma {:induction false} FoldRuns<S(!new), A(!new)>(f: (S, A) -> S, bits: S -> Word, g: A -> seq<bool>, s: S, m: seq<A>)
    requires forall t, b :: bits(f(t, b)) == Run(bits(t), g(b))
    ensures bits(Fold(f, s, m)) == Run(bits(s), Concat(g, m))
    decreases |m|
  {
    if m != [] {
      FoldRuns(f, bits, g, f(s, m[0]), m[1..]);
      RunAppend(bits(s), g(m[0]), Concat(g, m[1..]));
    }
  }

  function WordBits(s: bv32): Word { Bits(WORD, s) }

  /** The table-driven loop is the bit-at-a-time register fed with the message's bits. */
  lemma LoopRuns(s: bv32, m: seq<bv8>)
    ensures WordBits(Fold(TableStep, s, m)) == Run(WordBits(s), MessageBits(m))
  {
    forall t, b ensures WordBits(TableStep(t, b)) == Run(WordBits(t), ByteBits(b)) { TableStepRuns(t, b); }
    FoldRuns(TableStep, WordBits, ByteBits, s, m);
  }

  function Not(r: Word): Word { seq(32, i requires 0 <= i < 32 => !r[i]) }

  lemma OnesBytes()
    ensures LowBits(WORD, 0xFFFFFFFF, 8) == [true, true, true, true, true, true, true, true]
    ensures LowBits(WORD, 0xFFFFFF, 8) == [true, true, true, true, true, true, true, true]
    ensures LowBits(WORD, 0xFFFF, 8) == [true, true, true, true, true, true, true, true]
    ensures LowBits(WORD, 0xFF, 8) == [true, true, true, true, true, true, true, true]
  {
  }

  lemma OnesBits()
    ensures forall i :: 0 <= i < 32 ==> WordBits(0xFFFFFFFF)[i]
  {
    OnesBytes();
    Shifted8(0xFFFFFFFF);
    Shifted8(0xFFFFFF);
    Shifted8(0xFFFF);
    LowBitsSplit(WORD, 0xFFFFFFFF, 8, 24);
    LowBitsSplit(WORD, 0xFFFFFF, 8, 16);
    LowBitsSplit(WORD, 0xFFFF, 8, 8);
  }

  lemma ComplementBits(s: bv32, x: bv32)
    requires x == s ^ 0xFFFFFFFF
    ensures WordBits(x) == Not(WordBits(s))
  {
    WordLaws();
    OnesBits();
    SumIsAdd(s, 0xFFFFFFFF, x);
    LowBitsXor(WORD, s, 0xFFFFFFFF, |POLY|);
    XorOnes(WordBits(s), WordBits(0xFFFFFFFF));
  }

  lemma XorOnes(r: Word, ones: Word)
    requires forall i :: 0 <= i < 32 ==> ones[i]
    ensures Xor(r, ones) == Not(r)
  {
  }

  lemma CrcBitParts(c: bv32, m: seq<bv8>) returns (r: bv32, s: Word, f: Word)
    ensures r == Crc(c, m) && WordBits(r) == Not(f) && f == Run(s, MessageBits(m)) && s == Not(WordBits(c))
  {
    var s0, f0;
    s0, f0, r := CrcParts(c, m);
    LoopRuns(s0, m);
    ComplementBits(c, s0);
    ComplementBits(f0, r);
    s, f := WordBits(s0), WordBits(f0);
  }

  /** crc32 is the complement of what the bit-at-a-time register holds after the message, started with the
      complement of the start value. */
  lemma CrcIsBitwise(c: bv32, m: seq<bv8>)
    ensures WordBits(Crc(c, m)) == Not(Run(Not(WordBits(c)), MessageBits(m)))
  {
    var r, s, f := CrcBitParts(c, m);
  }

  /** The register fed one bit, with the polynomial 0xEDB88320. */
  function FeedBit(s: bv32, b: bool): bv32 { Bit(s ^ (if b then 1 else 0)) }

  lemma OneBit(b: bool, one: bv32)
    requires one == if b then 1 else 0
    ensures one & 1 == (if b then 1 else 0) && one >> 1 == 0
  {
  }

  lemma FeedBitIs(s: bv32, b: bool, one: bv32, x: bv32)
    requires one == (if b then 1 else 0) && x == s ^ one
    ensures FeedBit(s, b) == Bit(x)
  {
    if b { assert one == 1; } else { assert one == 0; }
  }

  lemma OneIsLow(b: bool, one: bv32)
    requires one & 1 == (if b then 1 else 0) && one >> 1 == 0
    ensures WORD.low(one) == b && WORD.down(one) == 0
  {
  }

  lemma FeedBitParts(s: bv32, b: bool) returns (t: bv32, x: bv32, one: bv32)
    ensures t == FeedBit(s, b) && t == Step(WORD, x) && x == WORD.add(s, one)
    ensures WORD.low(one) == b && WORD.down(one) == 0
  {
    one := if b then 1 else 0;
    x := s ^ one;
    FeedBitIs(s, b, one, x);
    OneBit(b, one);
    OneIsLow(b, one);
    SumIsAdd(s, one, x);
    StepIsBit(x);
    t := Bit(x);
  }

  lemma FeedBitRuns(s: bv32, b: bool)
    ensures WordBits(FeedBit(s, b)) == Run(WordBits(s), [b])
  {
    var t, x, one := FeedBitParts(s, b);
    WordLaws();
    BitFed(WORD, s, one, b);
    RunOne(WordBits(s), b);
  }

  lemma RunOne(r: Word, b: bool)
    ensures Run(r, [b]) == Feed(r, b)
  {
  }

  function Single(b: bool): seq<bool> { [b] }

  lemma {:induction false} ConcatSingle(v: seq<bool>)
    ensures Concat(Single, v) == v
    decreases |v|
  {
    if v != [] { ConcatSingle(v[1..]); }
  }

  lemma LoopIsBits(s: bv32, m: seq<bv8>)
    ensures Fold(TableStep, s, m) == Fold(FeedBit, s, MessageBits(m))
  {
    var v := MessageBits(m);
    forall t, b ensures WordBits(FeedBit(t, b)) == Run(WordBits(t), Single(b)) { FeedBitRuns(t, b); }
    FoldRuns(FeedBit, WordBits, Single, s, v);
    ConcatSingle(v);
    LoopRuns(s, m);
    WordLaws();
    SameBits(WORD, Fold(TableStep, s, m), Fold(FeedBit, s, v));
  }

  /** The table-driven CRC is the bit-at-a-time one: f is the register after the message's bits. */
  lemma CrcIsBitAtATime(c: bv32, m: seq<bv8>) returns (s: bv32, f: bv32)
    ensures s == c ^ 0xFFFFFFFF && f == Fold(FeedBit, s, MessageBits(m)) && Crc(c, m) == f ^ 0xFFFFFFFF
  {
    var r;
    s, f, r := CrcParts(c, m);
    LoopIsBits(s, m);
  }

  /** crc32 is polynomial division: section 8 of RFC 1952. */
  lemma CrcIsRemainder(c: bv32, m: seq<bv8>)
    ensures WordBits(Crc(c, m)) == Not(Remainder(Dividend(Not(WordBits(c)), MessageBits(m))))
  {
    CrcIsBitwise(c, m);
    RunDivides(Not(WordBits(c)), MessageBits(m));
  }

  lemma NotInjective(r: Word, q: Word)
    requires Not(r) == Not(q)
    ensures r == q
  {
    forall i | 0 <= i < 32 ensures r[i] == q[i] { assert Not(r)[i] == Not(q)[i]; }
  }

  /** Messages that differ in a burst of at most 32 bits have different CRCs. */
  lemma BurstDetected(c: bv32, m: seq<bv8>, n: seq<bv8>, before: seq<bool>, v: seq<bool>, w: seq<bool>, behind: seq<bool>)
    requires MessageBits(m) == before + v + behind && MessageBits(n) == before + w + behind
    requires |v| == |w| <= 32 && v != w
    ensures Crc(c, m) != Crc(c, n)
  {
    var r := Not(WordBits(c));
    CrcIsBitwise(c, m);
    CrcIsBitwise(c, n);
    BurstShows(r, before, v, w, behind);
    if Crc(c, m) == Crc(c, n) { NotInjective(Run(r, MessageBits(m)), Run(r, MessageBits(n))); }
  }

  lemma {:induction false} ConcatAppend<A>(g: A -> seq<bool>, a: seq<A>, b: seq<A>)
    ensures Concat(g, a + b) == Concat(g, a) + Concat(g, b)
    decreases |a|
  {
    if a == [] {
      assert a + b == b;
    } else {
      assert (a + b)[1..] == a[1..] + b;
      ConcatAppend(g, a[1..], b);
    }
  }

  /** Elements of eight bits each that the bits tell apart. */
  lemma {:induction false} ConcatInjective<A(!new)>(g: A -> seq<bool>, a: seq<A>, b: seq<A>)
    requires (forall x :: |g(x)| == 8) && (forall x, y :: g(x) == g(y) ==> x == y)
    requires |a| == |b|
    ensures |Concat(g, a)| == 8 * |a| == |Concat(g, b)|
    ensures Concat(g, a) == Concat(g, b) ==> a == b
    decreases |a|
  {
    if a != [] {
      ConcatInjective(g, a[1..], b[1..]);
      if Concat(g, a) == Concat(g, b) {
        assert g(a[0]) == Concat(g, a)[..8] == Concat(g, b)[..8] == g(b[0]);
        assert Concat(g, a[1..]) == Concat(g, a)[8..] == Concat(g, b)[8..] == Concat(g, b[1..]);
      }
    }
  }

  lemma BytesDiffer(x: bv8, y: bv8)
    requires ByteBits(x) == ByteBits(y)
    ensures x == y
  {
    WordLaws();
    ByteIsShort(x);
    ByteIsShort(y);
    Shifted8(x as bv32);
    Shifted8(y as bv32);
    BitsInjective(WORD, x as bv32, y as bv32, 8);
  }

  lemma WindowBits(before: seq<bv8>, p: seq<bv8>, q: seq<bv8>, behind: seq<bv8>)
    requires |p| == |q| && p != q
    ensures MessageBits(before + p + behind) == MessageBits(before) + MessageBits(p) + MessageBits(behind)
    ensures |MessageBits(p)| == 8 * |p| == |MessageBits(q)| && MessageBits(p) != MessageBits(q)
  {
    ConcatAppend(ByteBits, before + p, behind);
    ConcatAppend(ByteBits, before, p);
    forall x, y | ByteBits(x) == ByteBits(y) ensures x == y { BytesDiffer(x, y); }
    ConcatInjective(ByteBits, p, q);
  }

  /** Messages of one length that differ only inside a window of four bytes have different CRCs. */
  lemma WindowDetected(c: bv32, m: seq<bv8>, n: seq<bv8>, i: nat)
    requires |m| == |n| && m != n && forall k :: 0 <= k < |m| && !(i <= k < i + 4) ==> m[k] == n[k]
    ensures Crc(c, m) != Crc(c, n)
  {
    var lo := if i < |m| then i else |m|;
    var hi := if i + 4 < |m| then i + 4 else |m|;
    var before, behind := m[..lo], m[hi..];
    var p, q := m[lo..hi], n[lo..hi];
    assert m == before + p + behind;
    assert n == before + q + behind;
    WindowBits(before, p, q, behind);
    WindowBits(before, q, p, behind);
    BurstDetected(c, m, n, MessageBits(before), MessageBits(p), MessageBits(q), MessageBits(behind));
  }
}
