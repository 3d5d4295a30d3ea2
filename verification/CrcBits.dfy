/** Machine words as polynomials: everything here follows from four laws of exclusive-or and shifting, so that no
    bit-vector reasoning is needed beyond those laws. */
module CrcBits {
  import opened CrcPoly

  /** The operations that crc32 uses on a 32-bit word. */
  datatype Machine<!W> = Machine(add: (W, W) -> W, low: W -> bool, down: W -> W, join: (bool, W) -> W, zero: W, poly: W)

  function Shifted<W>(m: Machine<W>, s: W, n: nat): W
    decreases n
  {
    if n == 0 then s else Shifted(m, m.down(s), n - 1)
  }

  /** The n lowest bits, lowest first. */
  function LowBits<W>(m: Machine<W>, s: W, n: nat): (r: seq<bool>)
    ensures |r| == n
    decreases n
  {
    if n == 0 then [] else [m.low(s)] + LowBits(m, m.down(s), n - 1)
  }

  function Bits<W>(m: Machine<W>, s: W): Word { LowBits(m, s, |POLY|) }

  function Step<W>(m: Machine<W>, s: W): W { if m.low(s) then m.add(m.down(s), m.poly) else m.down(s) }

  function Steps<W>(m: Machine<W>, s: W, n: nat): W
    decreases n
  {
    if n == 0 then s else Steps(m, Step(m, s), n - 1)
  }

  /** What is left after three bytes are shifted out. */
  function Byte3<W>(m: Machine<W>, s: W): W { Shifted(m, Shifted(m, Shifted(m, s, 8), 8), 8) }

  ghost predicate AddsLow<W(!new)>(m: Machine<W>) { forall x, y :: m.low(m.add(x, y)) == (m.low(x) != m.low(y)) }
  ghost predicate AddsDown<W(!new)>(m: Machine<W>) { forall x, y :: m.down(m.add(x, y)) == m.add(m.down(x), m.down(y)) }
  ghost predicate Empties<W(!new)>(m: Machine<W>) { forall x :: Byte3(m, Shifted(m, x, 8)) == m.zero }
  ghost predicate Joins<W(!new)>(m: Machine<W>) { forall x :: m.join(m.low(x), m.down(x)) == x }

  /** Exclusive-or acts on every bit, shifting moves the bits and empties the word, and the bits say everything. */
  ghost predicate Laws<W(!new)>(m: Machine<W>) {
    && AddsLow(m) && AddsDown(m) && Empties(m) && Joins(m)
    && !m.low(m.zero) && m.down(m.zero) == m.zero
    && Bits(m, m.poly) == POLY
  }

  /** Addition of polynomials over GF(2). */
  function Xor(a: seq<bool>, b: seq<bool>): (r: seq<bool>)
    requires |a| == |b|
    ensures |r| == |a| && forall i :: 0 <= i < |a| ==> r[i] == (a[i] != b[i])
  {
    seq(|a|, i requires 0 <= i < |a| => a[i] != b[i])
  }

  lemma {:induction false} LowBitsXor<W(!new)>(m: Machine<W>, x: W, y: W, n: nat)
    requires Laws(m)
    ensures LowBits(m, m.add(x, y), n) == Xor(LowBits(m, x, n), LowBits(m, y, n))
    decreases n
  {
    if n > 0 { LowBitsXor(m, m.down(x), m.down(y), n - 1); }
  }

  lemma {:induction false} LowBitsSplit<W>(m: Machine<W>, s: W, k: nat, n: nat)
    ensures LowBits(m, s, k + n) == LowBits(m, s, k) + LowBits(m, Shifted(m, s, k), n)
    decreases k
  {
    if k > 0 { LowBitsSplit(m, m.down(s), k - 1, n); }
  }

  lemma {:induction false} ShiftedSplit<W>(m: Machine<W>, s: W, k: nat, n: nat)
    ensures Shifted(m, s, k + n) == Shifted(m, Shifted(m, s, k), n)
    decreases k
  {
    if k > 0 { ShiftedSplit(m, m.down(s), k - 1, n); }
  }

  lemma ShiftedOut<W(!new)>(m: Machine<W>, s: W)
    requires Laws(m)
    ensures Shifted(m, s, 32) == m.zero
  {
    var a := Shifted(m, s, 8);
    var b := Shifted(m, a, 8);
    ShiftedSplit(m, s, 8, 24);
    ShiftedSplit(m, a, 8, 16);
    ShiftedSplit(m, b, 8, 8);
    assert Byte3(m, a) == m.zero;
  }

  lemma {:induction false} LowBitsZero<W(!new)>(m: Machine<W>, n: nat)
    requires Laws(m)
    ensures LowBits(m, m.zero, n) == seq(n, i => false)
    decreases n
  {
    if n > 0 { LowBitsZero(m, n - 1); }
  }

  lemma BitsDown<W(!new)>(m: Machine<W>, s: W)
    requires Laws(m)
    ensures Bits(m, m.down(s)) == Bits(m, s)[1..] + [false]
  {
    LowBitsSplit(m, s, 32, 1);
    ShiftedOut(m, s);
    LowBitsZero(m, 1);
    assert LowBits(m, m.zero, 1) == [false];
    Cut(m.low(s), Bits(m, m.down(s)), Bits(m, s), [false]);
  }

  lemma Cut(b: bool, rest: seq<bool>, all: seq<bool>, last: seq<bool>)
    requires all != [] && [b] + rest == all + last
    ensures rest == all[1..] + last
  {
    assert rest == ([b] + rest)[1..] == (all + last)[1..];
  }

  lemma NextFrom(r: Word, down: Word)
    requires down == r[1..] + [false]
    ensures Next(r) == if r[0] then Xor(down, POLY) else down
  {
  }

  /** A step of the machine word is a turn of the polynomial register. */
  lemma BitsStep<W(!new)>(m: Machine<W>, s: W) returns (s1: W)
    requires Laws(m)
    ensures s1 == Step(m, s) && Bits(m, s1) == Next(Bits(m, s))
  {
    s1 := Step(m, s);
    BitsDown(m, s);
    NextFrom(Bits(m, s), Bits(m, m.down(s)));
    LowBitsXor(m, m.down(s), m.poly, 32);
    assert Bits(m, s)[0] == m.low(s);
  }

  lemma {:induction false} StepsFollow<W(!new)>(m: Machine<W>, bits: W -> Word, s: W, n: nat)
    requires forall x :: bits(Step(m, x)) == Next(bits(x))
    ensures bits(Steps(m, s, n)) == Turns(bits(s), n)
    decreases n
  {
    if n > 0 { StepsFollow(m, bits, Step(m, s), n - 1); }
  }

  lemma BitsSteps<W(!new)>(m: Machine<W>, s: W, n: nat)
    requires Laws(m)
    ensures Bits(m, Steps(m, s, n)) == Turns(Bits(m, s), n)
  {
    var bits := (x: W) => Bits(m, x);
    forall x ensures bits(Step(m, x)) == Next(bits(x)) { var _ := BitsStep(m, x); }
    StepsFollow(m, bits, s, n);
    assert bits(s) == Bits(m, s);
  }

  lemma {:induction false} BitsInjective<W(!new)>(m: Machine<W>, x: W, y: W, n: nat)
    requires Laws(m) && Shifted(m, x, n) == Shifted(m, y, n) && LowBits(m, x, n) == LowBits(m, y, n)
    ensures x == y
    decreases n
  {
    if n > 0 {
      assert LowBits(m, x, n)[0] == LowBits(m, y, n)[0] && LowBits(m, x, n)[1..] == LowBits(m, y, n)[1..];
      assert LowBits(m, x, n)[1..] == LowBits(m, m.down(x), n - 1) && LowBits(m, y, n)[1..] == LowBits(m, m.down(y), n - 1);
      BitsInjective(m, m.down(x), m.down(y), n - 1);
    }
  }

  lemma SameBits<W(!new)>(m: Machine<W>, x: W, y: W)
    requires Laws(m) && Bits(m, x) == Bits(m, y)
    ensures x == y
  {
    ShiftedOut(m, x);
    ShiftedOut(m, y);
    BitsInjective(m, x, y, 32);
  }

  /** Eight steps with a byte's bits are eight steps of the word with the byte added: b has no bits above its eight. */
  lemma ByteFed<W(!new)>(m: Machine<W>, s: W, b: W)
    requires Laws(m) && Shifted(m, b, 8) == m.zero
    ensures Bits(m, Steps(m, m.add(s, b), 8)) == Run(Bits(m, s), LowBits(m, b, 8))
  {
    var v := LowBits(m, b, 8);
    ByteAdded(m, s, b);
    BitsSteps(m, m.add(s, b), 8);
    RunIsTurns(Bits(m, s), v);
  }

  lemma ByteAdded<W(!new)>(m: Machine<W>, s: W, b: W)
    requires Laws(m) && Shifted(m, b, 8) == m.zero
    ensures Bits(m, m.add(s, b)) == Added(Bits(m, s), LowBits(m, b, 8))
  {
    LowBitsXor(m, s, b, 32);
    LowBitsSplit(m, b, 8, 24);
    LowBitsZero(m, 24);
    XorIsAdded(Bits(m, s), LowBits(m, b, 8), seq(24, i => false));
  }

  lemma XorIsAdded(r: Word, v: seq<bool>, w: seq<bool>)
    requires |v| == 8 && |w| == 24 && forall i :: 0 <= i < 24 ==> !w[i]
    ensures Xor(r, v + w) == Added(r, v)
  {
  }

  lemma {:induction false} StepsLinear<W(!new)>(m: Machine<W>, x: W, y: W, n: nat)
    requires Laws(m)
    ensures Bits(m, Steps(m, m.add(x, y), n)) == Xor(Bits(m, Steps(m, x, n)), Bits(m, Steps(m, y, n)))
  {
    LowBitsXor(m, x, y, 32);
    BitsSteps(m, x, n);
    BitsSteps(m, y, n);
    BitsSteps(m, m.add(x, y), n);
    TurnsLinear(Bits(m, x), Bits(m, y), n);
  }

  lemma {:induction false} TurnsLinear(r: Word, q: Word, n: nat)
    ensures Turns(Xor(r, q), n) == Xor(Turns(r, n), Turns(q, n))
    decreases n
  {
    if n > 0 {
      assert Next(Xor(r, q)) == Xor(Next(r), Next(q));
      TurnsLinear(Next(r), Next(q), n - 1);
    }
  }

  /** A table lookup for the low part of a word, added to the high part shifted, is eight steps of the word. */
  lemma LookupIsSteps<W(!new)>(m: Machine<W>, x: W, low: W, high: W, entry: W, rest: W)
    requires Laws(m) && x == m.add(low, high) && entry == Steps(m, low, 8) && rest == Steps(m, high, 8)
    ensures m.add(entry, rest) == Steps(m, x, 8)
  {
    StepsLinear(m, low, high, 8);
    LowBitsXor(m, entry, rest, 32);
    SameBits(m, m.add(entry, rest), Steps(m, x, 8));
  }

  /** A step with one bit added at the low end is a feed of the polynomial register. */
  lemma BitFed<W(!new)>(m: Machine<W>, s: W, one: W, b: bool)
    requires Laws(m) && m.low(one) == b && m.down(one) == m.zero
    ensures Bits(m, Step(m, m.add(s, one))) == Feed(Bits(m, s), b)
  {
    var _ := BitsStep(m, m.add(s, one));
    LowBitsXor(m, s, one, |POLY|);
    LowBitsZero(m, |POLY| - 1);
    var r := Bits(m, s);
    assert Bits(m, one) == [b] + seq(31, i => false);
    assert Bits(m, m.add(s, one)) == r[0 := r[0] != b];
  }
}
