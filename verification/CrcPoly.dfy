/** Division of polynomials over GF(2), as written out on paper and as a 32-bit shift register does it.
    A polynomial is the sequence of its coefficients, highest power first. */
module CrcPoly {
  /** The generator of CRC-32 without its leading x^32: the coefficients of x^31 down to x^0. */
  const POLY: seq<bool> :=
    [false, false, false, false, false, true, false, false] + [true, true, false, false, false, false, false, true] +
    [false, false, false, true, true, true, false, true] + [true, false, true, true, false, true, true, true]

  type Word = r: seq<bool> | |r| == 32 witness POLY

  function Coefficient(i: nat): bool { i < 32 && POLY[i] }

  // ---------------------------------------------------------------- on paper

  /** The generator subtracted from a dividend whose leading coefficient is 1; that coefficient is gone. */
  function Subtract(d: seq<bool>): (r: seq<bool>)
    requires |d| > 32
    ensures |r| == |d| - 1
  {
    seq(|d| - 1, i requires 0 <= i < |d| - 1 => d[i + 1] != Coefficient(i))
  }

  /** The remainder modulo the generator. */
  function Remainder(d: seq<bool>): Word
    requires |d| >= 32
    decreases |d|
  {
    if |d| == 32 then d else Remainder(if d[0] then Subtract(d) else d[1..])
  }

  /** v * x^32, with r added to the highest 32 coefficients. */
  function Dividend(r: Word, v: seq<bool>): (d: seq<bool>)
    ensures |d| == |v| + 32
  {
    seq(|v| + 32, i requires 0 <= i < |v| + 32 => (i < |v| && v[i]) != (i < 32 && r[i]))
  }

  // ---------------------------------------------------------------- in a register

  /** Multiply by x and reduce. */
  function Next(r: Word): Word {
    seq(32, i requires 0 <= i < 32 => (i < 31 && r[i + 1]) != (r[0] && POLY[i]))
  }

  function Feed(r: Word, b: bool): Word { Next(r[0 := r[0] != b]) }

  function Run(r: Word, v: seq<bool>): Word
    decreases |v|
  {
    if v == [] then r else Run(Feed(r, v[0]), v[1..])
  }

  function Turns(r: Word, n: nat): Word
    decreases n
  {
    if n == 0 then r else Turns(Next(r), n - 1)
  }

  /** r with v added to its highest coefficients. */
  function Added(r: Word, v: seq<bool>): Word {
    seq(32, i requires 0 <= i < 32 => r[i] != (i < |v| && v[i]))
  }

  lemma DividendStep(r: Word, v: seq<bool>)
    requires v != []
    ensures var d := Dividend(r, v);
      Dividend(Feed(r, v[0]), v[1..]) == if d[0] then Subtract(d) else d[1..]
  {
  }

  /** The register computes the remainder of the message times x^32, its start value added to the first 32 coefficients. */
  lemma {:induction false} RunDivides(r: Word, v: seq<bool>)
    ensures Run(r, v) == Remainder(Dividend(r, v))
    decreases |v|
  {
    if v == [] {
      assert Dividend(r, v) == r;
    } else {
      DividendStep(r, v);
      RunDivides(Feed(r, v[0]), v[1..]);
    }
  }

  lemma {:induction false} RunAppend(r: Word, u: seq<bool>, v: seq<bool>)
    ensures Run(r, u + v) == Run(Run(r, u), v)
    decreases |u|
  {
    if u == [] {
      assert u + v == v;
    } else {
      assert (u + v)[1..] == u[1..] + v;
      RunAppend(Feed(r, u[0]), u[1..], v);
    }
  }

  // ---------------------------------------------------------------- bursts

  /** A turn loses nothing: the generator's lowest coefficient tells what was shifted out. */
  lemma NextInjective(r: Word, q: Word)
    requires Next(r) == Next(q)
    ensures r == q
  {
    assert POLY[31] && Next(r)[31] == r[0] && Next(q)[31] == q[0];
    forall i | 1 <= i < 32 ensures r[i] == q[i] {
      assert Next(r)[i - 1] == (r[i] != (r[0] && POLY[i - 1])) && Next(q)[i - 1] == (q[i] != (q[0] && POLY[i - 1]));
    }
  }

  lemma {:induction false} TurnsInjective(r: Word, q: Word, n: nat)
    requires Turns(r, n) == Turns(q, n)
    ensures r == q
    decreases n
  {
    if n > 0 {
      TurnsInjective(Next(r), Next(q), n - 1);
      NextInjective(r, q);
    }
  }

  lemma {:induction false} RunInjective(r: Word, q: Word, v: seq<bool>)
    requires Run(r, v) == Run(q, v)
    ensures r == q
    decreases |v|
  {
    if v != [] {
      RunInjective(Feed(r, v[0]), Feed(q, v[0]), v[1..]);
      NextInjective(r[0 := r[0] != v[0]], q[0 := q[0] != v[0]]);
      forall i | 0 <= i < 32 ensures r[i] == q[i] {
        assert r[0 := r[0] != v[0]][i] == q[0 := q[0] != v[0]][i];
      }
    }
  }

  lemma AddedStep(r: Word, v: seq<bool>)
    requires 0 < |v| <= 32
    ensures Next(Added(r, v)) == Added(Feed(r, v[0]), v[1..])
  {
  }

  /** Up to 32 bits may as well be added to the register all at once. */
  lemma {:induction false} RunIsTurns(r: Word, v: seq<bool>)
    requires |v| <= 32
    ensures Run(r, v) == Turns(Added(r, v), |v|)
    decreases |v|
  {
    if v == [] {
      assert Added(r, v) == r;
    } else {
      AddedStep(r, v);
      RunIsTurns(Feed(r, v[0]), v[1..]);
    }
  }

  lemma AddedInjective(r: Word, v: seq<bool>, w: seq<bool>)
    requires |v| == |w| <= 32 && Added(r, v) == Added(r, w)
    ensures v == w
  {
    forall i | 0 <= i < |v| ensures v[i] == w[i] {
      assert Added(r, v)[i] == (r[i] != v[i]) && Added(r, w)[i] == (r[i] != w[i]);
    }
  }

  /** A burst of at most 32 bits, wherever it is, changes the remainder. */
  lemma BurstShows(r: Word, before: seq<bool>, v: seq<bool>, w: seq<bool>, behind: seq<bool>)
    requires |v| == |w| <= 32 && v != w
    ensures Run(r, before + v + behind) != Run(r, before + w + behind)
  {
    var q := Run(r, before);
    RunAppend(r, before + v, behind);
    RunAppend(r, before, v);
    RunAppend(r, before + w, behind);
    RunAppend(r, before, w);
    if Run(r, before + v + behind) == Run(r, before + w + behind) {
      RunInjective(Run(q, v), Run(q, w), behind);
      RunIsTurns(q, v);
      RunIsTurns(q, w);
      TurnsInjective(Added(q, v), Added(q, w), |v|);
      AddedInjective(q, v, w);
    }
  }
}
