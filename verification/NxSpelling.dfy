/** How the code points of a JSON string may be written (section 7 of RFC 8259), and what nxjson makes of it. */
module NxSpelling {
  import opened NxText

  const LOWER := "0123456789abcdef"
  const UPPER := "0123456789ABCDEF"

  /** A hexadecimal digit, in either case. */
  function Digit(d: nat, upper: bool): char
    requires d < 16
  {
    if upper then UPPER[d] else LOWER[d]
  }

  /** \uXXXX with the case of each digit. */
  function Unit(n: nat, caps: seq<bool>): string
    requires n < 0x10000 && |caps| == 4
  {
    ['\\', 'u', Digit(n / 4096, caps[0]), Digit(n / 256 % 16, caps[1]), Digit(n / 16 % 16, caps[2]), Digit(n % 16, caps[3])]
  }

  /** A Unicode scalar value. */
  predicate CodePoint(cp: nat) { cp < 0x110000 && !(0xd800 <= cp < 0xe000) }

  /** A code point as one \u escape, or from U+10000 on as a surrogate pair. */
  function Units(cp: nat, caps: seq<bool>): string
    requires CodePoint(cp) && |caps| == 8
  {
    if cp < 0x10000 then Unit(cp, caps[..4])
    else Unit(0xd800 + (cp - 0x10000) / 0x400, caps[..4]) + Unit(0xdc00 + (cp - 0x10000) % 0x400, caps[4..])
  }

  /** One code point: as its bytes, as a backslash and a letter, or as \u escapes. */
  datatype Spelling = Bytes(b: string) | Letter(c: char) | Escaped(cp: nat, caps: seq<bool>)

  predicate Ok(s: Spelling) {
    match s
    case Bytes(b) => DecodeOne(b).Some? && DecodeOne(b).value.1 == |b| && b[0] !in "\"\\\0"
    case Letter(c) => c in "\"\\/bfnrt"
    case Escaped(cp, caps) => CodePoint(cp) && |caps| == 8
  }

  function Written(s: Spelling): string
    requires Ok(s)
  {
    match s
    case Bytes(b) => b
    case Letter(c) => ['\\', c]
    case Escaped(cp, caps) => Units(cp, caps)
  }

  function Meaning(s: Spelling): nat
    requires Ok(s)
  {
    match s
    case Bytes(b) => DecodeOne(b).value.0
    case Letter(c) =>
      if c == '"' then 0x22 else if c == '\\' then 0x5c else if c == '/' then 0x2f
      else if c == 'b' then 0x08 else if c == 'f' then 0x0c else if c == 'n' then 0x0a else if c == 'r' then 0x0d else 0x09
    case Escaped(cp, _) => cp
  }

  predicate AllOk(ss: seq<Spelling>) { forall s :: s in ss ==> Ok(s) }

  function AllWritten(ss: seq<Spelling>): string
    requires AllOk(ss)
  {
    if ss == [] then [] else Written(ss[0]) + AllWritten(ss[1..])
  }

  function AllMeant(ss: seq<Spelling>): seq<nat>
    requires AllOk(ss)
  {
    if ss == [] then [] else [Meaning(ss[0])] + AllMeant(ss[1..])
  }

  // ---------------------------------------------------------------- reading digits

  lemma DigitValue(d: nat, upper: bool)
    requires d < 16
    ensures HexVal(Digit(d, upper)) == d
  {
  }

  lemma UnitReads(t: string, p: nat, n: nat, caps: seq<bool>)
    requires Terminated(t) && n < 0x10000 && |caps| == 4 && Has(t, p, Unit(n, caps))
    ensures p + 6 <= |t| && t[p] == '\\' && t[p + 1] == 'u' && Hex4(t, p + 2) == n && t[p + 5] != '\0'
  {
    var s := Unit(n, caps);
    assert s[0] == t[p] && s[1] == t[p + 1] && s[2] == t[p + 2] && s[3] == t[p + 3] && s[4] == t[p + 4] && s[5] == t[p + 5];
    DigitValue(n / 4096, caps[0]);
    DigitValue(n / 256 % 16, caps[1]);
    DigitValue(n / 16 % 16, caps[2]);
    DigitValue(n % 16, caps[3]);
    FourDigits(n);
  }

  lemma FourDigits(n: nat)
    requires n < 0x10000
    ensures n / 4096 * 4096 + n / 256 % 16 * 256 + n / 16 % 16 * 16 + n % 16 == n
  {
    Nested(n, 16);
    Nested(n, 256);
  }

  lemma Nested(n: nat, m: nat)
    requires m == 16 || m == 256
    ensures n / m / 16 == n / (m * 16)
  {
  }

  lemma PairSum(cp: nat)
    requires 0x10000 <= cp < 0x110000
    ensures var u, v := 0xd800 + (cp - 0x10000) / 0x400, 0xdc00 + (cp - 0x10000) % 0x400;
      && 0xd800 <= u < 0xdc00 <= v < 0xe000 && 0x10000 + (u - 0xd800) * 1024 + (v - 0xdc00) == cp
  {
  }

  lemma UnitRead(t: string, p: nat, cp: nat, caps: seq<bool>)
    requires Terminated(t) && CodePoint(cp) && cp < 0x10000 && |caps| == 4 && Has(t, p, Unit(cp, caps)) && p + 6 < |t|
    ensures t[p] == '\\' && t[p + 1] == 'u' && Escape(t, p + 1, UTF8) == Some((Utf8(cp).value, p + 6))
  {
    UnitReads(t, p, cp, caps);
    EscapeReads(t, p + 1, cp, p + 6);
  }

  lemma PairRead(t: string, p: nat, cp: nat, u: nat, v: nat, high: seq<bool>, low: seq<bool>)
    requires Terminated(t) && CodePoint(cp) && 0xd800 <= u < 0xdc00 <= v < 0xe000 && |high| == 4 && |low| == 4
    requires cp == 0x10000 + (u - 0xd800) * 1024 + (v - 0xdc00) && p + 12 < |t|
    requires Has(t, p, Unit(u, high)) && Has(t, p + 6, Unit(v, low))
    ensures t[p] == '\\' && t[p + 1] == 'u' && Escape(t, p + 1, UTF8) == Some((Utf8(cp).value, p + 12))
  {
    UnitReads(t, p, u, high);
    UnitReads(t, p + 6, v, low);
    PairValue(t, p + 1, u, v);
    EscapeReads(t, p + 1, cp, p + 12);
  }

  lemma UnitsRead(t: string, p: nat, cp: nat, caps: seq<bool>)
    requires Terminated(t) && CodePoint(cp) && |caps| == 8 && Has(t, p, Units(cp, caps)) && p + |Units(cp, caps)| < |t|
    ensures t[p] == '\\' && t[p + 1] == 'u' && Escape(t, p + 1, UTF8) == Some((Utf8(cp).value, p + |Units(cp, caps)|))
  {
    if cp < 0x10000 {
      UnitRead(t, p, cp, caps[..4]);
    } else {
      var u, v := 0xd800 + (cp - 0x10000) / 0x400, 0xdc00 + (cp - 0x10000) % 0x400;
      PairSum(cp);
      HasSplit(t, p, Unit(u, caps[..4]), Unit(v, caps[4..]));
      PairRead(t, p, cp, u, v, caps[..4], caps[4..]);
    }
  }

  // ---------------------------------------------------------------- strings

  /** The bytes that a spelling unescapes to. */
  function Out(s: Spelling): string
    requires Ok(s)
  {
    match s
    case Bytes(b) => b
    case Letter(c) => [Meaning(s) as char]
    case Escaped(cp, _) => Utf8(cp).value
  }

  lemma OutDecodes(s: Spelling)
    requires Ok(s)
    ensures DecodeOne(Out(s)) == Some((Meaning(s), |Out(s)|))
  {
    if s.Escaped? {
      DecodeOneInverts(s.cp, []);
      assert Utf8(s.cp).value + [] == Utf8(s.cp).value;
    }
  }

  lemma DecodeCons(c: string, cp: nat, tail: string)
    requires DecodeOne(c) == Some((cp, |c|)) && Decode(tail).Some?
    ensures Decode(c + tail) == Some([cp] + Decode(tail).value)
  {
    assert c != [] && (c + tail)[0] == c[0];
    assert forall i :: 0 <= i < |c| ==> (c + tail)[i] == c[i];
    assert DecodeOne(c + tail) == DecodeOne(c);
    assert (c + tail)[|c|..] == tail;
  }

  lemma BytesCopied(t: string, p: nat, b: string)
    requires Terminated(t) && Ok(Bytes(b)) && Has(t, p, b) && p + |b| < |t|
    ensures Unescape(t, p, UTF8) == Prepend(b, Unescape(t, p + |b|, UTF8))
  {
    DecodeOnePrefix(b, |b|);
    forall i | p <= i < p + |b| ensures t[i] != '\\' && t[i] != '"' && t[i] != '\0' { assert t[i] == b[i - p]; }
    Copied(t, p, p + |b|);
    assert t[p..p + |b|] == b;
  }

  lemma LetterReads(t: string, p: nat, c: char)
    requires Terminated(t) && Ok(Letter(c)) && Has(t, p, ['\\', c]) && p + 2 < |t|
    ensures Unescape(t, p, UTF8) == Prepend([Meaning(Letter(c)) as char], Unescape(t, p + 2, UTF8))
  {
    var w := ['\\', c];
    assert t[p] == w[0] && t[p + 1] == w[1];
  }

  /** A backslash in front of anything else, or in front of u without an encoder, is kept, and so is what follows. */
  lemma StrayBackslash(t: string, p: nat, enc: Encoder)
    requires Terminated(t) && p + 1 < |t| && t[p] == '\\' && t[p + 1] !in "\"\\/bfnrt" && (t[p + 1] != 'u' || enc.None?)
    ensures Unescape(t, p, enc) == Prepend(['\\'], Unescape(t, p + 1, enc))
    ensures t[p + 1] != '\0' ==> Unescape(t, p + 1, enc) == Prepend([t[p + 1]], Unescape(t, p + 2, enc))
  {
  }

  lemma SpellingReads(t: string, p: nat, s: Spelling, q: nat)
    requires Terminated(t) && Ok(s) && Has(t, p, Written(s)) && q == p + |Written(s)| < |t|
    ensures Unescape(t, p, UTF8) == Prepend(Out(s), Unescape(t, q, UTF8))
  {
    match s
    case Bytes(b) => BytesCopied(t, p, b);
    case Letter(c) => LetterReads(t, p, c);
    case Escaped(cp, caps) => UnitsRead(t, p, cp, caps);
  }

  lemma OneMore(ss: seq<Spelling>)
    requires AllOk(ss) && ss != []
    ensures AllOk(ss[1..]) && Ok(ss[0])
    ensures AllWritten(ss) + "\"" == Written(ss[0]) + (AllWritten(ss[1..]) + "\"")
    ensures |AllWritten(ss)| == |Written(ss[0])| + |AllWritten(ss[1..])|
    ensures AllMeant(ss) == [Meaning(ss[0])] + AllMeant(ss[1..])
  {
    assert ss[0] in ss && forall q :: q in ss[1..] ==> q in ss;
    Assoc(Written(ss[0]), AllWritten(ss[1..]), "\"");
  }

  lemma Assoc(a: string, b: string, c: string)
    ensures (a + b) + c == a + (b + c)
  {
  }

  /** One code point in front of a rest that has been read. */
  lemma ReadsFirst(t: string, p: nat, s: Spelling, q: nat, out: string, meant: seq<nat>, end: nat)
    requires Terminated(t) && Ok(s) && Has(t, p, Written(s)) && q == p + |Written(s)| < |t|
    requires Unescape(t, q, UTF8) == Some((out, end)) && Decode(out) == Some(meant)
    ensures p < |t| && Unescape(t, p, UTF8) == Some((Out(s) + out, end)) && Decode(Out(s) + out) == Some([Meaning(s)] + meant)
  {
    SpellingReads(t, p, s, q);
    MeansFirst(s, out, meant);
  }

  lemma MeansFirst(s: Spelling, out: string, meant: seq<nat>)
    requires Ok(s) && Decode(out) == Some(meant)
    ensures Decode(Out(s) + out) == Some([Meaning(s)] + meant)
  {
    OutDecodes(s);
    DecodeCons(Out(s), Meaning(s), out);
  }

  /** From p on, t holds these spellings and the closing quote, and they have been read. */
  ghost predicate Reads(t: string, p: nat, ss: seq<Spelling>)
    requires Terminated(t) && AllOk(ss)
  {
    p < |t| && var r := Unescape(t, p, UTF8);
    r.Some? && r.value.1 == p + |AllWritten(ss)| + 1 && Decode(r.value.0) == Some(AllMeant(ss))
  }

  lemma ReadsNothing(t: string, p: nat, ss: seq<Spelling>)
    requires Terminated(t) && ss == [] && Has(t, p, AllWritten(ss) + "\"")
    ensures Reads(t, p, ss)
  {
    assert t[p] == (AllWritten(ss) + "\"")[0];
  }

  lemma HasParts(t: string, p: nat, all: string, first: string, rest: string)
    requires Has(t, p, all) && all == first + rest
    ensures Has(t, p, first) && Has(t, p + |first|, rest)
  {
    HasSplit(t, p, first, rest);
  }

  lemma OneMoreAt(t: string, p: nat, ss: seq<Spelling>)
    requires AllOk(ss) && ss != [] && Has(t, p, AllWritten(ss) + "\"")
    ensures AllOk(ss[1..]) && Has(t, p, Written(ss[0])) && Has(t, p + |Written(ss[0])|, AllWritten(ss[1..]) + "\"")
  {
    OneMore(ss);
    HasParts(t, p, AllWritten(ss) + "\"", Written(ss[0]), AllWritten(ss[1..]) + "\"");
  }

  lemma ReadsMore(t: string, p: nat, ss: seq<Spelling>, q: nat)
    requires Terminated(t) && AllOk(ss) && ss != [] && AllOk(ss[1..]) && Has(t, p, Written(ss[0]))
    requires q == p + |Written(ss[0])| && Reads(t, q, ss[1..])
    ensures Reads(t, p, ss)
  {
    OneMore(ss);
    var r := Unescape(t, q, UTF8).value;
    ReadsFirst(t, p, ss[0], q, r.0, AllMeant(ss[1..]), r.1);
  }

  lemma {:induction false} AllRead(t: string, p: nat, ss: seq<Spelling>)
    requires Terminated(t) && AllOk(ss) && Has(t, p, AllWritten(ss) + "\"")
    ensures Reads(t, p, ss)
    decreases |ss|
  {
    if ss == [] {
      ReadsNothing(t, p, ss);
    } else {
      OneMoreAt(t, p, ss);
      AllRead(t, p + |Written(ss[0])|, ss[1..]);
      ReadsMore(t, p, ss, p + |Written(ss[0])|);
    }
  }

  /** However each code point of a string is written, unescaping gives bytes that decode to these code points. */
  lemma SpellingsDecode(t: string, p: nat, ss: seq<Spelling>)
    requires Terminated(t) && AllOk(ss) && Has(t, p, AllWritten(ss) + "\"")
    ensures p < |t| && Unescape(t, p, UTF8).Some?
    ensures Unescape(t, p, UTF8).value.1 == p + |AllWritten(ss)| + 1
    ensures Decode(Unescape(t, p, UTF8).value.0) == Some(AllMeant(ss))
  {
    AllRead(t, p, ss);
  }

  // ---------------------------------------------------------------- refusals

  /** A character that counts as a digit is one of the sixteen, in either case. */
  lemma DigitOf(c: char) returns (upper: bool)
    requires HexVal(c) >= 0
    ensures c == Digit(HexVal(c), upper)
  {
    upper := 'A' <= c <= 'F';
  }

  lemma UnitOf(t: string, p: nat) returns (caps: seq<bool>)
    requires Terminated(t) && p + 2 < |t| && t[p] == '\\' && t[p + 1] == 'u' && Hex4(t, p + 2) >= 0
    ensures |caps| == 4 && Has(t, p, Unit(Hex4(t, p + 2), caps))
  {
    var a := DigitOf(t[p + 2]);
    var b := DigitOf(t[p + 3]);
    var c := DigitOf(t[p + 4]);
    var d := DigitOf(t[p + 5]);
    caps := [a, b, c, d];
    DigitsApart(HexVal(t[p + 2]), HexVal(t[p + 3]), HexVal(t[p + 4]), HexVal(t[p + 5]), Hex4(t, p + 2));
  }

  lemma DigitsApart(a: nat, b: nat, c: nat, d: nat, n: nat)
    requires a < 16 && b < 16 && c < 16 && d < 16 && n == a * 4096 + b * 256 + c * 16 + d
    ensures n / 4096 == a && n / 256 % 16 == b && n / 16 % 16 == c && n % 16 == d
  {
    Quotient(n, 4096, a, b * 256 + c * 16 + d);
    Quotient(n, 256, a * 16 + b, c * 16 + d);
    Quotient(n, 16, a * 256 + b * 16 + c, d);
    Quotient(a * 16 + b, 16, a, b);
    Quotient(a * 256 + b * 16 + c, 16, a * 16 + b, c);
  }

  lemma Quotient(n: nat, m: nat, q: nat, r: nat)
    requires (m == 16 || m == 256 || m == 1024 || m == 4096) && n == q * m + r && r < m
    ensures n / m == q && n % m == r
  {
    if m == 16 {
    } else if m == 256 {
    } else if m == 1024 {
    }
  }

  ghost predicate SpelledAt(t: string, p: nat, cp: nat, caps: seq<bool>) {
    CodePoint(cp) && |caps| == 8 && Has(t, p, Units(cp, caps))
  }

  /** A \u escape is accepted exactly when it spells a code point; a lone surrogate or another digit is refused. */
  lemma EscapeSpells(t: string, p: nat)
    requires Terminated(t) && p + 2 < |t| && t[p] == '\\' && t[p + 1] == 'u'
    ensures Escape(t, p + 1, UTF8).Some? <==> exists cp, caps :: SpelledAt(t, p, cp, caps)
  {
    if Escape(t, p + 1, UTF8).Some? {
      var u := Hex4(t, p + 2);
      var high := UnitOf(t, p);
      if HighSurrogate(u) {
        var low := UnitOf(t, p + 6);
        PairOf(t, p, u, Hex4(t, p + 8), high, low, UnicodeEscape(t, p + 1).value.0);
      } else {
        assert (high + high)[..4] == high && SpelledAt(t, p, u, high + high);
      }
    }
    if cp, caps :| SpelledAt(t, p, cp, caps) {
      SpelledInside(t, p, cp, caps);
      UnitsRead(t, p, cp, caps);
    }
  }

  lemma SpelledInside(t: string, p: nat, cp: nat, caps: seq<bool>)
    requires Terminated(t) && SpelledAt(t, p, cp, caps)
    ensures p + |Units(cp, caps)| < |t|
  {
    var s := Units(cp, caps);
    assert s[|s| - 1] == t[p + |s| - 1];
    DigitValue(if cp < 0x10000 then cp % 16 else (0xdc00 + (cp - 0x10000) % 0x400) % 16, if cp < 0x10000 then caps[3] else caps[7]);
  }

  lemma HasJoin(t: string, p: nat, a: string, b: string)
    requires Has(t, p, a) && Has(t, p + |a|, b)
    ensures Has(t, p, a + b)
  {
  }

  lemma PairOf(t: string, p: nat, u: nat, v: nat, high: seq<bool>, low: seq<bool>, cp: nat)
    requires 0xd800 <= u < 0xdc00 <= v < 0xe000 && |high| == 4 && |low| == 4
    requires Has(t, p, Unit(u, high)) && Has(t, p + 6, Unit(v, low))
    requires cp == 0x10000 + (u - 0xd800) * 0x400 + (v - 0xdc00)
    ensures SpelledAt(t, p, cp, high + low)
  {
    assert (high + low)[..4] == high && (high + low)[4..] == low;
    PairUnits(u, v, high + low, cp);
    HasJoin(t, p, Unit(u, high), Unit(v, low));
  }

  lemma PairUnits(u: nat, v: nat, caps: seq<bool>, cp: nat)
    requires 0xd800 <= u < 0xdc00 <= v < 0xe000 && |caps| == 8
    requires cp == 0x10000 + (u - 0xd800) * 0x400 + (v - 0xdc00)
    ensures CodePoint(cp) && Units(cp, caps) == Unit(u, caps[..4]) + Unit(v, caps[4..])
  {
    Quotient(cp - 0x10000, 0x400, u - 0xd800, v - 0xdc00);
  }
}
