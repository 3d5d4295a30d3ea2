/** nxjson's string level (nxjson.c): unescaping with surrogate pairs, as a function of the original text,
    and the UTF-8 encoder. Characters stand for bytes. */
module NxText {

  datatype Option<+T> = None | Some(value: T)

  /** A C string in its buffer: the terminator is the last character and the only NUL. */
  predicate Terminated(t: string) {
    |t| > 0 && t[|t| - 1] == '\0' && forall i :: 0 <= i < |t| - 1 ==> t[i] != '\0'
  }

  /** nx_json_unicode_encoder: the bytes for a code point, or failure; absent if the caller passes NULL. */
  type Encoder = Option<nat -> Option<string>>

  /** The encoder's documented duty: at most 6 bytes, which is what \uXXXX takes in the text. */
  ghost predicate Fits(enc: Encoder) {
    enc.Some? ==> forall cp: nat :: enc.value(cp).Some? ==> |enc.value(cp).value| <= 6
  }

  /** hex_val. */
  function HexVal(c: char): (r: int)
    ensures -1 <= r < 16
  {
    if '0' <= c <= '9' then c as int - '0' as int
    else if 'a' <= c <= 'f' then c as int - 'a' as int + 10
    else if 'A' <= c <= 'F' then c as int - 'A' as int + 10
    else -1
  }

  /** The value of four hex digits at p, or -1; a digit is read only if those before it are hex digits. */
  function Hex4(t: string, p: nat): (r: int)
    requires Terminated(t) && p < |t|
    ensures -1 <= r < 0x10000
    ensures r >= 0 ==> p + 4 < |t|
  {
    var h1 := HexVal(t[p]);
    if h1 < 0 then -1
    else
      var h2 := HexVal(t[p + 1]);
      if h2 < 0 then -1
      else
        var h3 := HexVal(t[p + 2]);
        if h3 < 0 then -1
        else
          var h4 := HexVal(t[p + 3]);
          if h4 < 0 then -1 else h1 * 4096 + h2 * 256 + h3 * 16 + h4
  }

  predicate HighSurrogate(u: int) { 0xd800 <= u < 0xdc00 }
  predicate LowSurrogate(u: int) { 0xdc00 <= u < 0xe000 }

  /** A \u escape whose 'u' is at p: the code point and the position behind the escape. */
  function UnicodeEscape(t: string, p: nat): (r: Option<(nat, nat)>)
    requires Terminated(t) && p < |t| - 1
    ensures r.Some? ==> p + 5 <= r.value.1 < |t|
  {
    var u := Hex4(t, p + 1);
    if u < 0 then None
    else if !HighSurrogate(u) then Some((u, p + 5))
    else if t[p + 5] != '\\' || t[p + 6] != 'u' then None
    else
      var v := Hex4(t, p + 7);
      if v < 0 || !LowSurrogate(v) then None
      else Some((0x10000 + (u - 0xd800) * 1024 + (v - 0xdc00), p + 11))
  }

  /** What a backslash in front of t[p] stands for, and the position behind it. */
  function Escape(t: string, p: nat, enc: Encoder): (r: Option<(string, nat)>)
    requires Terminated(t) && p < |t|
    ensures r.Some? ==> p <= r.value.1 < |t|
  {
    var c := t[p];
    if c == '\\' || c == '/' || c == '"' then Some(([c], p + 1))
    else if c == 'b' then Some((['\U{8}'], p + 1))
    else if c == 'f' then Some((['\U{C}'], p + 1))
    else if c == 'n' then Some((['\n'], p + 1))
    else if c == 'r' then Some((['\r'], p + 1))
    else if c == 't' then Some((['\t'], p + 1))
    else if c == 'u' && enc.Some? then
      match UnicodeEscape(t, p)
      case None => None
      case Some((cp, q)) => (match enc.value(cp) case None => None case Some(bytes) => Some((bytes, q)))
    else Some((['\\'], p))
  }

  /** unescape_string from p on: the string's value and the position behind its closing quote. */
  function Unescape(t: string, p: nat, enc: Encoder): (r: Option<(string, nat)>)
    requires Terminated(t) && p < |t|
    ensures r.Some? ==> p < r.value.1 < |t|
    decreases |t| - p
  {
    var c := t[p];
    if c == '\0' then None
    else if c == '"' then Some(([], p + 1))
    else if c == '\\' then
      match Escape(t, p + 1, enc)
      case None => None
      case Some((out, q)) => Prepend(out, Unescape(t, q, enc))
    else Prepend([c], Unescape(t, p + 1, enc))
  }

  function Prepend(out: string, r: Option<(string, nat)>): Option<(string, nat)> {
    match r
    case None => None
    case Some((rest, q)) => Some((out + rest, q))
  }

  /** The value never outgrows the text it is read from, so it fits in front of the closing quote. */
  lemma {:induction false} UnescapeShrinks(t: string, p: nat, enc: Encoder)
    requires Terminated(t) && p < |t| && Fits(enc)
    ensures Unescape(t, p, enc).Some? ==> |Unescape(t, p, enc).value.0| < Unescape(t, p, enc).value.1 - p
    decreases |t| - p
  {
    if t[p] == '\\' {
      var e := Escape(t, p + 1, enc);
      if e.Some? { UnescapeShrinks(t, e.value.1, enc); }
    } else if t[p] != '\0' && t[p] != '"' {
      UnescapeShrinks(t, p + 1, enc);
    }
  }

  // ---------------------------------------------------------------- UTF-8

  predicate Scalar(cp: nat) { cp < 0x110000 && !(0xd800 <= cp < 0xe000) }

  /** unicode_to_utf8: section 3 of RFC 3629. */
  function Utf8(cp: nat): (r: Option<string>)
    ensures r.Some? <==> Scalar(cp)
    ensures r.Some? ==> 1 <= |r.value| <= 4
  {
    if cp < 0x80 then Some([cp as char])
    else if cp < 0x800 then Some([(192 + cp / 64) as char, (128 + cp % 64) as char])
    else if 0xd800 <= cp < 0xe000 then None
    else if cp < 0x10000 then
      Some([(224 + cp / 4096) as char, (128 + cp / 64 % 64) as char, (128 + cp % 64) as char])
    else if cp < 0x110000 then
      Some([(240 + cp / 262144) as char, (128 + cp / 4096 % 64) as char, (128 + cp / 64 % 64) as char, (128 + cp % 64) as char])
    else None
  }

  const UTF8: Encoder := Some((cp: nat) => Utf8(cp))

  /** The low six bits of a continuation byte, or -1. */
  function Continuation(b: char): int { if 0x80 <= b as int < 0xc0 then b as int - 0x80 else -1 }

  /** A strict UTF-8 decoder for one character: overlong forms, surrogates and values past U+10FFFF are refused. */
  function DecodeOne(b: string): Option<(nat, nat)> {
    if b == [] then None
    else
      var b0 := b[0] as int;
      if b0 < 0x80 then Some((b0, 1))
      else if 0xc0 <= b0 < 0xe0 && |b| >= 2 && Continuation(b[1]) >= 0 then
        Checked((b0 - 0xc0) * 64 + Continuation(b[1]), 2, 0x80)
      else if 0xe0 <= b0 < 0xf0 && |b| >= 3 && Continuation(b[1]) >= 0 && Continuation(b[2]) >= 0 then
        Checked((b0 - 0xe0) * 4096 + Continuation(b[1]) * 64 + Continuation(b[2]), 3, 0x800)
      else if 0xf0 <= b0 < 0xf8 && |b| >= 4 && Continuation(b[1]) >= 0 && Continuation(b[2]) >= 0 && Continuation(b[3]) >= 0 then
        Checked((b0 - 0xf0) * 262144 + Continuation(b[1]) * 4096 + Continuation(b[2]) * 64 + Continuation(b[3]), 4, 0x10000)
      else None
  }

  function Checked(cp: nat, len: nat, least: nat): Option<(nat, nat)> {
    if cp >= least && Scalar(cp) then Some((cp, len)) else None
  }

  function Decode(b: string): Option<seq<nat>> {
    if b == [] then Some([])
    else
      match DecodeOne(b)
      case None => None
      case Some((cp, len)) =>
        if len > |b| || len == 0 then None
        else
          match Decode(b[len..])
          case None => None
          case Some(rest) => Some([cp] + rest)
  }

  /** Base-64 digits put together again. */
  lemma Digits(cp: nat)
    ensures cp / 64 * 64 + cp % 64 == cp
    ensures cp / 4096 * 64 + cp / 64 % 64 == cp / 64
    ensures cp / 262144 * 64 + cp / 4096 % 64 == cp / 4096
  {
  }

  lemma DecodeOneInverts(cp: nat, rest: string)
    requires Scalar(cp)
    ensures DecodeOne(Utf8(cp).value + rest) == Some((cp, |Utf8(cp).value|))
  {
    var b := Utf8(cp).value + rest;
    Digits(cp);
    if cp < 0x80 {
    } else if cp < 0x800 {
      assert b[0] as int - 0xc0 == cp / 64 && Continuation(b[1]) == cp % 64;
    } else if cp < 0x10000 {
      assert b[0] as int - 0xe0 == cp / 4096 && Continuation(b[1]) == cp / 64 % 64 && Continuation(b[2]) == cp % 64;
    } else {
      assert b[0] as int - 0xf0 == cp / 262144 && Continuation(b[1]) == cp / 4096 % 64;
      assert Continuation(b[2]) == cp / 64 % 64 && Continuation(b[3]) == cp % 64;
    }
  }

  // ---------------------------------------------------------------- \u escapes

  /** s is written in t at p. */
  predicate Has(t: string, p: nat, s: string) { p + |s| <= |t| && forall i :: 0 <= i < |s| ==> s[i] == t[p + i] }

  lemma HasSplit(t: string, p: nat, a: string, b: string)
    requires Has(t, p, a + b)
    ensures Has(t, p, a) && Has(t, p + |a|, b)
  {
    forall i | 0 <= i < |b| ensures b[i] == t[p + |a| + i] { assert (a + b)[|a| + i] == b[i]; }
    forall i | 0 <= i < |a| ensures a[i] == t[p + i] { assert (a + b)[i] == a[i]; }
  }

  lemma PairValue(t: string, p: nat, u: nat, v: nat)
    requires Terminated(t) && p < |t| - 1 && p + 11 < |t| && t[p + 5] == '\\' && t[p + 6] == 'u'
    requires Hex4(t, p + 1) == u && Hex4(t, p + 7) == v && HighSurrogate(u) && LowSurrogate(v)
    ensures UnicodeEscape(t, p) == Some((0x10000 + (u - 0xd800) * 1024 + (v - 0xdc00), p + 11))
  {
  }

  lemma EscapeReads(t: string, p: nat, cp: nat, q: nat)
    requires Terminated(t) && p < |t| - 1 && t[p] == 'u' && UnicodeEscape(t, p) == Some((cp, q)) && Scalar(cp)
    ensures Escape(t, p, UTF8) == Some((Utf8(cp).value, q))
  {
  }

  /** \uXXXX is refused exactly when it is a lone low surrogate, or a high one that no low one follows. */
  lemma SurrogatesPairUp(t: string, p: nat)
    requires Terminated(t) && p < |t| - 1 && t[p] == 'u' && Hex4(t, p + 1) >= 0
    ensures var u := Hex4(t, p + 1);
      Escape(t, p, UTF8) == None <==>
        LowSurrogate(u) || (HighSurrogate(u) &&
          !(t[p + 5] == '\\' && t[p + 6] == 'u' && Hex4(t, p + 7) >= 0 && LowSurrogate(Hex4(t, p + 7))))
  {
  }

  /** If the text between the quotes is well-formed UTF-8, then so is what it unescapes to, whatever its escapes: no
      surrogate is ever encoded, and no character is torn apart. */
  lemma OutputIsUtf8(t: string, p: nat)
    requires Terminated(t) && p < |t| && Unescape(t, p, UTF8).Some?
    requires Decode(t[p..Unescape(t, p, UTF8).value.1 - 1]).Some?
    ensures Decode(Unescape(t, p, UTF8).value.0).Some?
  {
    var (value, q) := Unescape(t, p, UTF8).value;
    ValueDecodes(t, p, q, value);
  }

  lemma {:induction false} ValueDecodes(t: string, p: nat, q: nat, value: string)
    requires Terminated(t) && p < q < |t| && Unescape(t, p, UTF8) == Some((value, q)) && Decode(t[p..q - 1]).Some?
    ensures Decode(value).Some?
    decreases |t| - p
  {
    if t[p] == '\\' {
      var at, out, rest := EscapeFirst(t, p, q);
      ValueDecodes(t, at, q, rest);
      FirstDecoded(out, rest);
    } else if t[p] != '"' {
      var at, out, rest := Character(t, p, q);
      ValueDecodes(t, at, q, rest);
      FirstDecoded(out, rest);
    }
  }

  /** An escape at the front: it stands for one code point, and the text behind it still decodes. */
  lemma EscapeFirst(t: string, p: nat, q: nat) returns (at: nat, out: string, rest: string)
    requires Terminated(t) && p < q < |t| && t[p] == '\\'
    requires Unescape(t, p, UTF8).Some? && Unescape(t, p, UTF8).value.1 == q && Decode(t[p..q - 1]).Some?
    ensures p < at < q && Unescape(t, at, UTF8) == Some((rest, q)) && Unescape(t, p, UTF8) == Some((out + rest, q))
    ensures DecodeOne(out).Some? && DecodeOne(out).value.1 == |out| && Decode(t[at..q - 1]).Some?
  {
    at := Escape(t, p + 1, UTF8).value.1;
    out, rest := Escape(t, p + 1, UTF8).value.0, Unescape(t, at, UTF8).value.0;
    var cp := EscapeStandsFor(t, p + 1);
    DecodeOneInverts(cp, []);
    assert out + [] == out;
    EscapeIsAscii(t, p + 1);
    var raw := t[p..q - 1];
    DropAscii(raw, at - p);
    assert raw[at - p..] == t[at..q - 1];
  }

  /** The characters of an escape. */
  lemma EscapeIsAscii(t: string, p: nat)
    requires Terminated(t) && p < |t| && Escape(t, p, UTF8).Some?
    ensures forall i :: p <= i < Escape(t, p, UTF8).value.1 ==> t[i] as int < 0x80
  {
    if t[p] == 'u' {
      var u := Hex4(t, p + 1);
      forall i | p < i < p + 5 ensures t[i] as int < 0x80 { assert HexVal(t[i]) >= 0; }
      if HighSurrogate(u) {
        forall i | p + 6 < i < p + 11 ensures t[i] as int < 0x80 { assert HexVal(t[i]) >= 0; }
      }
    }
  }

  lemma {:induction false} DropAscii(b: string, n: nat)
    requires n <= |b| && Decode(b).Some? && forall i :: 0 <= i < n ==> b[i] as int < 0x80
    ensures Decode(b[n..]).Some?
    decreases n
  {
    if n == 0 {
      assert b[0..] == b;
    } else {
      DropAscii(b[1..], n - 1);
      assert b[1..][n - 1..] == b[n..];
    }
  }

  /** A decoded character, and what is behind it. */
  lemma FirstDecoded(c: string, tail: string)
    requires DecodeOne(c).Some? && DecodeOne(c).value.1 == |c| && Decode(tail).Some?
    ensures Decode(c + tail).Some?
  {
    assert c != [] && (c + tail)[0] == c[0];
    assert forall i :: 0 <= i < |c| ==> (c + tail)[i] == c[i];
    assert DecodeOne(c + tail) == DecodeOne(c);
    assert (c + tail)[|c|..] == tail;
  }

  /** A character that is copied: all of its bytes are, one after the other. */
  lemma Character(t: string, p: nat, q: nat) returns (at: nat, out: string, rest: string)
    requires Terminated(t) && p < q < |t| && t[p] != '\\' && t[p] != '"'
    requires Unescape(t, p, UTF8).Some? && Unescape(t, p, UTF8).value.1 == q && Decode(t[p..q - 1]).Some?
    ensures p < at < q && Unescape(t, at, UTF8) == Some((rest, q)) && Unescape(t, p, UTF8) == Some((out + rest, q))
    ensures DecodeOne(out).Some? && DecodeOne(out).value.1 == |out| && Decode(t[at..q - 1]).Some?
  {
    var raw := t[p..q - 1];
    var len := DecodeOne(raw).value.1;
    DecodeOnePrefix(raw, len);
    at, out := p + len, t[p..p + len];
    assert raw[..len] == out && raw[len..] == t[at..q - 1];
    forall i | p <= i < at ensures t[i] != '\\' && t[i] != '"' && t[i] != '\0' { assert raw[i - p] == t[i]; }
    Copied(t, p, at);
    rest := Unescape(t, at, UTF8).value.0;
  }

  /** One character's bytes: a single one, or none below 0x80. */
  lemma DecodeOnePrefix(b: string, len: nat)
    requires DecodeOne(b).Some? && DecodeOne(b).value.1 == len
    ensures 0 < len <= |b| && DecodeOne(b[..len]) == DecodeOne(b)
    ensures len > 1 ==> forall i :: 0 <= i < len ==> b[i] as int >= 0x80
  {
  }

  lemma {:induction false} Copied(t: string, p: nat, at: nat)
    requires Terminated(t) && p <= at < |t| && forall i :: p <= i < at ==> t[i] != '\\' && t[i] != '"' && t[i] != '\0'
    ensures Unescape(t, p, UTF8) == Prepend(t[p..at], Unescape(t, at, UTF8))
    decreases at - p
  {
    if p < at {
      Copied(t, p + 1, at);
      PrependTwice([t[p]], t[p + 1..at], Unescape(t, at, UTF8));
      assert t[p..at] == [t[p]] + t[p + 1..at];
    } else {
      assert t[p..at] == [];
      PrependNothing(Unescape(t, p, UTF8));
    }
  }

  lemma PrependTwice(a: string, b: string, r: Option<(string, nat)>)
    ensures Prepend(a, Prepend(b, r)) == Prepend(a + b, r)
  {
    if r.Some? { assert a + (b + r.value.0) == a + b + r.value.0; }
  }

  lemma PrependNothing(r: Option<(string, nat)>)
    ensures Prepend([], r) == r
  {
    if r.Some? { assert [] + r.value.0 == r.value.0; }
  }

  /** ASCII text is an instance. */
  lemma {:induction false} AsciiDecodes(b: string)
    requires forall i :: 0 <= i < |b| ==> b[i] as int < 0x80
    ensures Decode(b).Some?
    decreases |b|
  {
    if b != [] { AsciiDecodes(b[1..]); }
  }

  lemma EscapeStandsFor(t: string, p: nat) returns (cp: nat)
    requires Terminated(t) && p < |t| && Escape(t, p, UTF8).Some?
    ensures Scalar(cp) && Escape(t, p, UTF8).value.0 == Utf8(cp).value
  {
    var out := Escape(t, p, UTF8).value.0;
    if t[p] == 'u' {
      cp := UnicodeEscape(t, p).value.0;
    } else {
      cp := out[0] as int;
    }
  }
}
