/** What jsmn_parse leaves behind on the text of a JSON value, whatever the whitespace: the preorder
    listing of the value's nodes, in both builds. */
module JsmnTree {
  import opened JsmnModel

  // ---------------------------------------------------------------- values and their text

  /** One character of a string as written: plain, escaped, or \uXXXX. */
  datatype Piece = Plain(c: char) | Escape(c: char) | Unicode(a: char, b: char, c: char, d: char)

  /** A JSON value together with the whitespace it is written with. */
  datatype Value =
    | Prim(text: string)
    | Str(body: seq<Piece>)
    | Arr(pad: string, elems: Elems)
    | Obj(pad: string, members: Members)

  datatype Elems = NoElems | Elem(before: string, value: Value, after: string, rest: Elems)

  datatype Members =
    | NoMembers
    | Member(before: string, key: seq<Piece>, mid: string, gap: string, value: Value, after: string, rest: Members)

  function PieceText(p: Piece): string {
    match p
    case Plain(c) => [c]
    case Escape(c) => ['\\', c]
    case Unicode(a, b, c, d) => ['\\', 'u', a, b, c, d]
  }

  const DIGITS := "0123456789ABCDEFabcdef"

  predicate OkPiece(p: Piece) {
    match p
    case Plain(c) => c != '"' && c != '\\' && c != '\0'
    case Escape(c) => c in "\"\\/bfnrt"
    case Unicode(a, b, c, d) => a in DIGITS && b in DIGITS && c in DIGITS && d in DIGITS
  }

  function BodyText(body: seq<Piece>): string {
    if body == [] then [] else PieceText(body[0]) + BodyText(body[1..])
  }

  function Quoted(body: seq<Piece>): string { ['"'] + BodyText(body) + ['"'] }

  function Text(v: Value): string {
    match v
    case Prim(text) => text
    case Str(body) => Quoted(body)
    case Arr(pad, elems) => ['['] + (pad + ElemsText(elems))
    case Obj(pad, members) => ['{'] + (pad + MembersText(members))
  }

  /** The elements up to and including the closing bracket. */
  function ElemsText(es: Elems): (s: string)
    ensures s != []
  {
    match es
    case NoElems => [']']
    case Elem(before, v, after, rest) =>
      before + (Text(v) + (after + ((if rest.NoElems? then [] else [',']) + ElemsText(rest))))
  }

  /** The members up to and including the closing bracket. */
  function MembersText(ms: Members): (s: string)
    ensures s != []
    decreases ms, 1
  {
    match ms
    case NoMembers => ['}']
    case Member(before, key, mid, gap, v, after, rest) =>
      before + (Quoted(key) + (mid + ([':'] + ValueText(ms))))
  }

  /** A member from behind its colon on. */
  function ValueText(ms: Members): (s: string)
    requires ms.Member?
    decreases ms, 0
  {
    ms.gap + (Text(ms.value) + (ms.after + ((if ms.rest.NoMembers? then [] else [',']) + MembersText(ms.rest))))
  }

  predicate Spaces(w: string) { forall c :: c in w ==> c in " \t\r\n" }

  predicate OkBody(body: seq<Piece>) { forall p :: p in body ==> OkPiece(p) }

  /** A number, a literal, or any other run of printable characters that jsmn takes for one. */
  predicate OkPrimitive(text: string) {
    text != [] && text[0] !in "{[\"" && forall c :: c in text ==> 33 <= c as int <= 126 && c !in ":,]}"
  }

  predicate OkValue(v: Value) {
    match v
    case Prim(text) => OkPrimitive(text)
    case Str(body) => OkBody(body)
    case Arr(pad, elems) => Spaces(pad) && OkElems(elems)
    case Obj(pad, members) => Spaces(pad) && OkMembers(members)
  }

  predicate OkElems(es: Elems) {
    match es
    case NoElems => true
    case Elem(before, v, after, rest) => Spaces(before) && OkValue(v) && Spaces(after) && OkElems(rest)
  }

  predicate OkMembers(ms: Members) {
    match ms
    case NoMembers => true
    case Member(before, key, mid, gap, v, after, rest) =>
      Spaces(before) && OkBody(key) && Spaces(mid) && Spaces(gap) && OkValue(v) && Spaces(after) && OkMembers(rest)
  }

  // ---------------------------------------------------------------- the expected listing

  function ElemCount(es: Elems): nat { if es.NoElems? then 0 else 1 + ElemCount(es.rest) }

  function KeyCount(ms: Members): nat { if ms.NoMembers? then 0 else 1 + KeyCount(ms.rest) }

  /** The number of nodes, keys included. */
  function Nodes(v: Value): nat {
    match v
    case Prim(_) => 1
    case Str(_) => 1
    case Arr(_, elems) => 1 + ElemsNodes(elems)
    case Obj(_, members) => 1 + MembersNodes(members)
  }

  function ElemsNodes(es: Elems): nat { if es.NoElems? then 0 else Nodes(es.value) + ElemsNodes(es.rest) }

  function MembersNodes(ms: Members): nat { if ms.NoMembers? then 0 else 1 + Nodes(ms.value) + MembersNodes(ms.rest) }

  /** The nodes of a value in preorder, the value being written at `off` and its own token having index `base`:
      an object counts its keys, a key counts its one value, an array counts its elements. */
  function Listing(v: Value, off: nat, base: nat, parent: int): (toks: seq<Token>)
    ensures |toks| == Nodes(v)
  {
    match v
    case Prim(text) => [Token(Primitive, off, off + |text|, 0, parent)]
    case Str(body) => [Token(String, off + 1, off + 1 + |BodyText(body)|, 0, parent)]
    case Arr(pad, elems) =>
      [Token(Array, off, off + |Text(v)|, ElemCount(elems), parent)]
      + ElemsListing(elems, off + 1 + |pad|, base + 1, base)
    case Obj(pad, members) =>
      [Token(Object, off, off + |Text(v)|, KeyCount(members), parent)]
      + MembersListing(members, off + 1 + |pad|, base + 1, base)
  }

  /** Where the value of an element or member starts, and where the next element or member does. */
  function ElemAt(es: Elems, off: nat): nat
    requires es.Elem?
  {
    off + |es.before|
  }

  function NextElem(es: Elems, off: nat): nat
    requires es.Elem?
  {
    ElemAt(es, off) + |Text(es.value)| + |es.after| + (if es.rest.NoElems? then 0 else 1)
  }

  function KeyAt(ms: Members, off: nat): nat
    requires ms.Member?
  {
    off + |ms.before| + 1
  }

  function MemberAt(ms: Members, off: nat): nat
    requires ms.Member?
  {
    KeyAt(ms, off) + |BodyText(ms.key)| + 1 + |ms.mid| + 1 + |ms.gap|
  }

  function NextMember(ms: Members, off: nat): nat
    requires ms.Member?
  {
    MemberAt(ms, off) + |Text(ms.value)| + |ms.after| + (if ms.rest.NoMembers? then 0 else 1)
  }

  function ElemsListing(es: Elems, off: nat, base: nat, parent: int): (toks: seq<Token>)
    ensures |toks| == ElemsNodes(es)
  {
    if es.NoElems? then []
    else
      Listing(es.value, ElemAt(es, off), base, parent)
      + ElemsListing(es.rest, NextElem(es, off), base + Nodes(es.value), parent)
  }

  /** The key's own token, once its value has been counted. */
  function KeyToken(ms: Members, off: nat, size: nat, parent: int): Token
    requires ms.Member?
  {
    Token(String, KeyAt(ms, off), KeyAt(ms, off) + |BodyText(ms.key)|, size, parent)
  }

  function MembersListing(ms: Members, off: nat, base: nat, parent: int): (toks: seq<Token>)
    ensures |toks| == MembersNodes(ms)
  {
    if ms.NoMembers? then []
    else
      [KeyToken(ms, off, 1, parent)] + Listing(ms.value, MemberAt(ms, off), base + 1, base)
      + MembersListing(ms.rest, NextMember(ms, off), base + 1 + Nodes(ms.value), parent)
  }

  // ---------------------------------------------------------------- reading text at a position

  /** s is written in js at p. */
  predicate Has(js: string, p: nat, s: string) { p + |s| <= |js| && forall i :: 0 <= i < |s| ==> s[i] == js[p + i] }

  lemma HasSplit(js: string, p: nat, a: string, b: string)
    requires Has(js, p, a + b)
    ensures Has(js, p, a) && Has(js, p + |a|, b)
  {
    forall i | 0 <= i < |b| ensures b[i] == js[p + |a| + i] { assert (a + b)[|a| + i] == b[i]; }
    forall i | 0 <= i < |a| ensures a[i] == js[p + i] { assert (a + b)[i] == a[i]; }
  }

  lemma {:induction false} ScanHexDigits(js: string, p: nat, s: string)
    requires Has(js, p, s) && forall c :: c in s ==> Hex(c)
    ensures ScanHex(js, p, |s|) == Found(p + |s|)
    decreases |s|
  {
    if s != [] {
      assert s == [s[0]] + s[1..];
      HasSplit(js, p, [s[0]], s[1..]);
      assert js[p] == s[0] && s[0] in s;
      ScanHexDigits(js, p + 1, s[1..]);
    }
  }

  lemma DigitIsHex(c: char)
    ensures c in DIGITS <==> Hex(c)
  {
  }

  lemma ScanEscape(js: string, p: nat, c: char)
    requires OkPiece(Escape(c)) && Has(js, p, ['\\', c])
    ensures ScanString(js, p) == ScanString(js, p + 2)
  {
    var t := ['\\', c];
    assert js[p] == t[0] && js[p + 1] == t[1];
  }

  lemma ScanUnicode(js: string, p: nat, digits: string)
    requires |digits| == 4 && (forall c :: c in digits ==> c in DIGITS) && Has(js, p, ['\\', 'u'] + digits)
    ensures ScanString(js, p) == ScanString(js, p + 6)
  {
    var t := ['\\', 'u'];
    HasSplit(js, p, t, digits);
    assert js[p] == t[0] && js[p + 1] == t[1];
    forall c | c in digits ensures Hex(c) { DigitIsHex(c); }
    ScanHexDigits(js, p + 2, digits);
  }

  lemma ScanPiece(js: string, p: nat, piece: Piece)
    requires OkPiece(piece) && Has(js, p, PieceText(piece))
    ensures ScanString(js, p) == ScanString(js, p + |PieceText(piece)|)
  {
    match piece
    case Plain(c) => assert js[p] == [c][0];
    case Escape(c) => ScanEscape(js, p, c);
    case Unicode(a, b, c, d) =>
      assert PieceText(piece) == ['\\', 'u'] + [a, b, c, d];
      ScanUnicode(js, p, [a, b, c, d]);
  }

  lemma FirstPiece(js: string, p: nat, body: seq<Piece>)
    requires body != [] && Has(js, p, BodyText(body) + ['"'])
    ensures Has(js, p, PieceText(body[0])) && Has(js, p + |PieceText(body[0])|, BodyText(body[1..]) + ['"'])
    ensures |BodyText(body)| == |PieceText(body[0])| + |BodyText(body[1..])|
  {
    var t, rest := PieceText(body[0]), BodyText(body[1..]) + ['"'];
    assert BodyText(body) + ['"'] == t + rest;
    HasSplit(js, p, t, rest);
  }

  /** A string body is scanned to its closing quote. */
  lemma {:induction false} ScanBody(js: string, p: nat, body: seq<Piece>)
    requires OkBody(body) && Has(js, p, BodyText(body) + ['"'])
    ensures ScanString(js, p) == Found(p + |BodyText(body)|)
    decreases |body|
  {
    if body == [] {
      assert (BodyText(body) + ['"'])[0] == '"';
    } else {
      assert body[0] in body;
      FirstPiece(js, p, body);
      ScanBody(js, p + |PieceText(body[0])|, body[1..]);
      ScanPiece(js, p, body[0]);
    }
  }

  /** What may follow a primitive: the end of the text or a delimiter. */
  predicate Stops(js: string, p: nat) { !More(js, p) || Delimiter(js[p]) }

  lemma {:induction false} ScanText(js: string, p: nat, text: string)
    requires Has(js, p, text) && Stops(js, p + |text|)
    requires forall c :: c in text ==> Printable(c) && !Delimiter(c)
    ensures ScanPrimitive(js, p) == Found(p + |text|)
    decreases |text|
  {
    if text != [] {
      assert text == [text[0]] + text[1..];
      HasSplit(js, p, [text[0]], text[1..]);
      assert js[p] == text[0] && text[0] in text;
      ScanText(js, p + 1, text[1..]);
    }
  }

  // ---------------------------------------------------------------- listings inside the token array

  /** Following parents from index i through `toks`, which sits at index `base`, until below `base`. */
  function Exit(toks: seq<Token>, base: nat, i: int): (r: int)
    requires Rooted(toks, base) && -1 <= i < base + |toks|
    ensures -1 <= r < base
    decreases i
  {
    if i < base then i else Exit(toks, base, toks[i - base].parent)
  }

  /** Tokens that may be appended at index `base`: their parents come before them. */
  predicate Rooted(toks: seq<Token>, base: nat) {
    forall i :: 0 <= i < |toks| ==> -1 <= toks[i].parent < base + i
  }

  ghost predicate Closed(toks: seq<Token>) { forall t :: t in toks ==> !t.Open() }

  /** A finished piece of a listing under `parent`: no token is open, and the parents of its last token lead out to `parent`. */
  ghost predicate Finished(toks: seq<Token>, base: nat, parent: int) {
    Closed(toks) && Rooted(toks, base) && -1 <= parent < base &&
    (toks != [] ==> Exit(toks, base, base + |toks| - 1) == parent)
  }

  lemma RootedAppend(a: seq<Token>, b: seq<Token>, base: nat)
    requires Rooted(a, base) && Rooted(b, base + |a|)
    ensures Rooted(a + b, base)
  {
  }

  lemma {:induction false} ExitAppend(a: seq<Token>, b: seq<Token>, base: nat, i: int)
    requires Rooted(a, base) && Rooted(b, base + |a|) && -1 <= i < base + |a| + |b|
    ensures Rooted(a + b, base)
    ensures Exit(a + b, base, i) == Exit(a, base, Exit(b, base + |a|, i))
    decreases i
  {
    RootedAppend(a, b, base);
    if i >= base {
      var p := (a + b)[i - base].parent;
      ExitAppend(a, b, base, p);
      if i >= base + |a| { assert (a + b)[i - base] == b[i - base - |a|]; }
    }
  }

  /** Two finished pieces under the same parent, one after the other. */
  lemma FinishedAppend(a: seq<Token>, b: seq<Token>, base: nat, parent: int)
    requires Finished(a, base, parent) && Finished(b, base + |a|, parent)
    ensures Finished(a + b, base, parent)
  {
    RootedAppend(a, b, base);
    if b == [] {
      assert a + b == a;
    } else {
      ExitAppend(a, b, base, base + |a| + |b| - 1);
    }
  }

  /** A closed token and finished pieces under it. */
  lemma FinishedUnder(t: Token, under: seq<Token>, base: nat, parent: int)
    requires !t.Open() && t.parent == parent && -1 <= parent < base && Finished(under, base + 1, base)
    ensures Finished([t] + under, base, parent)
  {
    RootedAppend([t], under, base);
    ExitAppend([t], under, base, base + |under|);
    assert Exit([t], base, base) == parent;
  }

  lemma {:induction false} ListingFinished(v: Value, off: nat, base: nat, parent: int)
    requires -1 <= parent < base
    ensures Finished(Listing(v, off, base, parent), base, parent)
    decreases v, 0
  {
    match v
    case Prim(_) => LeafFinished(Listing(v, off, base, parent)[0], base, parent);
    case Str(_) => LeafFinished(Listing(v, off, base, parent)[0], base, parent);
    case Arr(pad, elems) =>
      ElemsFinished(elems, off + 1 + |pad|, base + 1, base);
      ArrayFinished(v, off, base, parent, ElemsListing(elems, off + 1 + |pad|, base + 1, base));
    case Obj(pad, members) =>
      MembersFinished(members, off + 1 + |pad|, base + 1, base);
      ObjectFinished(v, off, base, parent, MembersListing(members, off + 1 + |pad|, base + 1, base));
  }

  lemma ArrayFinished(v: Value, off: nat, base: nat, parent: int, under: seq<Token>)
    requires v.Arr? && -1 <= parent < base && under == ElemsListing(v.elems, off + 1 + |v.pad|, base + 1, base)
    requires Finished(under, base + 1, base)
    ensures Finished(Listing(v, off, base, parent), base, parent)
  {
    FinishedUnder(Token(Array, off, off + |Text(v)|, ElemCount(v.elems), parent), under, base, parent);
  }

  lemma ObjectFinished(v: Value, off: nat, base: nat, parent: int, under: seq<Token>)
    requires v.Obj? && -1 <= parent < base && under == MembersListing(v.members, off + 1 + |v.pad|, base + 1, base)
    requires Finished(under, base + 1, base)
    ensures Finished(Listing(v, off, base, parent), base, parent)
  {
    FinishedUnder(Token(Object, off, off + |Text(v)|, KeyCount(v.members), parent), under, base, parent);
  }

  lemma LeafFinished(t: Token, base: nat, parent: int)
    requires !t.Open() && t.parent == parent && -1 <= parent < base
    ensures Finished([t], base, parent)
  {
    FinishedUnder(t, [], base, parent);
    assert [t] + [] == [t];
  }

  /** A key and the finished listing of its value. */
  lemma {:induction false} MemberPiece(ms: Members, off: nat, base: nat, parent: int) returns (piece: seq<Token>)
    requires ms.Member? && -1 <= parent < base
    ensures piece == [KeyToken(ms, off, 1, parent)] + Listing(ms.value, MemberAt(ms, off), base + 1, base)
    ensures Finished(piece, base, parent)
    decreases ms, 0
  {
    var value := Listing(ms.value, MemberAt(ms, off), base + 1, base);
    ListingFinished(ms.value, MemberAt(ms, off), base + 1, base);
    FinishedUnder(KeyToken(ms, off, 1, parent), value, base, parent);
    piece := [KeyToken(ms, off, 1, parent)] + value;
  }

  lemma {:induction false} ElemsFinished(es: Elems, off: nat, base: nat, parent: int)
    requires -1 <= parent < base
    ensures Finished(ElemsListing(es, off, base, parent), base, parent)
    decreases es, 1
  {
    if es.Elem? {
      ListingFinished(es.value, ElemAt(es, off), base, parent);
      ElemsFinished(es.rest, NextElem(es, off), base + Nodes(es.value), parent);
      FinishedAppend(Listing(es.value, ElemAt(es, off), base, parent),
                     ElemsListing(es.rest, NextElem(es, off), base + Nodes(es.value), parent), base, parent);
    }
  }

  lemma {:induction false} MembersFinished(ms: Members, off: nat, base: nat, parent: int)
    requires -1 <= parent < base
    ensures Finished(MembersListing(ms, off, base, parent), base, parent)
    decreases ms, 1
  {
    if ms.Member? {
      var piece := MemberPiece(ms, off, base, parent);
      var rest := MembersListing(ms.rest, NextMember(ms, off), base + 1 + Nodes(ms.value), parent);
      MembersFinished(ms.rest, NextMember(ms, off), base + 1 + Nodes(ms.value), parent);
      FinishedAppend(piece, rest, base, parent);
      assert MembersListing(ms, off, base, parent) == piece + rest;
    }
  }

  /** Walking up from inside a finished piece goes on at its parent. */
  lemma {:induction false} ClimbExit(toks: seq<Token>, more: seq<Token>, i: nat)
    requires ParentsBelow(toks) && Rooted(more, |toks|) && Closed(more) && i < |toks| + |more|
    ensures ParentsBelow(toks + more)
    ensures var out := Exit(more, |toks|, i);
      Climb(toks + more, i) == if out == -1 then -1 else Climb(toks, out)
    decreases i
  {
    RootedAppend(toks, more, 0);
    var all := toks + more;
    if i >= |toks| {
      assert all[i] == more[i - |toks|] && more[i - |toks|] in more;
      if all[i].parent != -1 { ClimbExit(toks, more, all[i].parent); }
    } else if !toks[i].Open() && toks[i].parent != -1 {
      ClimbExit(toks, more, toks[i].parent);
    }
  }
}
