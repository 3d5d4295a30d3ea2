/** nxjson's parser as it runs: strings are unescaped in the buffer that is being read, and records are linked up
    as values are met. Every method is proved against the parser on the original text (NxModel). */
module NxParser {
  import opened NxText
  import opened NxModel
  import opened NxArena

  /** A parsed string sits in the buffer, ended by a NUL, all of it in front of `hi`. */
  predicate StrHeld(b: string, s: Str, hi: nat) {
    s.at + |s.value| < hi <= |b| && b[s.at + |s.value|] == '\0' &&
    forall i :: 0 <= i < |s.value| ==> b[s.at + i] == s.value[i]
  }

  predicate KeyHeld(b: string, key: Option<Str>, hi: nat) { key.Some? ==> StrHeld(b, key.value, hi) }

  /** All strings of a tree sit in the buffer in front of `hi`. */
  predicate Held(b: string, t: Tree, hi: nat)
    decreases t, 1
  {
    KeyHeld(b, t.key, hi) &&
    match t.body
    case Text(s) => StrHeld(b, s, hi)
    case Array(items) => AllHeld(b, items, hi)
    case Object(items) => AllHeld(b, items, hi)
    case _ => true
  }

  predicate AllHeld(b: string, ts: seq<Tree>, hi: nat)
    decreases ts, 0
  {
    forall i :: 0 <= i < |ts| ==> Held(b, ts[i], hi)
  }

  /** Writing behind `hi` touches no string that is in front of it. */
  lemma {:induction false} HeldStays(b: string, c: string, t: Tree, lo: nat, hi: nat)
    requires Held(b, t, lo) && lo <= hi <= |c| && |b| == |c| && forall i :: 0 <= i < lo && i < |b| ==> b[i] == c[i]
    ensures Held(c, t, hi)
    decreases t, 1
  {
    match t.body
    case Array(items) => AllHeldStays(b, c, items, lo, hi);
    case Object(items) => AllHeldStays(b, c, items, lo, hi);
    case _ =>
  }

  lemma {:induction false} AllHeldStays(b: string, c: string, ts: seq<Tree>, lo: nat, hi: nat)
    requires AllHeld(b, ts, lo) && lo <= hi <= |c| && |b| == |c| && forall i :: 0 <= i < lo && i < |b| ==> b[i] == c[i]
    ensures AllHeld(c, ts, hi)
    decreases ts, 0
  {
    forall i | 0 <= i < |ts| ensures Held(c, ts[i], hi) { HeldStays(b, c, ts[i], lo, hi); }
  }

  /** Where a record under construction stands: the records in front of it, itself without children, its children so far. */
  datatype Place = Place(prefix: seq<Node>, head: Node, kids: seq<Tree>)

  function Records(pl: Place): seq<Node> { pl.prefix + Container(pl.head, pl.kids, |pl.prefix|) }

  /** The place of a child that has just been created. */
  function Below(pl: Place, head: Node): Place {
    Place(pl.prefix + Front(pl.head, pl.kids, |pl.prefix|, NextAt(pl)), head, [])
  }

  /** The index of the next record to be created. */
  function NextAt(pl: Place): nat { |pl.prefix| + 1 + SizeAll(pl.kids) }

  function With(pl: Place, trees: seq<Tree>): Place { pl.(kids := pl.kids + trees) }

  lemma BelowIsCreated(pl: Place, kind: Kind, key: int)
    ensures |pl.prefix| < |Records(pl)| && -1 <= Records(pl)[|pl.prefix|].last < |Records(pl)|
    ensures Records(Below(pl, Fresh(kind, key))) == Create(Records(pl), |pl.prefix|, kind, key)
    ensures |Below(pl, Fresh(kind, key)).prefix| == |Records(pl)|
  {
    CreateAddsLast(pl.prefix, pl.head, pl.kids, NextAt(pl));
    FrontSize(pl.head, pl.kids, |pl.prefix|, NextAt(pl));
    LayoutAllSize(pl.kids, |pl.prefix| + 1, -1);
  }

  /** A finished child makes its parent's place one child longer. */
  lemma BelowIsDone(pl: Place, x: Tree)
    ensures Records(With(Below(pl, Head(x, -1)), Kids(x))) == Records(With(pl, [x]))
  {
    var base := |pl.prefix|;
    var at := NextAt(pl);
    FrontSize(pl.head, pl.kids, base, at);
    ContainerLast(pl.head, pl.kids, x, base, at);
    LayoutIsContainer(x, at, -1);
    assert [] + Kids(x) == Kids(x);
    Assoc(pl.prefix, Front(pl.head, pl.kids, base, at), Layout(x, at, -1));
  }

  /** Only the last record differs between two records just created at the same place. */
  lemma BelowUpdated(pl: Place, head: Node, other: Node)
    requires head.length == 0 && head.child == -1 && head.last == -1
    requires other.length == 0 && other.child == -1 && other.last == -1
    ensures var at := |Below(pl, head).prefix|;
      && |Records(Below(pl, head))| == at + 1
      && Records(Below(pl, head))[at] == head && Records(Below(pl, head))[at := other] == Records(Below(pl, other))
  {
  }

  lemma WithTwice(pl: Place, a: seq<Tree>, b: seq<Tree>)
    ensures With(With(pl, a), b) == With(pl, a + b) && With(pl, []) == pl
  {
    assert pl.kids + a + b == pl.kids + (a + b);
  }

  /** A finished container makes its parent's place one child longer. */
  lemma ContainerIsDone(pl: Place, kind: Kind, key: Option<Str>, items: seq<Tree>, x: Tree)
    requires x.key == key && if kind == OBJECT then x.body == Object(items) else kind == ARRAY && x.body == Array(items)
    ensures Records(With(Below(pl, Fresh(kind, KeyAt(key))), items)) == Records(With(pl, [x]))
  {
    BelowIsDone(pl, x);
  }

  /** A finished value's strings are held: its key from before, its body's just now. */
  lemma ValueHeld(b: string, c: string, key: Option<Str>, body: Body, lo: nat, hi: nat)
    requires KeyHeld(b, key, lo) && lo <= hi <= |c| && |b| == |c| && forall i :: 0 <= i < lo && i < |b| ==> b[i] == c[i]
    requires Held(c, Tree(None, body), hi)
    ensures AllHeld(c, [Tree(key, body)], hi)
  {
  }

  lemma ItemsHeld(b: string, c: string, key: Option<Str>, body: Body, items: seq<Tree>, lo: nat, hi: nat)
    requires KeyHeld(b, key, lo) && lo <= hi <= |c| && |b| == |c| && forall i :: 0 <= i < lo && i < |b| ==> b[i] == c[i]
    requires AllHeld(c, items, hi) && (body == Array(items) || body == Object(items))
    ensures AllHeld(c, [Tree(key, body)], hi)
  {
    ValueHeld(b, c, key, body, lo, hi);
  }

  /** A container's children have all been added: the container has been added to its parent. */
  lemma ContainerAdded(nodes: seq<Node>, b: string, c: string, pl: Place, kind: Kind, key: Option<Str>, items: seq<Tree>, body: Body,
                       lo: nat, hi: nat)
    requires if kind == OBJECT then body == Object(items) else kind == ARRAY && body == Array(items)
    requires nodes == Records(With(Below(pl, Fresh(kind, KeyAt(key))), items)) && AllHeld(c, items, hi)
    requires KeyHeld(b, key, lo) && lo <= hi <= |c| && |b| == |c| && forall i :: 0 <= i < lo && i < |b| ==> b[i] == c[i]
    ensures nodes == Records(With(pl, [Tree(key, body)])) && AllHeld(c, [Tree(key, body)], hi)
  {
    ContainerIsDone(pl, kind, key, items, Tree(key, body));
    ItemsHeld(b, c, key, body, items, lo, hi);
  }

  lemma FlatHeld(b: string, key: Option<Str>, body: Body, lo: nat, hi: nat)
    requires KeyHeld(b, key, lo) && lo <= hi <= |b| && (body.Num? || body.Bool? || body.Null?)
    ensures AllHeld(b, [Tree(key, body)], hi)
  {
    KeyStillHeld(b, key, lo, hi);
  }

  lemma KeyStillHeld(b: string, key: Option<Str>, lo: nat, hi: nat)
    requires KeyHeld(b, key, lo) && lo <= hi <= |b|
    ensures KeyHeld(b, key, hi)
  {
  }

  lemma AllHeldGrows(b: string, c: string, xs: seq<Tree>, ys: seq<Tree>, lo: nat, hi: nat)
    requires AllHeld(b, xs, lo) && lo <= hi <= |c| && |b| == |c| && forall i :: 0 <= i < lo && i < |b| ==> b[i] == c[i]
    requires AllHeld(c, ys, hi)
    ensures AllHeld(c, xs + ys, hi)
  {
    AllHeldStays(b, c, xs, lo, hi);
  }

  /** The characters in front of the first NUL. */
  function CString(value: string): string {
    if value == [] || value[0] == '\0' then [] else [value[0]] + CString(value[1..])
  }

  lemma CStringDiffers(all: string, name: string, i: nat, rest: string)
    requires i < |name| && all == name[..i] + rest && (rest == [] || rest[0] != name[i])
    ensures all != name
  {
    assert rest != [] ==> all[i] == rest[0];
  }

  predicate KeyIs(t: Tree, name: string) { t.key.Some? && CString(t.key.value.value) == name }

  /** The first member with this key, or the number of members. */
  function Lookup(ts: seq<Tree>, name: string): (i: nat)
    ensures i <= |ts| && (i < |ts| ==> KeyIs(ts[i], name)) && forall j :: 0 <= j < i ==> !KeyIs(ts[j], name)
  {
    if ts == [] || KeyIs(ts[0], name) then 0 else 1 + Lookup(ts[1..], name)
  }

  lemma LookupHits(ts: seq<Tree>, name: string, i: nat)
    requires i < |ts| && KeyIs(ts[i], name) && forall j :: 0 <= j < i ==> !KeyIs(ts[j], name)
    ensures Lookup(ts, name) == i
  {
    var k := Lookup(ts, name);
  }

  lemma {:induction false} LookupSkips(ts: seq<Tree>, name: string, i: nat)
    requires i <= |ts| && forall j :: 0 <= j < i ==> !KeyIs(ts[j], name)
    ensures Lookup(ts, name) == i + Lookup(ts[i..], name)
    decreases i
  {
    if i > 0 {
      LookupSkips(ts[1..], name, i - 1);
      assert ts[1..][i - 1..] == ts[i..];
    } else {
      assert ts[0..] == ts;
    }
  }

  class Parser {
    const enc: Encoder
    const lex: Lexer
    const buf: array<char>
    var nodes: seq<Node>

    constructor (enc: Encoder, lex: Lexer, buf: array<char>)
      ensures this.enc == enc && this.lex == lex && this.buf == buf && nodes == []
    {
      this.enc, this.lex, this.buf := enc, lex, buf;
      nodes := [];
    }

    /** What is still to be read is as it was at first. */
    ghost predicate Unread(t: string, p: nat)
      reads buf
    {
      Terminated(t) && buf.Length == |t| && p <= |t| && forall i :: p <= i < |t| ==> buf[i] == t[i]
    }

    // -------------------------------------------------------------- strings

    method ReadHex(p: nat, ghost t: string) returns (h: int)
      requires p < |t| && Unread(t, p)
      ensures h == Hex4(t, p)
    {
      h := -1;
      var h1 := HexVal(buf[p]);
      if h1 < 0 { return; }
      var h2 := HexVal(buf[p + 1]);
      if h2 < 0 { return; }
      var h3 := HexVal(buf[p + 2]);
      if h3 < 0 { return; }
      var h4 := HexVal(buf[p + 3]);
      if h4 < 0 { return; }
      h := h1 * 4096 + h2 * 256 + h3 * 16 + h4;
    }

    /** The \u case up to the call of the encoder; `at` is -1 on a malformed escape. */
    method ReadUnicode(p: nat, ghost t: string) returns (cp: nat, at: int)
      requires p < |t| - 1 && Unread(t, p)
      ensures UnicodeEscape(t, p) == if at < 0 then None else Some((cp, at))
    {
      cp, at := 0, -1;
      var u := ReadHex(p + 1, t);
      if u < 0 { return; }
      if !HighSurrogate(u) { return u, p + 5; }
      if buf[p + 5] != '\\' || buf[p + 6] != 'u' { return; }
      var v := ReadHex(p + 7, t);
      if v < 0 || !LowSurrogate(v) { return; }
      return 0x10000 + (u - 0xd800) * 1024 + (v - 0xdc00), p + 11;
    }

    ghost predicate Written(s: nat, out: string)
      reads buf
    {
      s + |out| <= buf.Length && forall i :: 0 <= i < |out| ==> buf[s + i] == out[i]
    }

    /** Output goes to d, behind the output so far and in front of the cursor p. */
    method Put(d: nat, bytes: string, ghost s: nat, ghost out: string, ghost p: nat, ghost t: string)
      requires Written(s, out) && d == s + |out| && d + |bytes| <= p && Unread(t, p)
      modifies buf
      ensures Written(s, out + bytes) && Unread(t, p)
      ensures forall i :: 0 <= i < s ==> buf[i] == old(buf[i])
    {
      for k := 0 to |bytes|
        invariant Written(s, out + bytes[..k]) && Unread(t, p)
        invariant forall i :: 0 <= i < s ==> buf[i] == old(buf[i])
      {
        buf[d + k] := bytes[k];
        assert out + bytes[..k + 1] == out + bytes[..k] + [bytes[k]];
      }
      assert bytes[..|bytes|] == bytes;
    }

    /** The NUL behind the output. */
    method Close(d: nat, ghost s: nat, ghost out: string, ghost p: nat, ghost t: string)
      requires Written(s, out) && d == s + |out| && d < p && Unread(t, p)
      modifies buf
      ensures StrHeld(buf[..], Str(s, out), p) && Unread(t, p)
      ensures forall i :: 0 <= i < s ==> buf[i] == old(buf[i])
    {
      buf[d] := '\0';
    }

    /** The backslash cases of unescape_string, p behind the backslash: what goes to d, or failure. */
    method ReadEscape(p: nat, ghost t: string) returns (ok: bool, out: string, q: nat)
      requires p < |t| && Unread(t, p)
      ensures Escape(t, p, enc) == if ok then Some((out, q)) else None
      ensures ok && Fits(enc) ==> |out| <= q - p + 1
    {
      ok, out, q := true, [], p + 1;
      var c := buf[p];
      if c == '\\' || c == '/' || c == '"' { out := [c]; }
      else if c == 'b' { out := ['\U{8}']; }
      else if c == 'f' { out := ['\U{C}']; }
      else if c == 'n' { out := ['\n']; }
      else if c == 'r' { out := ['\r']; }
      else if c == 't' { out := ['\t']; }
      else if c == 'u' && enc.Some? {
        var cp, at := ReadUnicode(p, t);
        if at < 0 { return false, [], 0; }
        var bytes := enc.value(cp);
        if bytes.None? { return false, [], 0; }
        out, q := bytes.value, at;
      } else {
        out, q := ['\\'], p;
      }
    }

    /** unescape_string: reads at p, writes at d, and never writes at or behind the place it reads next. */
    method UnescapeInPlace(s: nat, ghost t: string) returns (end: int)
      requires s < |t| && Unread(t, s) && Fits(enc)
      modifies buf
      ensures end < 0 <==> Unescape(t, s, enc).None?
      ensures end >= 0 ==> end == Unescape(t, s, enc).value.1 && Unread(t, end)
      ensures end >= 0 ==> StrHeld(buf[..], Str(s, Unescape(t, s, enc).value.0), end)
      ensures forall i :: 0 <= i < s ==> buf[i] == old(buf[i])
    {
      var p, d := s, s;
      ghost var out: string := [];
      ghost var all := Unescape(t, s, enc);
      PrependNothing(all);
      while true
        invariant s <= d == s + |out| <= p < |t| && Unread(t, p) && Written(s, out)
        invariant forall i :: 0 <= i < s ==> buf[i] == old(buf[i])
        invariant all == Prepend(out, Unescape(t, p, enc))
        decreases |t| - p
      {
        var c := buf[p];
        if c == '\0' { return -1; }
        p := p + 1;
        if c == '"' {
          Close(d, s, out, p, t);
          assert out + [] == out;
          return p;
        }
        var bytes, q := [c], p;
        if c == '\\' {
          var ok;
          ok, bytes, q := ReadEscape(p, t);
          if !ok { return -1; }
        }
        Put(d, bytes, s, out, q, t);
        PrependTwice(out, bytes, Unescape(t, q, enc));
        d, p, out := d + |bytes|, q, out + bytes;
      }
    }

    // -------------------------------------------------------------- comments and keys

    method StrChr(p: nat, c: char, ghost t: string) returns (q: int)
      requires p < |t| && Unread(t, p) && c != '\0'
      ensures FindChar(t, p, c) == if q < 0 then None else Some(q)
    {
      q := p;
      while buf[q] != c
        invariant p <= q < |t| && FindChar(t, p, c) == FindChar(t, q, c)
        decreases |t| - q
      {
        if buf[q] == '\0' { return -1; }
        q := q + 1;
      }
    }

    method SkipBlockComment(p: nat, ghost t: string) returns (q: int)
      requires p < |t| && Unread(t, p)
      ensures SkipBlock(t, p) == if q < 0 then None else Some(q)
    {
      if buf[p] == '\0' { return -1; }
      q := p;
      while true
        invariant p <= q < |t| - 1 && SkipBlock(t, p) == CommentEnd(t, q)
        decreases |t| - q
      {
        q := StrChr(q + 1, '/', t);
        if q < 0 { return; }
        if buf[q - 1] == '*' { return q + 1; }
      }
    }

    method SkipAComment(p: nat, ghost t: string) returns (q: int)
      requires p < |t| - 1 && Unread(t, p)
      ensures SkipComment(t, p) == if q < 0 then None else Some(q)
    {
      if buf[p + 1] == '/' {
        q := StrChr(p + 2, '\n', t);
        if q >= 0 { q := q + 1; }
      } else if buf[p + 1] == '*' {
        q := SkipBlockComment(p + 2, t);
      } else {
        q := -1;
      }
    }

    method SkipSpaces(p: nat, ghost t: string) returns (q: nat)
      requires p < |t| && Unread(t, p)
      ensures q == SkipWhite(t, p)
    {
      q := p;
      while White(buf[q])
        invariant p <= q < |t| && SkipWhite(t, p) == SkipWhite(t, q)
        decreases |t| - q
      {
        q := q + 1;
      }
    }

    /** The quote case of parse_key. */
    method QuotedKey(p: nat, ghost t: string) returns (key: int, q: int)
      requires p < |t| && Unread(t, p) && Fits(enc) && t[p] == '"'
      modifies buf
      ensures q < 0 <==> ParseKey(t, p, enc).None?
      ensures q >= 0 ==> var r := ParseKey(t, p, enc).value;
        q == r.1 && key == KeyAt(r.0) && Unread(t, q) && KeyHeld(buf[..], r.0, q)
      ensures forall i :: 0 <= i < p ==> buf[i] == old(buf[i])
    {
      ParsedKey(t, p, enc);
      var end := UnescapeInPlace(p + 1, t);
      if end < 0 { return -1, -1; }
      var colon := SkipSpaces(end, t);
      if buf[colon] == ':' { return p + 1, colon + 1; }
      return -1, -1;
    }

    /** parse_key. */
    method ReadKey(start: nat, ghost t: string) returns (key: int, q: int)
      requires start < |t| && Unread(t, start) && Fits(enc)
      modifies buf
      ensures q < 0 <==> ParseKey(t, start, enc).None?
      ensures q >= 0 ==> var r := ParseKey(t, start, enc).value;
        q == r.1 && key == KeyAt(r.0) && Unread(t, q) && KeyHeld(buf[..], r.0, q)
      ensures forall i :: 0 <= i < start ==> buf[i] == old(buf[i])
    {
      var p := start;
      while true
        invariant start <= p < |t| && Unread(t, p)
        invariant ParseKey(t, start, enc) == ParseKey(t, p, enc)
        invariant forall i :: 0 <= i < start ==> buf[i] == old(buf[i])
        decreases |t| - p
      {
        var c := buf[p];
        ParsedKey(t, p, enc);
        if c == '\0' { return -1, -1; }
        if c == '"' {
          key, q := QuotedKey(p, t);
          return;
        } else if White(c) || c == ',' {
          p := p + 1;
        } else if c == '}' {
          return -1, p;
        } else if c == '/' {
          var next := SkipAComment(p, t);
          if next < 0 { return -1, -1; }
          p := next;
        } else {
          return -1, -1;
        }
      }
    }

    // -------------------------------------------------------------- values

    /** Before a value is read: the text from p on is intact, and the records are those of the place. */
    ghost predicate Ready(t: string, p: nat, parent: nat, pl: Place)
      reads buf, this`nodes
    {
      p < |t| && Unread(t, p) && Fits(enc) && LexesWithin(lex) && nodes == Records(pl) && parent == |pl.prefix|
    }

    /** After it: the cursor is where the parser on the original text says, what is behind it is intact, the trees'
        records have joined the place, and their strings sit in front of the cursor. */
    ghost predicate Added(r: Option<Parsed>, q: int, t: string, pl: Place)
      reads buf, this`nodes
    {
      if r.None? then q < 0
      else q >= 0 && q == r.value.end && Unread(t, q) && nodes == Records(With(pl, r.value.trees)) && AllHeld(buf[..], r.value.trees, q)
    }

    /** create_json: the new record becomes the last child of `parent`. */
    method CreateJson(kind: Kind, key: int, parent: nat, ghost pl: Place) returns (js: nat)
      requires nodes == Records(pl) && parent == |pl.prefix|
      modifies this`nodes
      ensures nodes == Records(Below(pl, Fresh(kind, key))) && js == |Below(pl, Fresh(kind, key)).prefix|
    {
      BelowIsCreated(pl, kind, key);
      js := |nodes|;
      var last := nodes[parent].last;
      if last == -1 {
        nodes := nodes[parent := nodes[parent].(child := js, last := js)];
      } else {
        nodes := nodes[last := nodes[last].(next := js)];
        nodes := nodes[parent := nodes[parent].(last := js)];
      }
      nodes := nodes[parent := nodes[parent].(length := nodes[parent].length + 1)];
      nodes := nodes + [Fresh(kind, key)];
    }

    /** The assignments to a childless record that complete it. */
    method Complete(js: nat, node: Node, ghost pl: Place, ghost head: Node, ghost x: Tree)
      requires head.length == 0 && head.child == -1 && head.last == -1
      requires nodes == Records(Below(pl, head)) && js == |Below(pl, head).prefix|
      requires Kids(x) == [] && node == Head(x, -1)
      modifies this`nodes
      ensures nodes == Records(With(pl, [x]))
    {
      BelowUpdated(pl, head, node);
      BelowIsDone(pl, x);
      assert With(Below(pl, node), []) == Below(pl, node);
      nodes := nodes[js := node];
    }

    /** A string value. */
    method ReadText(parent: nat, key: int, start: nat, ghost t: string, ghost k: Option<Str>, ghost pl: Place) returns (q: int)
      requires Ready(t, start, parent, pl) && key == KeyAt(k) && KeyHeld(buf[..], k, start)
      requires t[start] == '"'
      modifies this`nodes, buf
      ensures Added(ParseValue(t, start, k, enc, lex), q, t, pl)
      ensures forall i :: 0 <= i < start ==> buf[i] == old(buf[i])
    {
      ghost var b := buf[..];
      ParsedText(t, start, k, enc, lex);
      var js := CreateJson(STRING, key, parent, pl);
      q := UnescapeInPlace(start + 1, t);
      if q < 0 { return; }
      ghost var s := Str(start + 1, Unescape(t, start + 1, enc).value.0);
      ghost var x := Tree(k, Text(s));
      ValueHeld(b, buf[..], k, Text(s), start, q);
      Complete(js, nodes[js].(text := start + 1), pl, Fresh(STRING, key), x);
    }

    /** A number. */
    method ReadNumber(parent: nat, key: int, start: nat, ghost t: string, ghost k: Option<Str>, ghost pl: Place) returns (q: int)
      requires Ready(t, start, parent, pl) && key == KeyAt(k)
      modifies this`nodes
      ensures q < 0 <==> lex(t[start..]).None?
      ensures q >= 0 ==> var n := lex(t[start..]).value; q == start + n.0 && nodes == Records(With(pl, [Tree(k, Num(n.1))]))
    {
      var js := CreateJson(INTEGER, key, parent, pl);
      assert buf[start..] == t[start..];
      var n := lex(buf[start..]);
      if n.None? { return -1; }
      var number := n.value.1;
      Complete(js, Fresh(INTEGER, key).(kind := if number.Integer? then INTEGER else DOUBLE, num := number), pl, Fresh(INTEGER, key),
               Tree(k, Num(number)));
      return start + n.value.0;
    }

    /** A number, true, false or null, or an error. */
    method ReadScalar(parent: nat, key: int, start: nat, ghost t: string, ghost k: Option<Str>, ghost pl: Place) returns (q: int)
      requires Ready(t, start, parent, pl) && key == KeyAt(k)
      modifies this`nodes
      ensures q < 0 <==> ScalarAt(t, start, lex).None?
      ensures q >= 0 ==> var r := ScalarAt(t, start, lex).value; q == r.1 && nodes == Records(With(pl, [Tree(k, r.0)]))
    {
      var c := buf[start];
      WordStarts(t, start);
      var isTrue := HasWord(start, "true", t);
      var isFalse := HasWord(start, "false", t);
      var isNull := HasWord(start, "null", t);
      if c == '-' || '0' <= c <= '9' {
        q := ReadNumber(parent, key, start, t, k, pl);
      } else if c == 't' && isTrue {
        AddLeaf(BOOL, key, parent, Integer(1), pl, Tree(k, Bool(true)));
        return start + 4;
      } else if c == 'f' && isFalse {
        AddLeaf(BOOL, key, parent, Integer(0), pl, Tree(k, Bool(false)));
        return start + 5;
      } else if c == 'n' && isNull {
        AddLeaf(NULL, key, parent, Integer(0), pl, Tree(k, Null));
        return start + 4;
      } else {
        return -1;
      }
    }

    /** create_json, and int_value. */
    method AddLeaf(kind: Kind, key: int, parent: nat, num: Number, ghost pl: Place, ghost x: Tree)
      requires nodes == Records(pl) && parent == |pl.prefix|
      requires Kids(x) == [] && Fresh(kind, key).(num := num) == Head(x, -1)
      modifies this`nodes
      ensures nodes == Records(With(pl, [x]))
    {
      var js := CreateJson(kind, key, parent, pl);
      Complete(js, Fresh(kind, key).(num := num), pl, Fresh(kind, key), x);
    }

    /** strncmp with a literal. */
    method HasWord(p: nat, word: string, ghost t: string) returns (b: bool)
      requires p < |t| && Unread(t, p)
      ensures b == StartsWith(t, p, word)
    {
      assert p + |word| < |t| ==> buf[p..p + |word|] == t[p..p + |word|];
      return p + |word| < buf.Length && buf[p..p + |word|] == word;
    }

    /** The object case: create the record, then a key and a value at a time. */
    method ReadObject(parent: nat, key: int, start: nat, ghost t: string, ghost k: Option<Str>, ghost pl: Place) returns (q: int)
      requires Ready(t, start, parent, pl) && key == KeyAt(k) && KeyHeld(buf[..], k, start)
      requires t[start] == '{'
      modifies this`nodes, buf
      ensures Added(ParseValue(t, start, k, enc, lex), q, t, pl)
      ensures forall i :: 0 <= i < start ==> buf[i] == old(buf[i])
      decreases |t| - start, 0, 0
    {
      ghost var b := buf[..];
      ParsedObject(t, start, k, enc, lex);
      var js := CreateJson(OBJECT, key, parent, pl);
      q := ReadMembers(js, start + 1, t, Below(pl, Fresh(OBJECT, key)));
      if q < 0 { return; }
      ghost var ms := ParseMembers(t, start + 1, enc, lex).value.trees;
      ContainerAdded(nodes, b, buf[..], pl, OBJECT, k, ms, Object(ms), start, q);
    }

    /** The array case. */
    method ReadArray(parent: nat, key: int, start: nat, ghost t: string, ghost k: Option<Str>, ghost pl: Place) returns (q: int)
      requires Ready(t, start, parent, pl) && key == KeyAt(k) && KeyHeld(buf[..], k, start)
      requires t[start] == '['
      modifies this`nodes, buf
      ensures Added(ParseValue(t, start, k, enc, lex), q, t, pl)
      ensures forall i :: 0 <= i < start ==> buf[i] == old(buf[i])
      decreases |t| - start, 0, 0
    {
      ghost var b := buf[..];
      ParsedArray(t, start, k, enc, lex);
      var js := CreateJson(ARRAY, key, parent, pl);
      q := ReadElems(js, start + 1, t, Below(pl, Fresh(ARRAY, key)));
      if q < 0 { return; }
      ghost var es := ParseElems(t, start + 1, enc, lex).value.trees;
      ContainerAdded(nodes, b, buf[..], pl, ARRAY, k, es, Array(es), start, q);
    }

    /** One round of the loop in the object case; `more` unless it returned. */
    method ReadMember(js: nat, start: nat, ghost t: string, ghost pl: Place)
      returns (q: int, more: bool, ghost trees: seq<Tree>)
      requires Ready(t, start, js, pl)
      modifies this`nodes, buf
      ensures q < 0 ==> ParseMembers(t, start, enc, lex) == None
      ensures q >= 0 ==> start < q < |t| && Unread(t, q) && nodes == Records(With(pl, trees)) && AllHeld(buf[..], trees, q)
      ensures q >= 0 ==>
        ParseMembers(t, start, enc, lex) == if more then Behind(trees, ParseMembers(t, q, enc, lex)) else Some(Parsed(trees, q))
      ensures forall i :: 0 <= i < start ==> buf[i] == old(buf[i])
      decreases |t| - start, 1
    {
      ParsedMember(t, start, enc, lex);
      q, more, trees := -1, false, [];
      var key, at := ReadKey(start, t);
      if at < 0 { return; }
      if buf[at] == '}' { WithTwice(pl, [], []); return at + 1, false, []; }
      ghost var k := ParseKey(t, start, enc).value.0;
      q := ReadValue(js, key, at, t, k, pl);
      if q < 0 { return; }
      more, trees := true, ParseValue(t, at, k, enc, lex).value.trees;
    }

    /** The loop in the object case. */
    method ReadMembers(js: nat, start: nat, ghost t: string, ghost pl: Place) returns (q: int)
      requires Ready(t, start, js, pl)
      modifies this`nodes, buf
      ensures Added(ParseMembers(t, start, enc, lex), q, t, pl)
      ensures forall i :: 0 <= i < start ==> buf[i] == old(buf[i])
      decreases |t| - start, 2
    {
      var p, more := start, true;
      ghost var found: seq<Tree> := [];
      WithTwice(pl, [], []);
      BehindNothing(ParseMembers(t, start, enc, lex));
      while more
        invariant start <= p < |t| && Unread(t, p)
        invariant ParseMembers(t, start, enc, lex) ==
          if more then Behind(found, ParseMembers(t, p, enc, lex)) else Some(Parsed(found, p))
        invariant nodes == Records(With(pl, found)) && AllHeld(buf[..], found, p)
        invariant forall i :: 0 <= i < start ==> buf[i] == old(buf[i])
        decreases |t| - p
      {
        ghost var b := buf[..];
        ghost var trees;
        q, more, trees := ReadMember(js, p, t, With(pl, found));
        if q < 0 { return; }
        AllHeldGrows(b, buf[..], found, trees, p, q);
        WithTwice(pl, found, trees);
        if more { BehindTwice(found, trees, ParseMembers(t, q, enc, lex)); }
        p, found := q, found + trees;
      }
      return p;
    }

    /** One round of the loop in the array case. */
    method ReadElem(js: nat, start: nat, ghost t: string, ghost pl: Place)
      returns (q: int, more: bool, ghost trees: seq<Tree>)
      requires Ready(t, start, js, pl)
      modifies this`nodes, buf
      ensures q < 0 ==> ParseElems(t, start, enc, lex) == None
      ensures q >= 0 ==> start < q < |t| && Unread(t, q) && nodes == Records(With(pl, trees)) && AllHeld(buf[..], trees, q)
      ensures q >= 0 ==>
        ParseElems(t, start, enc, lex) == if more then Behind(trees, ParseElems(t, q, enc, lex)) else Some(Parsed(trees, q))
      ensures forall i :: 0 <= i < start ==> buf[i] == old(buf[i])
      decreases |t| - start, 1
    {
      q := ReadValue(js, -1, start, t, None, pl);
      ParsedElem(t, start, enc, lex);
      if q < 0 { return -1, false, []; }
      trees := ParseValue(t, start, None, enc, lex).value.trees;
      q, more := BehindElem(q, t, trees);
    }

    /** if (*p==']') return p+1. */
    method BehindElem(at: nat, ghost t: string, ghost trees: seq<Tree>) returns (q: nat, more: bool)
      requires at < |t| && Unread(t, at) && AllHeld(buf[..], trees, at)
      ensures (more <==> t[at] != ']') && q == (if more then at else at + 1)
      ensures q < |t| && Unread(t, q) && AllHeld(buf[..], trees, q)
    {
      q, more := at, buf[at] != ']';
      if !more {
        AllHeldStays(buf[..], buf[..], trees, at, at + 1);
        q := at + 1;
      }
    }

    /** The loop in the array case. */
    method ReadElems(js: nat, start: nat, ghost t: string, ghost pl: Place) returns (q: int)
      requires Ready(t, start, js, pl)
      modifies this`nodes, buf
      ensures Added(ParseElems(t, start, enc, lex), q, t, pl)
      ensures forall i :: 0 <= i < start ==> buf[i] == old(buf[i])
      decreases |t| - start, 2
    {
      var p, more := start, true;
      ghost var found: seq<Tree> := [];
      WithTwice(pl, [], []);
      BehindNothing(ParseElems(t, start, enc, lex));
      while more
        invariant start <= p < |t| && Unread(t, p)
        invariant ParseElems(t, start, enc, lex) ==
          if more then Behind(found, ParseElems(t, p, enc, lex)) else Some(Parsed(found, p))
        invariant nodes == Records(With(pl, found)) && AllHeld(buf[..], found, p)
        invariant forall i :: 0 <= i < start ==> buf[i] == old(buf[i])
        decreases |t| - p
      {
        ghost var b := buf[..];
        ghost var trees;
        q, more, trees := ReadElem(js, p, t, With(pl, found));
        if q < 0 { return; }
        AllHeldGrows(b, buf[..], found, trees, p, q);
        WithTwice(pl, found, trees);
        if more { BehindTwice(found, trees, ParseElems(t, q, enc, lex)); }
        p, found := q, found + trees;
      }
      return p;
    }

    /** parse_value. `pl` is the parent's place, `k` the key's string. */
    method ReadValue(parent: nat, key: int, start: nat, ghost t: string, ghost k: Option<Str>, ghost pl: Place) returns (q: int)
      requires Ready(t, start, parent, pl) && key == KeyAt(k) && KeyHeld(buf[..], k, start)
      modifies this`nodes, buf
      ensures Added(ParseValue(t, start, k, enc, lex), q, t, pl)
      ensures forall i :: 0 <= i < start ==> buf[i] == old(buf[i])
      decreases |t| - start, 0, 2
    {
      var p := SkipIgnored(start, t, k);
      if p < 0 { return -1; }
      KeyStillHeld(buf[..], k, start, p);
      q := ReadAt(parent, key, p, t, k, pl);
    }

    /** The rounds of the loop in parse_value that skip something: white space, commas and comments. */
    method SkipIgnored(start: nat, ghost t: string, ghost k: Option<Str>) returns (p: int)
      requires start < |t| && Unread(t, start) && LexesWithin(lex)
      ensures p < 0 ==> ParseValue(t, start, k, enc, lex).None?
      ensures p >= 0 ==> start <= p < |t| && !Filler(t[p]) && t[p] != '/'
      ensures p >= 0 ==> ParseValue(t, start, k, enc, lex) == ParseValue(t, p, k, enc, lex)
    {
      p := start;
      ghost var goal := ParseValue(t, start, k, enc, lex);
      while true
        invariant start <= p < |t| && Unread(t, p)
        invariant goal == ParseValue(t, p, k, enc, lex)
        decreases |t| - p
      {
        var c := buf[p];
        if c == '\0' { ParsedSkip(t, p, k, enc, lex); return -1; }
        if c == ' ' || c == '\t' || c == '\n' || c == '\r' || c == ',' {
          ParsedBlank(t, p, k, enc, lex);
          p := p + 1;
        } else if c == '/' {
          ghost var at := p;
          p := SkipAComment(p, t);
          ParsedComment(t, at, p, k, enc, lex);
          if p < 0 { return; }
        } else {
          return;
        }
      }
    }

    /** The cases of parse_value that return. */
    method ReadAt(parent: nat, key: int, start: nat, ghost t: string, ghost k: Option<Str>, ghost pl: Place) returns (q: int)
      requires Ready(t, start, parent, pl) && key == KeyAt(k) && KeyHeld(buf[..], k, start)
      requires !Filler(t[start]) && t[start] != '/'
      modifies this`nodes, buf
      ensures Added(ParseValue(t, start, k, enc, lex), q, t, pl)
      ensures forall i :: 0 <= i < start ==> buf[i] == old(buf[i])
      decreases |t| - start, 0, 1
    {
      var c := buf[start];
      if c == '{' {
        q := ReadObject(parent, key, start, t, k, pl);
      } else if c == '[' {
        q := ReadArray(parent, key, start, t, k, pl);
      } else if c == '"' {
        q := ReadText(parent, key, start, t, k, pl);
      } else {
        q := ReadFlat(parent, key, start, t, k, pl);
      }
    }

    /** The cases that read no string: a closing bracket, a number or a word. */
    method ReadFlat(parent: nat, key: int, start: nat, ghost t: string, ghost k: Option<Str>, ghost pl: Place) returns (q: int)
      requires Ready(t, start, parent, pl) && key == KeyAt(k) && KeyHeld(buf[..], k, start)
      requires !Filler(t[start]) && t[start] !in {'/', '{', '[', '"'}
      modifies this`nodes
      ensures Added(ParseValue(t, start, k, enc, lex), q, t, pl)
    {
      if buf[start] == ']' {
        WithTwice(pl, [], []);
        ParsedSkip(t, start, k, enc, lex);
        return start;
      }
      q := ReadPlain(parent, key, start, t, k, pl);
    }

    method ReadPlain(parent: nat, key: int, start: nat, ghost t: string, ghost k: Option<Str>, ghost pl: Place) returns (q: int)
      requires Ready(t, start, parent, pl) && key == KeyAt(k) && KeyHeld(buf[..], k, start)
      requires !Filler(t[start]) && t[start] !in {'/', '{', '[', ']', '"'}
      modifies this`nodes
      ensures Added(ParseValue(t, start, k, enc, lex), q, t, pl)
    {
      q := ReadScalar(parent, key, start, t, k, pl);
      ParsedScalar(t, start, k, enc, lex);
      if q >= 0 { FlatHeld(buf[..], k, ScalarAt(t, start, lex).value.0, start, q); }
    }

    /** nx_json_parse: the first record below a root on the stack, or -1 on an error or an empty value. */
    method Parse(ghost t: string) returns (ok: bool, root: int)
      requires Terminated(t) && buf[..] == t && Fits(enc) && LexesWithin(lex)
      modifies this`nodes, buf
      ensures ok <==> ParseValue(t, 0, None, enc, lex).Some?
      ensures ok ==> var trees := ParseValue(t, 0, None, enc, lex).value.trees;
        && root == (if trees == [] then -1 else 1)
        && nodes == Container(Fresh(NULL, -1), trees, 0) && AllHeld(buf[..], trees, buf.Length)
        && (trees != [] ==> Stands(nodes, 1, trees[0], -1))
      ensures !ok ==> root == -1
    {
      nodes := [Fresh(NULL, -1)];
      ghost var pl := Place([], Fresh(NULL, -1), []);
      assert nodes == Records(pl);
      assert forall i :: 0 <= i < |t| ==> buf[i] == buf[..][i] == t[i];
      var q := ReadValue(0, -1, 0, t, None, pl);
      if q < 0 { return false, -1; }
      ghost var trees := ParseValue(t, 0, None, enc, lex).value.trees;
      AllHeldStays(buf[..], buf[..], trees, q, buf.Length);
      assert With(pl, trees) == Place([], Fresh(NULL, -1), trees);
      if trees != [] { FirstStands(Fresh(NULL, -1), trees[0]); assert trees == [trees[0]]; }
      return true, nodes[0].child;
    }

    // -------------------------------------------------------------- access

    /** nx_json_item; -1 stands for the dummy record. */
    method Item(json: int, idx: int, ghost x: Tree, ghost next: int) returns (r: int)
      requires json < 0 || Stands(nodes, json, x, next)
      ensures json < 0 ==> r == -1
      ensures json >= 0 ==> r == if 0 <= idx < |Kids(x)| then SiblingAt(Kids(x), json + 1, idx) else -1
      ensures json >= 0 && 0 <= idx < |Kids(x)| ==> Stands(nodes, r, Kids(x)[idx], SiblingAt(Kids(x), json + 1, idx + 1))
    {
      if json < 0 { return -1; }
      OwnRecord(nodes, json, x, next);
      ghost var kids := Kids(x);
      var js, left := nodes[json].child, idx;
      ghost var i := 0;
      while js != -1
        invariant i <= |kids| && js == SiblingAt(kids, json + 1, i) && left == idx - i && !(0 <= idx < i)
        decreases |kids| - i
      {
        ChildRecord(nodes, kids, json + 1, i);
        if left == 0 { return js; }
        left := left - 1;
        js, i := nodes[js].next, i + 1;
      }
      return -1;
    }

    /** js->key && !strcmp(js->key, key). */
    method HasKey(js: nat, name: string, ghost x: Tree, ghost hi: nat) returns (same: bool)
      requires js < |nodes| && nodes[js].key == KeyAt(x.key) && KeyHeld(buf[..], x.key, hi) && '\0' !in name
      ensures same <==> KeyIs(x, name)
    {
      same := false;
      if nodes[js].key != -1 { same := SameString(nodes[js].key, name, x.key.value.value); }
    }

    /** nx_json_get; -1 stands for the dummy record. */
    method Get(json: int, name: Option<string>, ghost x: Tree, ghost next: int, ghost hi: nat) returns (r: int)
      requires json < 0 || (Stands(nodes, json, x, next) && AllHeld(buf[..], Kids(x), hi))
      requires name.Some? ==> '\0' !in name.value
      ensures json < 0 || name.None? ==> r == -1
      ensures json >= 0 && name.Some? ==> r == SiblingAt(Kids(x), json + 1, Lookup(Kids(x), name.value))
    {
      if json < 0 || name.None? { return -1; }
      OwnRecord(nodes, json, x, next);
      r := FindKey(nodes[json].child, name.value, Kids(x), json + 1, hi);
    }

    /** The loop over the children. */
    method FindKey(child: int, name: string, ghost kids: seq<Tree>, ghost base: nat, ghost hi: nat) returns (js: int)
      requires base + SizeAll(kids) <= |nodes| && nodes[base..base + SizeAll(kids)] == LayoutAll(kids, base, -1)
      requires child == SiblingAt(kids, base, 0) && AllHeld(buf[..], kids, hi) && '\0' !in name
      ensures js == SiblingAt(kids, base, Lookup(kids, name))
    {
      js := child;
      ghost var i := 0;
      while js != -1
        invariant i <= |kids| && js == SiblingAt(kids, base, i)
        invariant forall j :: 0 <= j < i ==> !KeyIs(kids[j], name)
        decreases |kids| - i
      {
        ChildRecord(nodes, kids, base, i);
        assert Held(buf[..], kids[i], hi);
        var same := HasKey(js, name, kids[i], hi);
        if same { LookupHits(kids, name, i); return; }
        js, i := nodes[js].next, i + 1;
      }
      LookupSkips(kids, name, i);
    }

    /** strcmp of a string in the buffer with a C string. */
    method SameString(at: nat, name: string, ghost value: string) returns (same: bool)
      requires at + |value| < buf.Length && buf[at + |value|] == '\0' && forall i :: 0 <= i < |value| ==> buf[at + i] == value[i]
      requires '\0' !in name
      ensures same <==> CString(value) == name
    {
      var i := 0;
      while i < |name| && buf[at + i] == name[i]
        invariant i <= |name| && i <= |value|
        invariant CString(value) == name[..i] + CString(value[i..])
      {
        assert value[i] == name[i];
        assert name[..i + 1] == name[..i] + [name[i]];
        assert value[i..][1..] == value[i + 1..];
        i := i + 1;
      }
      if i < |name| {
        CStringDiffers(CString(value), name, i, CString(value[i..]));
        return false;
      }
      assert name[..i] == name;
      same := buf[at + i] == '\0';
    }
  }
}
