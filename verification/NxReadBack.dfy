/** The whole way: the text of a tree in a buffer, parsed in place and read through nx_json_item and nx_json_get. */
module NxReadBack {
  import opened NxText
  import opened NxModel
  import opened NxArena
  import opened NxParser
  import opened NxRoundTrip

  /** The string s sits in the buffer as a C string. */
  predicate Holds(b: string, at: int, s: string) {
    0 <= at && at + |s| < |b| && b[at..at + |s|] == s && b[at + |s|] == '\0'
  }

  /** What a record says on its own about a written value: its type, its length, its string or truth value. */
  predicate Shows(b: string, n: Node, v: Val) {
    match v
    case VNull => n.kind == NULL
    case VBool(x) => n.kind == BOOL && n.num == Integer(if x then 1 else 0)
    case VText(s) => n.kind == STRING && Holds(b, n.text, s)
    case VNum(_, x) => n.kind == (if x.Integer? then INTEGER else DOUBLE) && n.num == x
    case VArray(items, _) => n.kind == ARRAY && n.length == |items|
    case VObject(members, _) => n.kind == OBJECT && n.length == |members|
  }

  function Count(v: Val): nat { if v.VArray? then |v.items| else if v.VObject? then |v.members| else 0 }

  /** The i-th element or member value. */
  function Part(v: Val, i: nat): Val
    requires i < Count(v)
  {
    if v.VArray? then v.items[i].value else v.members[i].doc.value
  }

  /** The record of the i-th part of a written value: what it is, and its key if it is a member. */
  predicate ShowsPart(b: string, nodes: seq<Node>, at: int, v: Val, i: nat)
    requires i < Count(v)
  {
    && 0 <= at < |nodes| && Shows(b, nodes[at], Part(v, i))
    && if v.VObject? then Holds(b, nodes[at].key, v.members[i].name) else nodes[at].key == -1
  }

  lemma TextHolds(b: string, s: Str, hi: nat)
    requires StrHeld(b, s, hi)
    ensures Holds(b, s.at, s.value)
  {
  }

  /** A tree that stands in the records and means a written value. */
  lemma StandsShows(b: string, nodes: seq<Node>, at: nat, x: Tree, next: int, v: Val, hi: nat)
    requires Stands(nodes, at, x, next) && Held(b, x, hi) && Means(x.body, v)
    ensures at < |nodes| && Shows(b, nodes[at], v) && |Kids(x)| == Count(v) && AllHeld(b, Kids(x), hi)
    ensures forall i :: 0 <= i < Count(v) ==> Means(Kids(x)[i].body, Part(v, i))
    ensures nodes[at].key == KeyAt(x.key)
  {
    OwnRecord(nodes, at, x, next);
    if v.VText? { TextHolds(b, x.body.s, hi); }
  }

  lemma PartShows(b: string, nodes: seq<Node>, at: nat, x: Tree, next: int, v: Val, i: nat, hi: nat)
    requires i < Count(v) && |Kids(x)| == Count(v) && Means(x.body, v)
    requires Stands(nodes, at, Kids(x)[i], next) && Held(b, Kids(x)[i], hi)
    ensures ShowsPart(b, nodes, at, v, i)
  {
    StandsShows(b, nodes, at, Kids(x)[i], next, Part(v, i), hi);
    if v.VObject? { TextHolds(b, Kids(x)[i].key.value, hi); }
  }

  lemma SiblingShows(b: string, nodes: seq<Node>, x: Tree, v: Val, i: nat, hi: nat)
    requires Stands(nodes, 1, x, -1) && Held(b, x, hi) && Means(x.body, v) && i < Count(v)
    ensures |Kids(x)| == Count(v) && ShowsPart(b, nodes, SiblingAt(Kids(x), 2, i), v, i)
  {
    StandsShows(b, nodes, 1, x, -1, v, hi);
    OwnRecord(nodes, 1, x, -1);
    SiblingStands(nodes, Kids(x), 2, i);
    assert Held(b, Kids(x)[i], hi);
    PartShows(b, nodes, SiblingAt(Kids(x), 2, i), x, SiblingAt(Kids(x), 2, i + 1), v, i, hi);
  }

  /** Parsing the text of a tree in place: the record returned is the tree's. */
  method ParseWritten(p: Parser, ghost d: Doc) returns (root: int, ghost x: Tree)
    requires OkDoc(d, p.lex) && p.buf[..] == Print(d) + "\0" && Fits(p.enc) && LexesWithin(p.lex)
    modifies p`nodes, p.buf
    ensures root == 1 && Stands(p.nodes, 1, x, -1) && Held(p.buf[..], x, p.buf.Length) && Means(x.body, d.value)
  {
    ghost var t := Print(d) + "\0";
    x := TextReadsBack(d, p.enc, p.lex);
    var ok;
    ok, root := p.Parse(t);
    assert ParseValue(t, 0, None, p.enc, p.lex).value.trees == [x];
    assert AllHeld(p.buf[..], [x], p.buf.Length) && [x][0] == x;
  }

  /** nx_json_item on the parsed text of a tree: the record returned by the parser has the tree's length, and item i is
      the i-th element or member, in the order written. */
  method ReadItem(p: Parser, ghost d: Doc, i: int) returns (root: int, item: int)
    requires OkDoc(d, p.lex) && p.buf[..] == Print(d) + "\0" && Fits(p.enc) && LexesWithin(p.lex)
    modifies p`nodes, p.buf
    ensures 0 <= root < |p.nodes| && Shows(p.buf[..], p.nodes[root], d.value)
    ensures if 0 <= i < Count(d.value) then ShowsPart(p.buf[..], p.nodes, item, d.value, i) else item == -1
  {
    ghost var x;
    root, x := ParseWritten(p, d);
    StandsShows(p.buf[..], p.nodes, 1, x, -1, d.value, p.buf.Length);
    item := p.Item(root, i, x, -1);
    if 0 <= i < Count(d.value) { SiblingShows(p.buf[..], p.nodes, x, d.value, i, p.buf.Length); }
  }

  /** The first member with this name, or the number of members. */
  function Named(members: seq<Member>, name: string): (i: nat)
    ensures i <= |members| && (i < |members| ==> members[i].name == name)
    ensures forall j :: 0 <= j < i ==> members[j].name != name
  {
    if members == [] || members[0].name == name then 0 else 1 + Named(members[1..], name)
  }

  lemma {:induction false} PlainIsCString(s: string)
    requires Plain(s)
    ensures CString(s) == s
    decreases |s|
  {
    if s != [] {
      assert s[0] in s;
      PlainIsCString(s[1..]);
    }
  }

  /** Looking a name up among the parsed members finds the one written first. */
  lemma LookupIsNamed(ts: seq<Tree>, members: seq<Member>, name: string, lex: Lexer)
    requires MembersMean(ts, members) && (forall m :: m in members ==> OkMember(m, lex))
    ensures Lookup(ts, name) == Named(members, name)
  {
    var i := Named(members, name);
    forall j | 0 <= j < |members| ensures KeyIs(ts[j], name) <==> members[j].name == name {
      assert members[j] in members;
      PlainIsCString(members[j].name);
    }
    var k := Lookup(ts, name);
  }

  lemma MemberShows(b: string, nodes: seq<Node>, x: Tree, v: Val, name: string, hi: nat, lex: Lexer, item: int)
    requires Stands(nodes, 1, x, -1) && Held(b, x, hi) && Means(x.body, v) && OkVal(v, lex) && v.VObject?
    requires item == SiblingAt(Kids(x), 2, Lookup(Kids(x), name))
    ensures var i := Named(v.members, name);
      if i < |v.members| then ShowsPart(b, nodes, item, v, i) else item == -1
  {
    LookupIsNamed(x.body.items, v.members, name, lex);
    var i := Named(v.members, name);
    if i < |v.members| { SiblingShows(b, nodes, x, v, i, hi); }
  }

  /** nx_json_get on the parsed text of an object: the value of the first member written with this name. */
  method ReadMember(p: Parser, ghost d: Doc, name: string) returns (item: int)
    requires OkDoc(d, p.lex) && d.value.VObject? && Plain(name)
    requires p.buf[..] == Print(d) + "\0" && Fits(p.enc) && LexesWithin(p.lex)
    modifies p`nodes, p.buf
    ensures var i := Named(d.value.members, name);
      if i < |d.value.members| then ShowsPart(p.buf[..], p.nodes, item, d.value, i) else item == -1
  {
    var root; ghost var x;
    root, x := ParseWritten(p, d);
    item := p.Get(root, Some(name), x, -1, p.buf.Length);
    MemberShows(p.buf[..], p.nodes, x, d.value, name, p.buf.Length, p.lex, item);
  }
}
