/** The node records that nxjson allocates, linked by child, next and last_child (nxjson.h, create_json in nxjson.c),
    and the records that a tree amounts to. A pointer is an index into the records in allocation order; -1 is NULL. */
module NxArena {
  import opened NxText
  import opened NxModel

  datatype Kind = NULL | OBJECT | ARRAY | STRING | INTEGER | DOUBLE | BOOL

  /** struct nx_json. `key` and `text` are positions in the text buffer; `num` is int_value and dbl_value. */
  datatype Node = Node(kind: Kind, key: int, text: int, num: Number, length: nat, child: int, next: int, last: int)

  /** calloc followed by the assignments of create_json. */
  function Fresh(kind: Kind, key: int): Node { Node(kind, key, -1, Integer(0), 0, -1, -1, -1) }

  function KindOf(b: Body): Kind {
    match b
    case Null => NULL
    case Bool(_) => BOOL
    case Text(_) => STRING
    case Num(Integer(_)) => INTEGER
    case Num(Double(_)) => DOUBLE
    case Array(_) => ARRAY
    case Object(_) => OBJECT
  }

  function Kids(t: Tree): seq<Tree> {
    match t.body
    case Array(items) => items
    case Object(items) => items
    case _ => []
  }

  function KeyAt(key: Option<Str>): int { if key.Some? then key.value.at else -1 }

  /** A tree's own record, without its children. */
  function Head(t: Tree, next: int): Node {
    Node(KindOf(t.body), KeyAt(t.key), if t.body.Text? then t.body.s.at else -1,
         match t.body case Bool(b) => Integer(if b then 1 else 0) case Num(n) => n case _ => Integer(0),
         0, -1, next, -1)
  }

  function Size(t: Tree): nat
    decreases t, 1
  {
    1 + match t.body
        case Array(items) => SizeAll(items)
        case Object(items) => SizeAll(items)
        case _ => 0
  }

  function SizeAll(ts: seq<Tree>): nat
    decreases ts, 0
  {
    if ts == [] then 0 else Size(ts[0]) + SizeAll(ts[1..])
  }

  /** A record at index `base` that has been given these children, laid out behind it. */
  function WithKids(head: Node, kids: seq<Tree>, base: nat): Node {
    if kids == [] then head.(length := 0, child := -1, last := -1)
    else head.(length := |kids|, child := base + 1, last := base + 1 + SizeAll(kids[..|kids| - 1]))
  }

  /** The records of a tree whose own record has index `base`. */
  function Layout(t: Tree, base: nat, next: int): seq<Node>
    decreases t, 1
  {
    [WithKids(Head(t, next), Kids(t), base)] +
    match t.body
    case Array(items) => LayoutAll(items, base + 1, -1)
    case Object(items) => LayoutAll(items, base + 1, -1)
    case _ => []
  }

  /** The records of a list of siblings; `after` is the next pointer of the last one. */
  function LayoutAll(ts: seq<Tree>, base: nat, after: int): seq<Node>
    decreases ts, 0
  {
    if ts == [] then []
    else Layout(ts[0], base, if |ts| == 1 then after else base + Size(ts[0])) + LayoutAll(ts[1..], base + Size(ts[0]), after)
  }

  /** A record under construction with the children it has so far. */
  function Container(head: Node, kids: seq<Tree>, base: nat): seq<Node> {
    [WithKids(head, kids, base)] + LayoutAll(kids, base + 1, -1)
  }

  lemma LayoutIsContainer(t: Tree, base: nat, next: int)
    ensures Layout(t, base, next) == Container(Head(t, next), Kids(t), base)
  {
  }

  lemma {:induction false} LayoutSize(t: Tree, base: nat, next: int)
    ensures |Layout(t, base, next)| == Size(t)
    decreases t, 1
  {
    match t.body
    case Array(items) => LayoutAllSize(items, base + 1, -1);
    case Object(items) => LayoutAllSize(items, base + 1, -1);
    case _ =>
  }

  lemma {:induction false} LayoutAllSize(ts: seq<Tree>, base: nat, after: int)
    ensures |LayoutAll(ts, base, after)| == SizeAll(ts)
    decreases ts, 0
  {
    if ts != [] {
      LayoutSize(ts[0], base, if |ts| == 1 then after else base + Size(ts[0]));
      LayoutAllSize(ts[1..], base + Size(ts[0]), after);
    }
  }

  lemma {:induction false} SizeAllAppend(a: seq<Tree>, b: seq<Tree>)
    ensures SizeAll(a + b) == SizeAll(a) + SizeAll(b)
    decreases |a|
  {
    if a == [] {
      assert a + b == b;
    } else {
      SizeAllAppend(a[1..], b);
      assert (a + b)[1..] == a[1..] + b;
    }
  }

  lemma LayoutOne(x: Tree, base: nat, after: int)
    ensures LayoutAll([x], base, after) == Layout(x, base, after)
  {
  }

  lemma LayoutCons(x: Tree, ts: seq<Tree>, base: nat, next: nat, after: int)
    requires ts != [] && next == base + Size(x)
    ensures LayoutAll([x] + ts, base, after) == Layout(x, base, next) + LayoutAll(ts, next, after)
  {
  }

  /** A list of siblings in two parts: the last one of the first part points to the second part. */
  lemma {:induction false} LayoutAllSplit(a: seq<Tree>, b: seq<Tree>, base: nat, mid: nat, after: int)
    requires b != [] && mid == base + SizeAll(a)
    ensures LayoutAll(a + b, base, after) == LayoutAll(a, base, mid) + LayoutAll(b, mid, after)
    decreases |a|, 0
  {
    if a == [] {
      assert a + b == b;
    } else {
      var x, rest := a[0], a[1..];
      assert a == [x] + rest && a + b == [x] + (rest + b);
      if rest == [] {
        assert rest + b == b && a == [x];
        LayoutOne(x, base, mid);
        LayoutCons(x, b, base, mid, after);
      } else {
        SplitMore(x, rest, b, base, base + Size(x), mid, after);
      }
    }
  }

  lemma {:induction false} SplitMore(x: Tree, rest: seq<Tree>, b: seq<Tree>, base: nat, next: nat, mid: nat, after: int)
    requires b != [] && rest != [] && next == base + Size(x) && mid == next + SizeAll(rest)
    ensures LayoutAll([x] + (rest + b), base, after) == LayoutAll([x] + rest, base, mid) + LayoutAll(b, mid, after)
    decreases |rest|, 1
  {
    LayoutAllSplit(rest, b, next, mid, after);
    LayoutCons(x, rest + b, base, next, after);
    LayoutCons(x, rest, base, next, mid);
    Assoc(Layout(x, base, next), LayoutAll(rest, next, mid), LayoutAll(b, mid, after));
  }

  /** Adding a sibling at the end: the last one so far points to it. */
  lemma LayoutAllAppend(ts: seq<Tree>, x: Tree, base: nat, at: nat, after: int)
    requires at == base + SizeAll(ts)
    ensures LayoutAll(ts + [x], base, after) == LayoutAll(ts, base, at) + Layout(x, at, after)
  {
    LayoutAllSplit(ts, [x], base, at, after);
    LayoutOne(x, at, after);
  }

  /** The same records with the first one's next pointer set. */
  function Relinked(nodes: seq<Node>, next: int): seq<Node>
    requires nodes != []
  {
    [nodes[0].(next := next)] + nodes[1..]
  }

  /** Only a tree's own record depends on what follows it. */
  lemma LayoutNext(t: Tree, base: nat, a: int, b: int)
    ensures Layout(t, base, a) != []
    ensures Layout(t, base, b) == Relinked(Layout(t, base, a), b)
  {
  }

  /** Everything of a container in front of its last child, which stands at index `at`. */
  function Front(head: Node, kids: seq<Tree>, base: nat, at: nat): seq<Node> {
    [Grown(head, kids, base, at)] + LayoutAll(kids, base + 1, at)
  }

  lemma FrontSize(head: Node, kids: seq<Tree>, base: nat, at: nat)
    ensures |Front(head, kids, base, at)| == 1 + SizeAll(kids)
  {
    LayoutAllSize(kids, base + 1, at);
  }

  /** A container's own record once it has one more child. */
  function Grown(head: Node, kids: seq<Tree>, base: nat, at: nat): Node {
    head.(length := |kids| + 1, child := base + 1, last := at)
  }

  lemma WithKidsLast(head: Node, kids: seq<Tree>, x: Tree, base: nat, at: nat)
    requires at == base + 1 + SizeAll(kids)
    ensures WithKids(head, kids + [x], base) == Grown(head, kids, base, at)
  {
  }

  lemma Assoc<T>(a: seq<T>, b: seq<T>, c: seq<T>)
    ensures a + (b + c) == a + b + c
  {
  }

  lemma ContainerLast(head: Node, kids: seq<Tree>, x: Tree, base: nat, at: nat)
    requires at == base + 1 + SizeAll(kids)
    ensures Container(head, kids + [x], base) == Front(head, kids, base, at) + Layout(x, at, -1)
  {
    WithKidsLast(head, kids, x, base, at);
    LayoutAllAppend(kids, x, base + 1, at, -1);
    Assoc([Grown(head, kids, base, at)], LayoutAll(kids, base + 1, at), Layout(x, at, -1));
  }

  /** create_json as a function of the records: append a fresh one, hook it behind the parent's last child. */
  function Create(nodes: seq<Node>, parent: nat, kind: Kind, key: int): seq<Node>
    requires parent < |nodes| && -1 <= nodes[parent].last < |nodes|
  {
    Hooked(nodes, parent) + [Fresh(kind, key)]
  }

  function Hooked(nodes: seq<Node>, parent: nat): (r: seq<Node>)
    requires parent < |nodes| && -1 <= nodes[parent].last < |nodes|
    ensures |r| == |nodes|
  {
    var i := |nodes|;
    var p := nodes[parent];
    if p.last == -1 then nodes[parent := p.(child := i, last := i, length := p.length + 1)]
    else
      var n := nodes[p.last := nodes[p.last].(next := i)];
      n[parent := n[parent].(last := i, length := n[parent].length + 1)]
  }

  /** create_json adds a childless record as the container's last child and disturbs nothing else. */
  lemma CreateAddsLast(prefix: seq<Node>, head: Node, kids: seq<Tree>, at: nat)
    requires at == |prefix| + 1 + SizeAll(kids)
    ensures var nodes := prefix + Container(head, kids, |prefix|);
      && -1 <= nodes[|prefix|].last < |nodes|
      && Hooked(nodes, |prefix|) == prefix + Front(head, kids, |prefix|, at)
  {
    var base := |prefix|;
    if kids == [] {
      assert SizeAll(kids) == 0 && LayoutAll(kids, base + 1, -1) == [] && LayoutAll(kids, base + 1, at) == [];
    } else {
      var init, x := kids[..|kids| - 1], kids[|kids| - 1];
      assert kids == init + [x];
      SizeAllLast(init, x);
      HookLast(prefix, head, init, x, base + 1 + SizeAll(init), at);
    }
  }

  lemma SizeAllLast(init: seq<Tree>, x: Tree)
    ensures SizeAll(init + [x]) == SizeAll(init) + Size(x)
  {
    SizeAllAppend(init, [x]);
    assert [x][1..] == [];
  }

  /** The last child so far, x, stands at lastAt; the next one will stand at `at`. */
  lemma {:induction false} HookLast(prefix: seq<Node>, head: Node, init: seq<Tree>, x: Tree, lastAt: nat, at: nat)
    requires lastAt == |prefix| + 1 + SizeAll(init) && at == lastAt + Size(x)
    ensures var nodes := prefix + Container(head, init + [x], |prefix|);
      && -1 <= nodes[|prefix|].last < |nodes|
      && Hooked(nodes, |prefix|) == prefix + Front(head, init + [x], |prefix|, at)
  {
    var base := |prefix|;
    LayoutAllSize(init, base + 1, lastAt);
    LayoutSize(x, lastAt, -1);
    LayoutNext(x, lastAt, -1, at);
    ContainerLast(head, init, x, base, lastAt);
    LayoutAllAppend(init, x, base + 1, lastAt, at);
    HookCombined(prefix, Grown(head, init, base, lastAt), Grown(head, init + [x], base, at),
                 LayoutAll(init, base + 1, lastAt), Layout(x, lastAt, -1), Layout(x, lastAt, at), at);
  }

  lemma HookCombined(prefix: seq<Node>, own: Node, grown: Node, siblings: seq<Node>, last: seq<Node>, moved: seq<Node>, at: nat)
    requires last != [] && own.length > 0 && own.last == |prefix| + 1 + |siblings| && at == own.last + |last|
    requires grown == own.(last := at, length := own.length + 1) && moved == Relinked(last, at)
    ensures var nodes := prefix + ([own] + siblings + last);
      && -1 <= nodes[|prefix|].last < |nodes|
      && Hooked(nodes, |prefix|) == prefix + ([grown] + (siblings + moved))
  {
    Assoc([own], siblings, last);
    HookRecords(prefix, own, siblings, last, own.length);
  }

  /** The same on plain records: `own` is the parent, `last` the records of its last child. */
  lemma HookRecords(prefix: seq<Node>, own: Node, siblings: seq<Node>, last: seq<Node>, n: nat)
    requires last != [] && own.length == n && own.last == |prefix| + 1 + |siblings|
    ensures var nodes := prefix + ([own] + (siblings + last));
      var at := |nodes|;
      nodes[|prefix|] == own && own.last < |nodes| && Hooked(nodes, |prefix|) ==
      prefix + ([own.(last := at, length := n + 1)] + (siblings + Relinked(last, at)))
  {
    var nodes := prefix + ([own] + (siblings + last));
    assert nodes[|prefix|] == own && nodes[own.last] == last[0];
  }

  // ---------------------------------------------------------------- finding children

  /** A tree's records stand at index `at`. */
  predicate Stands(nodes: seq<Node>, at: nat, t: Tree, next: int) {
    at + Size(t) <= |nodes| && nodes[at..at + Size(t)] == Layout(t, at, next)
  }

  lemma FirstStands(head: Node, x: Tree)
    ensures Stands(Container(head, [x], 0), 1, x, -1)
  {
    LayoutOne(x, 1, -1);
    LayoutSize(x, 1, -1);
    BehindFirst(WithKids(head, [x], 0), Layout(x, 1, -1), Container(head, [x], 0), 1 + Size(x));
  }

  lemma BehindFirst(own: Node, rest: seq<Node>, all: seq<Node>, end: nat)
    requires all == [own] + rest && end == 1 + |rest|
    ensures |all| == end && all[1..end] == rest
  {
  }

  /** The index of the i-th of some siblings, or NULL behind the last. */
  function SiblingAt(ts: seq<Tree>, base: nat, i: nat): int
    requires i <= |ts|
  {
    if i == |ts| then -1 else base + SizeAll(ts[..i])
  }

  lemma SplitAt(ts: seq<Tree>, base: nat, i: nat, at: nat, next: int, rest: nat)
    requires i < |ts| && at == SiblingAt(ts, base, i) && next == SiblingAt(ts, base, i + 1) && rest == at + Size(ts[i])
    ensures SizeAll(ts) == SizeAll(ts[..i]) + Size(ts[i]) + SizeAll(ts[i + 1..])
    ensures LayoutAll(ts, base, -1) ==
            LayoutAll(ts[..i], base, at) + (Layout(ts[i], at, next) + LayoutAll(ts[i + 1..], rest, -1))
  {
    var a, b := ts[..i], ts[i..];
    assert ts == a + b && b[0] == ts[i] && b[1..] == ts[i + 1..];
    SizeAllAppend(a, b);
    LayoutAllSplit(a, b, base, at, -1);
    if i + 1 < |ts| {
      assert ts[..i + 1] == a + [ts[i]];
      SizeAllLast(a, ts[i]);
    }
  }

  lemma SiblingStands(nodes: seq<Node>, ts: seq<Tree>, base: nat, i: nat)
    requires base + SizeAll(ts) <= |nodes| && nodes[base..base + SizeAll(ts)] == LayoutAll(ts, base, -1) && i < |ts|
    ensures Stands(nodes, SiblingAt(ts, base, i), ts[i], SiblingAt(ts, base, i + 1))
  {
    var at, next := SiblingAt(ts, base, i), SiblingAt(ts, base, i + 1);
    var rest := at + Size(ts[i]);
    SplitAt(ts, base, i, at, next, rest);
    LayoutAllSize(ts[..i], base, at);
    LayoutSize(ts[i], at, next);
    LayoutAllSize(ts[i + 1..], rest, -1);
    Window(nodes, base, base + SizeAll(ts), LayoutAll(ts[..i], base, at), Layout(ts[i], at, next), LayoutAll(ts[i + 1..], rest, -1),
           at, rest);
  }

  lemma Window(nodes: seq<Node>, base: nat, end: nat, a: seq<Node>, b: seq<Node>, c: seq<Node>, at: nat, rest: nat)
    requires at == base + |a| && rest == at + |b|
    requires end == rest + |c| <= |nodes| && nodes[base..end] == a + (b + c)
    ensures nodes[at..rest] == b
  {
    forall k | 0 <= k < |b| ensures nodes[at + k] == b[k] {
      assert nodes[base..end][|a| + k] == (a + (b + c))[|a| + k];
    }
  }

  /** A record says how many children its tree has, where the first one is, and what follows it. */
  lemma OwnRecord(nodes: seq<Node>, at: nat, t: Tree, next: int)
    requires Stands(nodes, at, t, next)
    ensures at < |nodes| && nodes[at] == WithKids(Head(t, next), Kids(t), at)
    ensures var base := at + 1;
      base + SizeAll(Kids(t)) <= |nodes| && nodes[base..base + SizeAll(Kids(t))] == LayoutAll(Kids(t), base, -1)
  {
    LayoutIsContainer(t, at, next);
    LayoutAllSize(Kids(t), at + 1, -1);
    assert nodes[at] == nodes[at..at + Size(t)][0];
    Window(nodes, at, at + Size(t), [WithKids(Head(t, next), Kids(t), at)], LayoutAll(Kids(t), at + 1, -1), [],
           at + 1, at + Size(t));
  }

  /** What a walk over siblings reads of the i-th: its key and where the next one is. */
  lemma ChildRecord(nodes: seq<Node>, ts: seq<Tree>, base: nat, i: nat)
    requires base + SizeAll(ts) <= |nodes| && nodes[base..base + SizeAll(ts)] == LayoutAll(ts, base, -1) && i < |ts|
    ensures var at := SiblingAt(ts, base, i);
      && Stands(nodes, at, ts[i], SiblingAt(ts, base, i + 1)) && at < |nodes|
      && nodes[at].key == KeyAt(ts[i].key) && nodes[at].next == SiblingAt(ts, base, i + 1)
  {
    SiblingStands(nodes, ts, base, i);
    OwnRecord(nodes, SiblingAt(ts, base, i), ts[i], SiblingAt(ts, base, i + 1));
  }
}
