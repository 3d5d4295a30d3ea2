/** nxjson reads back what a JSON tree is written as, whatever white space and comments stand between the tokens. */
module NxRoundTrip {
  import opened NxText
  import opened NxModel
  import opened NxComments

  /** A value with the padding in front of it. */
  datatype Doc = Doc(lead: seq<string>, value: Val)

  datatype Val =
    | VNull
    | VBool(b: bool)
    | VText(s: string)
    | VNum(text: string, n: Number)
    | VArray(items: seq<Doc>, trail: seq<string>)
    | VObject(members: seq<Member>, trail: seq<string>)

  datatype Member = Member(before: seq<string>, name: string, behind: string, doc: Doc)

  /** What may stand between a key and its colon: blanks and control characters. */
  predicate Blank(ws: string) { forall c :: c in ws ==> 1 <= c as int <= 32 }

  /** A blank or a comment. */
  predicate Gap(g: string) { (|g| == 1 && g[0] in " \t\n\r") || (Plain(g) && (LineComment(g) || BlockComment(g))) }

  /** What may stand in front of a key, a value or a closing bracket. */
  predicate Padding(pad: seq<string>) { forall g :: g in pad ==> Gap(g) }

  function Joined(pad: seq<string>): string { if pad == [] then [] else pad[0] + Joined(pad[1..]) }

  predicate Plain(s: string) { '\0' !in s }

  /** What may follow a value. */
  predicate Follows(t: string, q: nat) { q < |t| && t[q] in " \t\n\r/,]}\0" }

  /** strtoll and strtod take this text, whatever follows the value, and yield this number. */
  ghost predicate Converts(lex: Lexer, text: string, n: Number) {
    forall rest: string :: Follows(rest, 0) ==> lex(text + rest) == Some((|text|, n))
  }

  ghost predicate OkDoc(d: Doc, lex: Lexer) { Padding(d.lead) && OkVal(d.value, lex) }

  ghost predicate OkVal(v: Val, lex: Lexer) {
    match v
    case VText(s) => Plain(s)
    case VNum(text, n) => Plain(text) && text != [] && text[0] in "-0123456789" && Converts(lex, text, n)
    case VArray(items, trail) => Padding(trail) && forall d :: d in items ==> OkDoc(d, lex)
    case VObject(members, trail) => Padding(trail) && forall m :: m in members ==> OkMember(m, lex)
    case _ => true
  }

  ghost predicate OkMember(m: Member, lex: Lexer) { Padding(m.before) && Plain(m.name) && Blank(m.behind) && OkDoc(m.doc, lex) }

  // ---------------------------------------------------------------- writing

  function EscapeChar(c: char): string { if c == '"' || c == '\\' then ['\\', c] else [c] }

  /** What follows the opening quote. */
  function Quoted(s: string): string { if s == [] then "\"" else EscapeChar(s[0]) + Quoted(s[1..]) }

  function Print(d: Doc): string { Joined(d.lead) + PrintVal(d.value) }

  function PrintVal(v: Val): string {
    match v
    case VNull => "null"
    case VBool(b) => if b then "true" else "false"
    case VText(s) => "\"" + Quoted(s)
    case VNum(text, _) => text
    case VArray(items, trail) => "[" + PrintItems(items, trail)
    case VObject(members, trail) => "{" + PrintMembers(members, trail)
  }

  function PrintItems(items: seq<Doc>, trail: seq<string>): string {
    if items == [] then Joined(trail) + "]"
    else Print(items[0]) + (if |items| == 1 then Joined(trail) + "]" else "," + PrintItems(items[1..], trail))
  }

  function PrintMembers(members: seq<Member>, trail: seq<string>): string {
    if members == [] then Joined(trail) + "}"
    else PrintMember(members[0]) + (if |members| == 1 then Joined(trail) + "}" else "," + PrintMembers(members[1..], trail))
  }

  function PrintMember(m: Member): string { Joined(m.before) + ("\"" + (Quoted(m.name) + (m.behind + (":" + Print(m.doc))))) }

  /** A parsed value is the written one, strings compared by their characters. */
  predicate Means(b: Body, v: Val)
    decreases v
  {
    match v
    case VNull => b == Null
    case VBool(x) => b == Bool(x)
    case VText(s) => b.Text? && b.s.value == s
    case VNum(_, n) => b == Num(n)
    case VArray(items, _) => b.Array? && ItemsMean(b.items, items)
    case VObject(members, _) => b.Object? && MembersMean(b.items, members)
  }

  predicate ItemsMean(ts: seq<Tree>, items: seq<Doc>)
    decreases items
  {
    |ts| == |items| && forall i :: 0 <= i < |items| ==> ts[i].key == None && Means(ts[i].body, items[i].value)
  }

  predicate MembersMean(ts: seq<Tree>, members: seq<Member>)
    decreases members
  {
    |ts| == |members| && forall i :: 0 <= i < |members| ==>
      ts[i].key.Some? && ts[i].key.value.value == members[i].name && Means(ts[i].body, members[i].doc.value)
  }

  // ---------------------------------------------------------------- white space and strings

  lemma HasFirst(t: string, p: nat, c: char, rest: string)
    requires Has(t, p, [c] + rest)
    ensures p < |t| && t[p] == c && Has(t, p + 1, rest)
  {
    HasSplit(t, p, [c], rest);
    assert [c][0] == c;
  }

  lemma PaddingFirst(pad: seq<string>)
    requires Padding(pad) && pad != []
    ensures Joined(pad) != [] && Joined(pad)[0] in " \t\n\r/"
  {
    assert Gap(pad[0]) && Joined(pad)[0] == pad[0][0];
  }

  lemma {:induction false} PaddingPlain(pad: seq<string>)
    requires Padding(pad)
    ensures Plain(Joined(pad))
    decreases |pad|
  {
    if pad != [] {
      assert Gap(pad[0]) && Plain(pad[0]) && forall g :: g in pad[1..] ==> g in pad;
      PaddingPlain(pad[1..]);
    }
  }

  /** What the parser passes over in one step at p: a blank, or a comment. */
  predicate Passes(t: string, p: nat, q: nat)
    requires Terminated(t)
  {
    p + 1 < |t| && ((t[p] in " \t\n\r" && q == p + 1) || (t[p] == '/' && SkipComment(t, p) == Some(q)))
  }

  lemma GapPasses(t: string, p: nat, g: string)
    requires Terminated(t) && Gap(g) && Has(t, p, g) && p + |g| < |t|
    ensures Passes(t, p, p + |g|)
  {
    assert t[p..p + |g|] == g && t[p] == g[0];
    if t[p] == '/' { CommentExactly(t, p, p + |g|); }
  }

  lemma PadFirst(t: string, p: nat, pad: seq<string>) returns (at: nat)
    requires Terminated(t) && Padding(pad) && pad != [] && Has(t, p, Joined(pad)) && p + |Joined(pad)| < |t|
    ensures at + |Joined(pad[1..])| == p + |Joined(pad)| && Padding(pad[1..]) && Has(t, at, Joined(pad[1..]))
    ensures Passes(t, p, at)
  {
    at := p + |pad[0]|;
    assert Gap(pad[0]) && forall g :: g in pad[1..] ==> g in pad;
    HasSplit(t, p, pad[0], Joined(pad[1..]));
    GapPasses(t, p, pad[0]);
  }

  lemma ValueStep(t: string, p: nat, q: nat, key: Option<Str>, enc: Encoder, lex: Lexer)
    requires Terminated(t) && LexesWithin(lex) && Passes(t, p, q) && q < |t|
    ensures ParseValue(t, p, key, enc, lex) == ParseValue(t, q, key, enc, lex)
  {
    if t[p] == '/' { ParsedComment(t, p, q, key, enc, lex); } else { ParsedBlank(t, p, key, enc, lex); }
  }

  lemma KeyStep(t: string, p: nat, q: nat, enc: Encoder)
    requires Terminated(t) && Passes(t, p, q) && q < |t|
    ensures ParseKey(t, p, enc) == ParseKey(t, q, enc)
  {
    ParsedKey(t, p, enc);
  }

  lemma {:induction false} ValueLead(t: string, p: nat, q: nat, pad: seq<string>, key: Option<Str>, enc: Encoder, lex: Lexer)
    requires Terminated(t) && LexesWithin(lex) && Padding(pad) && Has(t, p, Joined(pad)) && q == p + |Joined(pad)| < |t|
    ensures ParseValue(t, p, key, enc, lex) == ParseValue(t, q, key, enc, lex)
    decreases |pad|
  {
    if pad != [] {
      var at := PadFirst(t, p, pad);
      ValueStep(t, p, at, key, enc, lex);
      ValueLead(t, at, q, pad[1..], key, enc, lex);
    }
  }

  lemma {:induction false} KeyLead(t: string, p: nat, q: nat, pad: seq<string>, enc: Encoder)
    requires Terminated(t) && Padding(pad) && Has(t, p, Joined(pad)) && q == p + |Joined(pad)| < |t|
    ensures ParseKey(t, p, enc) == ParseKey(t, q, enc)
    decreases |pad|
  {
    if pad != [] {
      var at := PadFirst(t, p, pad);
      KeyStep(t, p, at, enc);
      KeyLead(t, at, q, pad[1..], enc);
    }
  }

  lemma {:induction false} ColonLead(t: string, p: nat, ws: string)
    requires Terminated(t) && Blank(ws) && Has(t, p, ws) && p + |ws| < |t|
    ensures SkipWhite(t, p) == SkipWhite(t, p + |ws|)
    decreases |ws|
  {
    if ws != [] {
      assert ws == [ws[0]] + ws[1..] && ws[0] in ws && forall c :: c in ws[1..] ==> c in ws;
      HasFirst(t, p, ws[0], ws[1..]);
      ColonLead(t, p + 1, ws[1..]);
    }
  }

  lemma {:induction false} QuotedReads(t: string, p: nat, s: string, enc: Encoder)
    requires Terminated(t) && Plain(s) && Has(t, p, Quoted(s))
    ensures p < |t| && Unescape(t, p, enc) == Some((s, p + |Quoted(s)|))
    decreases |s|
  {
    if s == [] {
      assert t[p] == "\""[0];
    } else {
      assert s == [s[0]] + s[1..] && s[0] in s;
      var next := EscapedReads(t, p, s[0], Quoted(s[1..]), enc);
      QuotedReads(t, next, s[1..], enc);
    }
  }

  /** One character of a quoted string. */
  lemma EscapedReads(t: string, p: nat, c: char, rest: string, enc: Encoder) returns (next: nat)
    requires Terminated(t) && c != '\0' && Has(t, p, EscapeChar(c) + rest)
    ensures p < next == p + |EscapeChar(c)| < |t| && Has(t, next, rest)
    ensures Unescape(t, p, enc) ==
      match Unescape(t, next, enc)
      case None => None
      case Some((value, q)) => Some(([c] + value, q))
  {
    next := p + |EscapeChar(c)|;
    HasSplit(t, p, EscapeChar(c), rest);
    assert EscapeChar(c)[0] == t[p];
    if c == '"' || c == '\\' { assert EscapeChar(c)[1] == t[p + 1]; }
    assert t[next - 1] == c;
  }

  // ---------------------------------------------------------------- values

  lemma {:induction false} DocTree(t: string, p: nat, q: nat, key: Option<Str>, d: Doc, enc: Encoder, lex: Lexer)
    returns (x: Tree)
    requires Terminated(t) && LexesWithin(lex) && OkDoc(d, lex) && Has(t, p, Print(d)) && q == p + |Print(d)| && Follows(t, q)
    ensures p < q && t[p] != '}' && ParseValue(t, p, key, enc, lex) == Some(Parsed([x], q))
    ensures x.key == key && Means(x.body, d.value)
    decreases d, 3
  {
    var at := DocFirst(t, p, d, lex);
    ValueLead(t, p, at, d.lead, key, enc, lex);
    x := ValTree(t, at, q, key, d.value, enc, lex);
  }

  lemma TextTree(t: string, p: nat, q: nat, key: Option<Str>, s: string, enc: Encoder, lex: Lexer)
    requires Terminated(t) && LexesWithin(lex) && Plain(s) && Has(t, p, "\"" + Quoted(s)) && q == p + 1 + |Quoted(s)| < |t|
    ensures ParseValue(t, p, key, enc, lex) == Some(Parsed([Tree(key, Text(Str(p + 1, s)))], q))
  {
    HasFirst(t, p, '"', Quoted(s));
    QuotedReads(t, p + 1, s, enc);
    TextParsed(t, p, q, key, s, enc, lex);
  }

  lemma TextParsed(t: string, p: nat, q: nat, key: Option<Str>, s: string, enc: Encoder, lex: Lexer)
    requires Terminated(t) && LexesWithin(lex) && p + 1 < |t| && t[p] == '"' && Unescape(t, p + 1, enc) == Some((s, q))
    ensures ParseValue(t, p, key, enc, lex) == Some(Parsed([Tree(key, Text(Str(p + 1, s)))], q))
  {
    ParsedText(t, p, key, enc, lex);
  }

  lemma {:induction false} ValTree(t: string, p: nat, q: nat, key: Option<Str>, v: Val, enc: Encoder, lex: Lexer)
    returns (x: Tree)
    requires Terminated(t) && LexesWithin(lex) && OkVal(v, lex) && Has(t, p, PrintVal(v))
    requires q == p + |PrintVal(v)| && Follows(t, q)
    ensures ParseValue(t, p, key, enc, lex) == Some(Parsed([x], q))
    ensures x.key == key && Means(x.body, v)
    decreases v, 1
  {
    match v
    case VNull =>
      WordTree(t, p, q, "null", key, enc, lex);
      x := Tree(key, Null);
    case VBool(b) =>
      WordTree(t, p, q, if b then "true" else "false", key, enc, lex);
      x := Tree(key, Bool(b));
    case VText(s) =>
      TextTree(t, p, q, key, s, enc, lex);
      x := Tree(key, Text(Str(p + 1, s)));
    case VNum(text, n) =>
      NumTree(t, p, q, key, text, n, enc, lex);
      x := Tree(key, Num(n));
    case VArray(items, trail) =>
      HasFirst(t, p, '[', PrintItems(items, trail));
      x := ArrayTree(t, p, q, key, items, trail, enc, lex);
    case VObject(members, trail) =>
      HasFirst(t, p, '{', PrintMembers(members, trail));
      x := ObjectTree(t, p, q, key, members, trail, enc, lex);
  }

  lemma {:induction false} ArrayTree(t: string, p: nat, q: nat, key: Option<Str>, items: seq<Doc>,
        trail: seq<string>, enc: Encoder, lex: Lexer)
    returns (x: Tree)
    requires Terminated(t) && LexesWithin(lex) && Padding(trail) && (forall d :: d in items ==> OkDoc(d, lex))
    requires p < |t| && t[p] == '[' && Has(t, p + 1, PrintItems(items, trail)) && q == p + 1 + |PrintItems(items, trail)| < |t|
    ensures ParseValue(t, p, key, enc, lex) == Some(Parsed([x], q))
    ensures x.key == key && x.body.Array? && ItemsMean(x.body.items, items)
    decreases items, 2
  {
    var ts := ItemsTrees(t, p + 1, q, items, trail, enc, lex);
    x := ArrayParsed(t, p, q, key, ts, enc, lex);
  }

  lemma {:induction false} ObjectTree(t: string, p: nat, q: nat, key: Option<Str>, members: seq<Member>,
        trail: seq<string>, enc: Encoder, lex: Lexer)
    returns (x: Tree)
    requires Terminated(t) && LexesWithin(lex) && Padding(trail) && (forall m :: m in members ==> OkMember(m, lex))
    requires p < |t| && t[p] == '{' && Has(t, p + 1, PrintMembers(members, trail))
    requires q == p + 1 + |PrintMembers(members, trail)| < |t|
    ensures ParseValue(t, p, key, enc, lex) == Some(Parsed([x], q))
    ensures x.key == key && x.body.Object? && MembersMean(x.body.items, members)
    decreases members, 2
  {
    var ts := MembersTrees(t, p + 1, q, members, trail, enc, lex);
    x := ObjectParsed(t, p, q, key, ts, enc, lex);
  }

  lemma ArrayParsed(t: string, p: nat, q: nat, key: Option<Str>, ts: seq<Tree>, enc: Encoder, lex: Lexer) returns (x: Tree)
    requires Terminated(t) && LexesWithin(lex) && p + 1 < |t| && t[p] == '['
    requires ParseElems(t, p + 1, enc, lex) == Some(Parsed(ts, q))
    ensures x == Tree(key, Array(ts)) && ParseValue(t, p, key, enc, lex) == Some(Parsed([x], q))
  {
    ParsedArray(t, p, key, enc, lex);
    x := Tree(key, Array(ts));
  }

  lemma ObjectParsed(t: string, p: nat, q: nat, key: Option<Str>, ts: seq<Tree>, enc: Encoder, lex: Lexer) returns (x: Tree)
    requires Terminated(t) && LexesWithin(lex) && p + 1 < |t| && t[p] == '{'
    requires ParseMembers(t, p + 1, enc, lex) == Some(Parsed(ts, q))
    ensures x == Tree(key, Object(ts)) && ParseValue(t, p, key, enc, lex) == Some(Parsed([x], q))
  {
    ParsedObject(t, p, key, enc, lex);
    x := Tree(key, Object(ts));
  }

  lemma NumTree(t: string, p: nat, q: nat, key: Option<Str>, text: string, n: Number, enc: Encoder, lex: Lexer)
    requires Terminated(t) && LexesWithin(lex) && OkVal(VNum(text, n), lex) && Has(t, p, text)
    requires q == p + |text| && Follows(t, q)
    ensures ParseValue(t, p, key, enc, lex) == Some(Parsed([Tree(key, Num(n))], q))
  {
    NumRead(t, p, q, text, n, lex);
    NumParsed(t, p, q, key, n, enc, lex);
  }

  lemma NumParsed(t: string, p: nat, q: nat, key: Option<Str>, n: Number, enc: Encoder, lex: Lexer)
    requires Terminated(t) && LexesWithin(lex) && p <= q && p < |t| && (t[p] == '-' || '0' <= t[p] <= '9')
    requires lex(t[p..]) == Some((q - p, n))
    ensures ParseValue(t, p, key, enc, lex) == Some(Parsed([Tree(key, Num(n))], q))
  {
    ParsedScalar(t, p, key, enc, lex);
  }

  lemma NumRead(t: string, p: nat, q: nat, text: string, n: Number, lex: Lexer)
    requires Converts(lex, text, n) && text != [] && Has(t, p, text) && q == p + |text| && Follows(t, q)
    ensures t[p] == text[0] && lex(t[p..]) == Some((|text|, n))
    ensures text[0] in "-0123456789" ==> (t[p] == '-' || '0' <= t[p] <= '9')
  {
    assert t[p..] == text + t[q..] && Follows(t[q..], 0);
  }

  lemma WordTree(t: string, p: nat, q: nat, word: string, key: Option<Str>, enc: Encoder, lex: Lexer)
    requires Terminated(t) && LexesWithin(lex) && Has(t, p, word) && q == p + |word| < |t| && word in {"null", "true", "false"}
    ensures ParseValue(t, p, key, enc, lex) ==
      Some(Parsed([Tree(key, if word == "null" then Null else Bool(word == "true"))], q))
  {
    WordAt(t, p, q, word);
    WordStarts(t, p);
    ParsedScalar(t, p, key, enc, lex);
  }

  lemma WordAt(t: string, p: nat, q: nat, word: string)
    requires Has(t, p, word) && q == p + |word| < |t| && word != []
    ensures StartsWith(t, p, word) && t[p] == word[0]
  {
    assert t[p..q] == word;
  }

  /** The padding in front of a closing bracket. */
  lemma TrailRead(t: string, p: nat, pad: string, close: string) returns (at: nat)
    requires Has(t, p, pad + close) && |close| == 1
    ensures at == p + |pad| < |t| && Has(t, p, pad) && t[at] == close[0]
  {
    at := p + |pad|;
    HasSplit(t, p, pad, close);
  }

  lemma ElemsClose(t: string, p: nat, q: nat, trail: seq<string>, enc: Encoder, lex: Lexer)
    requires Terminated(t) && LexesWithin(lex) && Padding(trail) && Has(t, p, Joined(trail) + "]")
    requires q == p + |Joined(trail)| + 1 < |t|
    ensures ParseElems(t, p, enc, lex) == Some(Parsed([], q))
  {
    var at := TrailRead(t, p, Joined(trail), "]");
    assert at + 1 == q && t[at] == ']';
    ValueLead(t, p, at, trail, None, enc, lex);
    ElemsEnd(t, p, at, enc, lex);
  }

  lemma ElemsEnd(t: string, p: nat, at: nat, enc: Encoder, lex: Lexer)
    requires Terminated(t) && LexesWithin(lex) && p <= at < |t| && t[at] == ']'
    requires ParseValue(t, p, None, enc, lex) == ParseValue(t, at, None, enc, lex)
    ensures ParseElems(t, p, enc, lex) == Some(Parsed([], at + 1))
  {
    ParsedSkip(t, at, None, enc, lex);
    ParsedElem(t, p, enc, lex);
  }

  lemma MembersClose(t: string, p: nat, q: nat, trail: seq<string>, enc: Encoder, lex: Lexer)
    requires Terminated(t) && LexesWithin(lex) && Padding(trail) && Has(t, p, Joined(trail) + "}")
    requires q == p + |Joined(trail)| + 1 < |t|
    ensures ParseMembers(t, p, enc, lex) == Some(Parsed([], q))
  {
    var at := TrailRead(t, p, Joined(trail), "}");
    KeyLead(t, p, at, trail, enc);
    MembersEnd(t, p, at, enc, lex);
  }

  lemma MembersEnd(t: string, p: nat, at: nat, enc: Encoder, lex: Lexer)
    requires Terminated(t) && LexesWithin(lex) && p <= at < |t| && t[at] == '}' && ParseKey(t, p, enc) == ParseKey(t, at, enc)
    ensures ParseMembers(t, p, enc, lex) == Some(Parsed([], at + 1))
  {
    ParsedKey(t, at, enc);
    ParsedMember(t, p, enc, lex);
  }

  lemma ElemsComma(t: string, p: nat, enc: Encoder, lex: Lexer)
    requires Terminated(t) && LexesWithin(lex) && p < |t| && t[p] == ','
    ensures ParseElems(t, p, enc, lex) == ParseElems(t, p + 1, enc, lex)
  {
    ParsedSkip(t, p, None, enc, lex);
    ParsedElem(t, p, enc, lex);
    ParsedElem(t, p + 1, enc, lex);
  }

  lemma {:induction false} ItemsTrees(t: string, p: nat, q: nat, items: seq<Doc>, trail: seq<string>, enc: Encoder, lex: Lexer)
    returns (ts: seq<Tree>)
    requires Terminated(t) && LexesWithin(lex) && Padding(trail) && (forall d :: d in items ==> OkDoc(d, lex))
    requires Has(t, p, PrintItems(items, trail)) && q == p + |PrintItems(items, trail)| < |t|
    ensures ParseElems(t, p, enc, lex) == Some(Parsed(ts, q)) && ItemsMean(ts, items)
    decreases items, 1
  {
    if items == [] {
      ElemsClose(t, p, q, trail, enc, lex);
      return [];
    }
    var d, more := items[0], items[1..];
    var mid, behind := ItemsSplit(t, p, q, items, d, more, trail, lex);
    var x := DocTree(t, p, mid, None, d, enc, lex);
    var rest := MoreItems(t, mid, q, more, trail, behind, enc, lex);
    ts := ElemsStep(t, p, mid, q, x, rest, enc, lex);
    ItemsMeanCons(x, rest, d, more, items);
  }

  /** Behind an element or member there is a comma, or padding and the closing bracket. */
  lemma ListFollows(t: string, p: nat, trail: seq<string>, close: string, behind: string)
    requires Padding(trail) && Has(t, p, behind) && (close == "]" || close == "}")
    requires behind == Joined(trail) + close || (behind != [] && behind[0] == ',')
    ensures Follows(t, p)
  {
    if behind == Joined(trail) + close && trail != [] { PaddingFirst(trail); }
    assert behind != [] && t[p] == behind[0];
  }

  /** The text of a list of elements: the first one, and what follows it. */
  lemma ItemsSplit(t: string, p: nat, q: nat, items: seq<Doc>, d: Doc, more: seq<Doc>, trail: seq<string>, lex: Lexer)
    returns (mid: nat, behind: string)
    requires items != [] && d == items[0] && more == items[1..] && (forall e :: e in items ==> OkDoc(e, lex))
    requires Has(t, p, PrintItems(items, trail)) && q == p + |PrintItems(items, trail)| < |t| && Padding(trail)
    ensures OkDoc(d, lex) && (forall e :: e in more ==> OkDoc(e, lex))
    ensures Has(t, p, Print(d)) && mid == p + |Print(d)| && Has(t, mid, behind) && q == mid + |behind|
    ensures behind == (if more == [] then Joined(trail) + "]" else "," + PrintItems(more, trail)) && Follows(t, mid)
  {
    assert d in items && forall e :: e in more ==> e in items;
    behind := if |items| == 1 then Joined(trail) + "]" else "," + PrintItems(more, trail);
    mid := p + |Print(d)|;
    HasSplit(t, p, Print(d), behind);
    ListFollows(t, mid, trail, "]", behind);
  }

  /** One round of the loop in the array case that reads an element. */
  lemma ElemsStep(t: string, p: nat, mid: nat, q: nat, x: Tree, rest: seq<Tree>, enc: Encoder, lex: Lexer)
    returns (ts: seq<Tree>)
    requires Terminated(t) && LexesWithin(lex) && p < mid < |t| && ParseValue(t, p, None, enc, lex) == Some(Parsed([x], mid))
    requires if t[mid] == ']' then rest == [] && q == mid + 1 else ParseElems(t, mid, enc, lex) == Some(Parsed(rest, q))
    ensures ts == [x] + rest && ParseElems(t, p, enc, lex) == Some(Parsed(ts, q))
  {
    ParsedElem(t, p, enc, lex);
    ts := [x] + rest;
    assert rest == [] ==> ts == [x];
  }

  /** Behind an element: the closing bracket at once, or what the next round of the loop reads. */
  lemma {:induction false} MoreItems(t: string, p: nat, q: nat, more: seq<Doc>, trail: seq<string>,
        behind: string, enc: Encoder, lex: Lexer)
    returns (rest: seq<Tree>)
    requires Terminated(t) && LexesWithin(lex) && Padding(trail) && (forall d :: d in more ==> OkDoc(d, lex))
    requires behind == if more == [] then Joined(trail) + "]" else "," + PrintItems(more, trail)
    requires Has(t, p, behind) && q == p + |behind| < |t|
    ensures p < |t| && ItemsMean(rest, more)
    ensures if t[p] == ']' then rest == [] && q == p + 1 else ParseElems(t, p, enc, lex) == Some(Parsed(rest, q))
    decreases more, 2
  {
    if more == [] {
      assert t[p] == behind[0];
      ElemsClose(t, p, q, trail, enc, lex);
      rest := [];
      if trail != [] { PaddingFirst(trail); }
    } else {
      HasFirst(t, p, ',', PrintItems(more, trail));
      ElemsComma(t, p, enc, lex);
      rest := ItemsTrees(t, p + 1, q, more, trail, enc, lex);
    }
  }

  lemma ItemsMeanCons(x: Tree, rest: seq<Tree>, d: Doc, more: seq<Doc>, items: seq<Doc>)
    requires items != [] && d == items[0] && more == items[1..]
    requires x.key == None && Means(x.body, d.value) && ItemsMean(rest, more)
    ensures ItemsMean([x] + rest, items)
  {
  }

  lemma {:induction false} MembersTrees(t: string, p: nat, q: nat, members: seq<Member>, trail: seq<string>,
        enc: Encoder, lex: Lexer)
    returns (ts: seq<Tree>)
    requires Terminated(t) && LexesWithin(lex) && Padding(trail) && (forall m :: m in members ==> OkMember(m, lex))
    requires Has(t, p, PrintMembers(members, trail)) && q == p + |PrintMembers(members, trail)| < |t|
    ensures ParseMembers(t, p, enc, lex) == Some(Parsed(ts, q)) && MembersMean(ts, members)
    decreases members, 1
  {
    if members == [] {
      MembersClose(t, p, q, trail, enc, lex);
      return [];
    }
    var m, more := members[0], members[1..];
    var mid, behind := MembersSplit(t, p, q, members, m, more, trail, lex);
    var key, at := MemberKey(t, p, m, enc, lex);
    var x := DocTree(t, at, mid, key, m.doc, enc, lex);
    var rest := MoreMembers(t, mid, q, more, trail, behind, enc, lex);
    ts := MembersStep(t, p, at, mid, q, key, x, rest, enc, lex);
    MembersMeanCons(x, rest, m, more, members);
  }

  /** The text of a list of members: the first one, and what follows it. */
  lemma MembersSplit(t: string, p: nat, q: nat, members: seq<Member>, m: Member, more: seq<Member>,
        trail: seq<string>, lex: Lexer)
    returns (mid: nat, behind: string)
    requires members != [] && m == members[0] && more == members[1..] && (forall e :: e in members ==> OkMember(e, lex))
    requires Has(t, p, PrintMembers(members, trail)) && q == p + |PrintMembers(members, trail)| < |t| && Padding(trail)
    ensures OkMember(m, lex) && (forall e :: e in more ==> OkMember(e, lex))
    ensures Has(t, p, PrintMember(m)) && mid == p + |PrintMember(m)| && Has(t, mid, behind) && q == mid + |behind|
    ensures behind == (if more == [] then Joined(trail) + "}" else "," + PrintMembers(more, trail)) && Follows(t, mid)
  {
    assert m in members && forall e :: e in more ==> e in members;
    behind := if |members| == 1 then Joined(trail) + "}" else "," + PrintMembers(more, trail);
    mid := p + |PrintMember(m)|;
    HasSplit(t, p, PrintMember(m), behind);
    ListFollows(t, mid, trail, "}", behind);
  }

  /** One round of the loop in the object case that reads a member. */
  lemma MembersStep(t: string, p: nat, at: nat, mid: nat, q: nat, key: Option<Str>, x: Tree, rest: seq<Tree>,
        enc: Encoder, lex: Lexer)
    returns (ts: seq<Tree>)
    requires Terminated(t) && LexesWithin(lex) && p < at < mid < |t| && t[at] != '}' && ParseKey(t, p, enc) == Some((key, at))
    requires ParseValue(t, at, key, enc, lex) == Some(Parsed([x], mid))
    requires ParseMembers(t, mid, enc, lex) == Some(Parsed(rest, q))
    ensures ts == [x] + rest && ParseMembers(t, p, enc, lex) == Some(Parsed(ts, q))
  {
    ParsedMember(t, p, enc, lex);
    ts := [x] + rest;
  }

  lemma {:induction false} MoreMembers(t: string, p: nat, q: nat, more: seq<Member>, trail: seq<string>,
        behind: string, enc: Encoder, lex: Lexer)
    returns (rest: seq<Tree>)
    requires Terminated(t) && LexesWithin(lex) && Padding(trail) && (forall m :: m in more ==> OkMember(m, lex))
    requires behind == if more == [] then Joined(trail) + "}" else "," + PrintMembers(more, trail)
    requires Has(t, p, behind) && q == p + |behind| < |t|
    ensures p < |t| && ParseMembers(t, p, enc, lex) == Some(Parsed(rest, q)) && MembersMean(rest, more)
    decreases more, 2
  {
    if more == [] {
      MembersClose(t, p, q, trail, enc, lex);
      rest := [];
    } else {
      HasFirst(t, p, ',', PrintMembers(more, trail));
      MembersComma(t, p, enc, lex);
      rest := MembersTrees(t, p + 1, q, more, trail, enc, lex);
    }
  }

  lemma MembersMeanCons(x: Tree, rest: seq<Tree>, m: Member, more: seq<Member>, members: seq<Member>)
    requires members != [] && m == members[0] && more == members[1..]
    requires x.key.Some? && x.key.value.value == m.name && Means(x.body, m.doc.value) && MembersMean(rest, more)
    ensures MembersMean([x] + rest, members)
  {
  }

  lemma MembersComma(t: string, p: nat, enc: Encoder, lex: Lexer)
    requires Terminated(t) && LexesWithin(lex) && p < |t| && t[p] == ','
    ensures ParseMembers(t, p, enc, lex) == ParseMembers(t, p + 1, enc, lex)
  {
    ParsedKey(t, p, enc);
    ParsedMember(t, p, enc, lex);
    ParsedMember(t, p + 1, enc, lex);
  }

  /** The key of a member, and where its value starts. */
  lemma MemberKey(t: string, p: nat, m: Member, enc: Encoder, lex: Lexer) returns (key: Option<Str>, at: nat)
    requires Terminated(t) && OkMember(m, lex) && Has(t, p, PrintMember(m)) && p + |PrintMember(m)| < |t|
    ensures ParseKey(t, p, enc) == Some((key, at)) && key.Some? && key.value.value == m.name
    ensures p < at && at + |Print(m.doc)| == p + |PrintMember(m)| && Has(t, at, Print(m.doc))
  {
    var doc := Print(m.doc);
    HasSplit(t, p, Joined(m.before), "\"" + (Quoted(m.name) + (m.behind + (":" + doc))));
    KeyLead(t, p, p + |Joined(m.before)|, m.before, enc);
    key, at := KeyReads(t, p + |Joined(m.before)|, m.name, m.behind, doc, enc);
  }

  /** A quoted key, white space, a colon, and what follows. */
  lemma KeyReads(t: string, p: nat, name: string, behind: string, rest: string,
        enc: Encoder) returns (key: Option<Str>, at: nat)
    requires Terminated(t) && Plain(name) && Blank(behind) && Has(t, p, "\"" + (Quoted(name) + (behind + (":" + rest))))
    ensures p < |t| && ParseKey(t, p, enc) == Some((key, at)) && key == Some(Str(p + 1, name))
    ensures at == p + |Quoted(name)| + |behind| + 2 && Has(t, at, rest)
  {
    HasFirst(t, p, '"', Quoted(name) + (behind + (":" + rest)));
    HasSplit(t, p + 1, Quoted(name), behind + (":" + rest));
    QuotedReads(t, p + 1, name, enc);
    at := ColonReads(t, p + 1 + |Quoted(name)|, behind, rest);
    key := Some(Str(p + 1, name));
    KeyParsed(t, p, p + 1 + |Quoted(name)|, at - 1, name, enc);
  }

  lemma KeyParsed(t: string, p: nat, end: nat, colon: nat, name: string, enc: Encoder)
    requires Terminated(t) && p + 1 < |t| && t[p] == '"' && end < |t| && Unescape(t, p + 1, enc) == Some((name, end))
    requires SkipWhite(t, end) == colon && colon < |t| && t[colon] == ':'
    ensures ParseKey(t, p, enc) == Some((Some(Str(p + 1, name)), colon + 1))
  {
    ParsedKey(t, p, enc);
  }

  lemma ColonReads(t: string, p: nat, behind: string, rest: string) returns (at: nat)
    requires Terminated(t) && Blank(behind) && Has(t, p, behind + (":" + rest))
    ensures p < at == p + |behind| + 1 <= |t| && Has(t, at, rest) && SkipWhite(t, p) == at - 1 && t[at - 1] == ':'
  {
    HasSplit(t, p, behind, ":" + rest);
    at := p + |behind| + 1;
    HasFirst(t, at - 1, ':', rest);
    ColonLead(t, p, behind);
  }

  /** A value's first character, and where it starts behind its padding. */
  lemma DocFirst(t: string, p: nat, d: Doc, lex: Lexer) returns (at: nat)
    requires OkDoc(d, lex) && Has(t, p, Print(d))
    ensures |Print(d)| > 0 && t[p] != '}'
    ensures at == p + |Joined(d.lead)| && at + |PrintVal(d.value)| == p + |Print(d)|
    ensures Has(t, p, Joined(d.lead)) && Has(t, at, PrintVal(d.value))
  {
    at := p + |Joined(d.lead)|;
    HasSplit(t, p, Joined(d.lead), PrintVal(d.value));
    assert |PrintVal(d.value)| > 0;
    if d.lead != [] {
      PaddingFirst(d.lead);
      assert t[p] == Joined(d.lead)[0];
    } else {
      assert t[p] == PrintVal(d.value)[0];
    }
  }

  // ---------------------------------------------------------------- whole texts

  lemma {:induction false} PlainText(d: Doc, lex: Lexer)
    requires OkDoc(d, lex)
    ensures Plain(Print(d))
    decreases d, 2
  {
    PaddingPlain(d.lead);
    PlainVal(d.value, lex);
  }

  lemma {:induction false} PlainVal(v: Val, lex: Lexer)
    requires OkVal(v, lex)
    ensures Plain(PrintVal(v))
    decreases v, 1
  {
    match v
    case VText(s) => PlainQuoted(s);
    case VArray(items, trail) => PlainItems(items, trail, lex);
    case VObject(members, trail) => PlainMembers(members, trail, lex);
    case _ =>
  }

  lemma {:induction false} PlainQuoted(s: string)
    requires Plain(s)
    ensures Plain(Quoted(s))
    decreases |s|
  {
    if s != [] {
      assert s[0] in s;
      PlainQuoted(s[1..]);
    }
  }

  lemma {:induction false} PlainItems(items: seq<Doc>, trail: seq<string>, lex: Lexer)
    requires Padding(trail) && forall d :: d in items ==> OkDoc(d, lex)
    ensures Plain(PrintItems(items, trail))
    decreases items, 1
  {
    PaddingPlain(trail);
    if items != [] {
      assert items[0] in items;
      PlainText(items[0], lex);
      PlainItems(items[1..], trail, lex);
    }
  }

  lemma {:induction false} PlainMembers(members: seq<Member>, trail: seq<string>, lex: Lexer)
    requires Padding(trail) && forall m :: m in members ==> OkMember(m, lex)
    ensures Plain(PrintMembers(members, trail))
    decreases members, 1
  {
    PaddingPlain(trail);
    if members != [] {
      var m := members[0];
      assert m in members;
      PaddingPlain(m.before);
      PlainQuoted(m.name);
      PlainText(m.doc, lex);
      PlainMembers(members[1..], trail, lex);
    }
  }

  /** Parsing the text of a tree gives the tree back, with every encoder and number conversion. */
  lemma TextReadsBack(d: Doc, enc: Encoder, lex: Lexer) returns (x: Tree)
    requires OkDoc(d, lex) && LexesWithin(lex)
    ensures var t := Print(d) + "\0";
      Terminated(t) && ParseValue(t, 0, None, enc, lex) == Some(Parsed([x], |t| - 1)) && x.key == None && Means(x.body, d.value)
  {
    var t := Print(d) + "\0";
    PlainText(d, lex);
    forall i | 0 <= i < |t| - 1 ensures t[i] != '\0' { assert t[i] == Print(d)[i] && t[i] in Print(d); }
    x := DocTree(t, 0, |t| - 1, None, d, enc, lex);
  }
}
