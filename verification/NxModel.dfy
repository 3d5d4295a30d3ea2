/** nxjson's parser (nxjson.c) as a function of the original, immutable text. Strings remember where in the
    text they start, because that is where the in-place parser leaves their value. */
module NxModel {
  import opened NxText

  datatype Str = Str(at: nat, value: string)

  datatype Number = Integer(i: int) | Double(d: real)

  datatype Tree = Tree(key: Option<Str>, body: Body)

  datatype Body =
    | Null
    | Bool(b: bool)
    | Text(s: Str)
    | Num(n: Number)
    | Array(items: seq<Tree>)
    | Object(items: seq<Tree>)

  /** strtoll and strtod on the rest of the text: how many characters they take and what they yield, or failure. */
  type Lexer = string -> Option<(nat, Number)>

  /** The conversion takes at least one character and stops before the terminator. */
  ghost predicate LexesWithin(lex: Lexer) {
    forall s: string :: lex(s).Some? ==> 1 <= lex(s).value.0 < |s|
  }

  /** What a value left behind: the trees added to its parent (none at ']'), and where it ended. */
  datatype Parsed = Parsed(trees: seq<Tree>, end: nat)

  // ---------------------------------------------------------------- comments and keys

  /** strchr. */
  function FindChar(t: string, p: nat, c: char): (r: Option<nat>)
    requires Terminated(t) && p < |t| && c != '\0'
    ensures r.Some? ==> p <= r.value < |t| - 1 && t[r.value] == c
    decreases |t| - p
  {
    if t[p] == c then Some(p)
    else if t[p] == '\0' then None
    else FindChar(t, p + 1, c)
  }

  /** The repeated search of skip_block_comment. */
  function CommentEnd(t: string, p: nat): (r: Option<nat>)
    requires Terminated(t) && p < |t| - 1
    ensures r.Some? ==> p + 2 <= r.value < |t|
    decreases |t| - p
  {
    match FindChar(t, p + 1, '/')
    case None => None
    case Some(q) => if t[q - 1] != '*' then CommentEnd(t, q) else Some(q + 1)
  }

  /** skip_block_comment: p is behind the opening of the comment. */
  function SkipBlock(t: string, p: nat): (r: Option<nat>)
    requires Terminated(t) && p < |t|
    ensures r.Some? ==> p + 2 <= r.value < |t|
  {
    if t[p] == '\0' then None else CommentEnd(t, p)
  }

  /** A comment whose first '/' is at p: the position behind it. */
  function SkipComment(t: string, p: nat): (r: Option<nat>)
    requires Terminated(t) && p < |t| - 1
    ensures r.Some? ==> p < r.value < |t|
  {
    if t[p + 1] == '/' then (match FindChar(t, p + 2, '\n') case None => None case Some(q) => Some(q + 1))
    else if t[p + 1] == '*' then SkipBlock(t, p + 2)
    else None
  }

  /** IS_WHITESPACE, for a character that is not the terminator. */
  predicate White(c: char) { c as int <= 32 && c != '\0' }

  /** What parse_value passes over. */
  predicate Filler(c: char) { c == ' ' || c == '\t' || c == '\n' || c == '\r' || c == ',' }

  function SkipWhite(t: string, p: nat): (q: nat)
    requires Terminated(t) && p < |t|
    ensures p <= q < |t| && !White(t[q])
    decreases |t| - p
  {
    if White(t[p]) then SkipWhite(t, p + 1) else p
  }

  /** parse_key: a key and the position behind its colon, or no key at a closing brace. */
  function ParseKey(t: string, p: nat, enc: Encoder): (r: Option<(Option<Str>, nat)>)
    requires Terminated(t) && p < |t|
    ensures r.Some? ==> p <= r.value.1 < |t|
    ensures r.Some? && r.value.0.None? ==> t[r.value.1] == '}'
    ensures r.Some? && r.value.0.Some? ==> p < r.value.0.value.at < r.value.1
    decreases |t| - p
  {
    var c := t[p];
    if c == '\0' then None
    else if c == '"' then
      match Unescape(t, p + 1, enc)
      case None => None
      case Some((value, q)) =>
        var colon := SkipWhite(t, q);
        if t[colon] == ':' then Some((Some(Str(p + 1, value)), colon + 1)) else None
    else if White(c) || c == ',' then ParseKey(t, p + 1, enc)
    else if c == '}' then Some((None, p))
    else if c == '/' then
      match SkipComment(t, p)
      case None => None
      case Some(q) => ParseKey(t, q, enc)
    else None
  }

  // ---------------------------------------------------------------- values

  /** strncmp(p, s, |s|) == 0. */
  predicate StartsWith(t: string, p: nat, s: string) {
    p + |s| < |t| && t[p..p + |s|] == s
  }

  function Leaf(key: Option<Str>, body: Body, end: nat): Option<Parsed> {
    Some(Parsed([Tree(key, body)], end))
  }

  /** parse_value. */
  function ParseValue(t: string, p: nat, key: Option<Str>, enc: Encoder, lex: Lexer): (r: Option<Parsed>)
    requires Terminated(t) && p < |t| && LexesWithin(lex)
    ensures r.Some? ==> p <= r.value.end < |t| && |r.value.trees| <= 1
    ensures r.Some? && r.value.end == p ==> t[p] == ']'
    decreases |t| - p, 0
  {
    var c := t[p];
    if Filler(c) then ParseValue(t, p + 1, key, enc, lex)
    else if c == '{' then
      (match ParseMembers(t, p + 1, enc, lex) case None => None case Some(ms) => Leaf(key, Object(ms.trees), ms.end))
    else if c == '[' then
      (match ParseElems(t, p + 1, enc, lex) case None => None case Some(es) => Leaf(key, Array(es.trees), es.end))
    else if c == ']' then Some(Parsed([], p))
    else if c == '"' then
      (match Unescape(t, p + 1, enc) case None => None case Some((value, q)) => Leaf(key, Text(Str(p + 1, value)), q))
    else if c == '-' || '0' <= c <= '9' then
      (match lex(t[p..]) case None => None case Some((n, value)) => Leaf(key, Num(value), p + n))
    else if StartsWith(t, p, "true") then Leaf(key, Bool(true), p + 4)
    else if StartsWith(t, p, "false") then Leaf(key, Bool(false), p + 5)
    else if StartsWith(t, p, "null") then Leaf(key, Null, p + 4)
    else if c == '/' then
      (match SkipComment(t, p) case None => None case Some(q) => ParseValue(t, q, key, enc, lex))
    else None
  }

  /** The loop of parse_value inside an object: the members up to the closing brace. */
  function ParseMembers(t: string, p: nat, enc: Encoder, lex: Lexer): (r: Option<Parsed>)
    requires Terminated(t) && p < |t| && LexesWithin(lex)
    ensures r.Some? ==> p < r.value.end < |t|
    decreases |t| - p, 1
  {
    match ParseKey(t, p, enc)
    case None => None
    case Some((key, q)) =>
      // a brace right behind the colon ends the object, too
      if t[q] == '}' then Some(Parsed([], q + 1))
      else
        match ParseValue(t, q, key, enc, lex)
        case None => None
        case Some(v) =>
          match ParseMembers(t, v.end, enc, lex)
          case None => None
          case Some(rest) => Some(Parsed(v.trees + rest.trees, rest.end))
  }

  /** The loop of parse_value inside an array: the elements up to the closing bracket. */
  function ParseElems(t: string, p: nat, enc: Encoder, lex: Lexer): (r: Option<Parsed>)
    requires Terminated(t) && p < |t| && LexesWithin(lex)
    ensures r.Some? ==> p < r.value.end < |t|
    decreases |t| - p, 1
  {
    match ParseValue(t, p, None, enc, lex)
    case None => None
    case Some(v) =>
      if t[v.end] == ']' then Some(Parsed(v.trees, v.end + 1))
      else
        match ParseElems(t, v.end, enc, lex)
        case None => None
        case Some(rest) => Some(Parsed(v.trees + rest.trees, rest.end))
  }

  // ---------------------------------------------------------------- the parser's steps, one at a time

  /** A result with the trees found before it in front. */
  function Behind(found: seq<Tree>, r: Option<Parsed>): Option<Parsed> {
    match r
    case None => None
    case Some(v) => Some(Parsed(found + v.trees, v.end))
  }

  lemma BehindTwice(a: seq<Tree>, b: seq<Tree>, r: Option<Parsed>)
    ensures Behind(a, Behind(b, r)) == Behind(a + b, r)
  {
    if r.Some? { assert a + (b + r.value.trees) == a + b + r.value.trees; }
  }

  lemma BehindNothing(r: Option<Parsed>)
    ensures Behind([], r) == r
  {
    if r.Some? { assert [] + r.value.trees == r.value.trees; }
  }

  lemma ParsedObject(t: string, p: nat, key: Option<Str>, enc: Encoder, lex: Lexer)
    requires Terminated(t) && p < |t| && t[p] == '{' && LexesWithin(lex)
    ensures var ms := ParseMembers(t, p + 1, enc, lex);
      ParseValue(t, p, key, enc, lex) == if ms.None? then None else Some(Parsed([Tree(key, Object(ms.value.trees))], ms.value.end))
  {
  }

  lemma ParsedArray(t: string, p: nat, key: Option<Str>, enc: Encoder, lex: Lexer)
    requires Terminated(t) && p < |t| && t[p] == '[' && LexesWithin(lex)
    ensures var es := ParseElems(t, p + 1, enc, lex);
      ParseValue(t, p, key, enc, lex) == if es.None? then None else Some(Parsed([Tree(key, Array(es.value.trees))], es.value.end))
  {
  }

  lemma ParsedText(t: string, p: nat, key: Option<Str>, enc: Encoder, lex: Lexer)
    requires Terminated(t) && p < |t| && t[p] == '"' && LexesWithin(lex)
    ensures var u := Unescape(t, p + 1, enc);
      ParseValue(t, p, key, enc, lex) ==
      if u.None? then None else Some(Parsed([Tree(key, Text(Str(p + 1, u.value.0)))], u.value.1))
  {
  }

  /** Numbers and the three words. */
  function ScalarAt(t: string, p: nat, lex: Lexer): (r: Option<(Body, nat)>)
    requires p < |t|
    ensures r.Some? ==> r.value.0.Num? || r.value.0.Bool? || r.value.0.Null?
  {
    if t[p] == '-' || '0' <= t[p] <= '9' then
      (match lex(t[p..]) case None => None case Some((n, value)) => Some((Num(value), p + n)))
    else if StartsWith(t, p, "true") then Some((Bool(true), p + 4))
    else if StartsWith(t, p, "false") then Some((Bool(false), p + 5))
    else if StartsWith(t, p, "null") then Some((Null, p + 4))
    else None
  }

  lemma ParsedSkip(t: string, p: nat, key: Option<Str>, enc: Encoder, lex: Lexer)
    requires Terminated(t) && p < |t| && LexesWithin(lex)
    ensures t[p] == '\0' ==> ParseValue(t, p, key, enc, lex) == None
    ensures Filler(t[p]) ==> ParseValue(t, p, key, enc, lex) == ParseValue(t, p + 1, key, enc, lex)
    ensures t[p] == ']' ==> ParseValue(t, p, key, enc, lex) == Some(Parsed([], p))
    ensures t[p] == '/' ==> var q := SkipComment(t, p);
      ParseValue(t, p, key, enc, lex) == if q.None? then None else ParseValue(t, q.value, key, enc, lex)
  {
    WordStarts(t, p);
  }

  lemma ParsedBlank(t: string, p: nat, key: Option<Str>, enc: Encoder, lex: Lexer)
    requires Terminated(t) && p < |t| && LexesWithin(lex) && Filler(t[p])
    ensures ParseValue(t, p, key, enc, lex) == ParseValue(t, p + 1, key, enc, lex)
  {
    ParsedSkip(t, p, key, enc, lex);
  }

  lemma ParsedComment(t: string, p: nat, q: int, key: Option<Str>, enc: Encoder, lex: Lexer)
    requires Terminated(t) && p < |t| && LexesWithin(lex) && t[p] == '/'
    requires SkipComment(t, p) == if q < 0 then None else Some(q)
    ensures q < 0 ==> ParseValue(t, p, key, enc, lex) == None
    ensures q >= 0 ==> q < |t| && ParseValue(t, p, key, enc, lex) == ParseValue(t, q, key, enc, lex)
  {
    ParsedSkip(t, p, key, enc, lex);
  }

  lemma ParsedMember(t: string, p: nat, enc: Encoder, lex: Lexer)
    requires Terminated(t) && p < |t| && LexesWithin(lex)
    ensures var ms := ParseMembers(t, p, enc, lex);
      var key := ParseKey(t, p, enc);
      if key.None? then ms == None
      else if t[key.value.1] == '}' then ms == Some(Parsed([], key.value.1 + 1))
      else
        var v := ParseValue(t, key.value.1, key.value.0, enc, lex);
        ms == if v.None? then None else Behind(v.value.trees, ParseMembers(t, v.value.end, enc, lex))
  {
  }

  lemma ParsedElem(t: string, p: nat, enc: Encoder, lex: Lexer)
    requires Terminated(t) && p < |t| && LexesWithin(lex)
    ensures var es := ParseElems(t, p, enc, lex);
      var v := ParseValue(t, p, None, enc, lex);
      if v.None? then es == None
      else if t[v.value.end] == ']' then es == Some(Parsed(v.value.trees, v.value.end + 1))
      else es == Behind(v.value.trees, ParseElems(t, v.value.end, enc, lex))
  {
  }

  lemma ParsedKey(t: string, p: nat, enc: Encoder)
    requires Terminated(t) && p < |t|
    ensures var c := t[p];
      if c == '"' then
        var u := Unescape(t, p + 1, enc);
        ParseKey(t, p, enc) == if u.None? then None
          else var colon := SkipWhite(t, u.value.1);
            if t[colon] == ':' then Some((Some(Str(p + 1, u.value.0)), colon + 1)) else None
      else if White(c) || c == ',' then ParseKey(t, p, enc) == ParseKey(t, p + 1, enc)
      else if c == '}' then ParseKey(t, p, enc) == Some((None, p))
      else if c == '/' then
        var q := SkipComment(t, p);
        ParseKey(t, p, enc) == if q.None? then None else ParseKey(t, q.value, enc)
      else ParseKey(t, p, enc) == None
  {
  }

  lemma WordStarts(t: string, p: nat)
    requires p < |t|
    ensures StartsWith(t, p, "true") ==> t[p] == 't'
    ensures StartsWith(t, p, "false") ==> t[p] == 'f'
    ensures StartsWith(t, p, "null") ==> t[p] == 'n'
  {
  }

  lemma ParsedScalar(t: string, p: nat, key: Option<Str>, enc: Encoder, lex: Lexer)
    requires Terminated(t) && p < |t| && !Filler(t[p]) && t[p] !in {'/', '{', '[', ']', '"'} && LexesWithin(lex)
    ensures var v := ScalarAt(t, p, lex);
      ParseValue(t, p, key, enc, lex) == if v.None? then None else Some(Parsed([Tree(key, v.value.0)], v.value.1))
  {
  }
}
