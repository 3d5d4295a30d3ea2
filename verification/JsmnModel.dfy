/** The jsmn tokenizer as functions of the text and of the parser state (jsmn.c). One round of the main
    loop is Step; both builds are covered: `links` is JSMN_PARENT_LINKS. JSMN_STRICT is off. */
module JsmnModel {

  datatype TokenType = Primitive | Object | Array | String

  /** jsmntok_t. In the build without parent links nothing reads `parent`; there it only records
      what toksuper was when the token was allocated. */
  datatype Token = Token(typ: TokenType, start: int, end: int, size: nat, parent: int) {
    /** The token is an open bracket: started and not ended. */
    predicate Open() { start != -1 && end == -1 }

    predicate Container() { typ.Object? || typ.Array? }
  }

  /** jsmn_parser with the tokens allocated so far (toknext == |toks|) and the local `count`. */
  datatype State = State(pos: nat, toksuper: int, toks: seq<Token>, count: nat)

  const INIT := State(0, -1, [], 0)

  /** The return value. Undefined stands for the read of tokens[-1]. */
  datatype Ret = Count(n: nat) | NoMem | Inval | Part | Undefined

  datatype Outcome = Go(st: State) | Halt(ret: Ret)

  // ---------------------------------------------------------------- lexical level

  predicate Space(c: char) { c == '\t' || c == '\r' || c == '\n' || c == ' ' }

  /** Where a primitive stops. */
  predicate Delimiter(c: char) { Space(c) || c == ':' || c == ',' || c == ']' || c == '}' }

  predicate Printable(c: char) { 32 <= c as int < 127 }

  predicate Hex(c: char) { '0' <= c <= '9' || 'A' <= c <= 'F' || 'a' <= c <= 'f' }

  predicate SimpleEscape(c: char) {
    c == '"' || c == '/' || c == '\\' || c == 'b' || c == 'f' || c == 'r' || c == 'n' || c == 't'
  }

  /** The loop guard: pos < len && js[pos] != 0. */
  predicate More(js: string, p: nat) { p < |js| && js[p] != '\0' }

  datatype Scan = Found(at: nat) | Bad | Short

  /** The loop of jsmn_parse_primitive: the first position at or after p that is not part of the primitive. */
  function ScanPrimitive(js: string, p: nat): (r: Scan)
    ensures r.Found? ==> r.at >= p
    ensures !r.Short?
    decreases |js| - p
  {
    if !More(js, p) || Delimiter(js[p]) then Found(p)
    else if !Printable(js[p]) then Bad
    else ScanPrimitive(js, p + 1)
  }

  /** Up to n hex digits: the position behind them, or Bad at another character. */
  function ScanHex(js: string, p: nat, n: nat): (r: Scan)
    ensures r.Found? ==> r.at >= p
    ensures !r.Short?
    decreases n
  {
    if n == 0 || !More(js, p) then Found(p)
    else if !Hex(js[p]) then Bad
    else ScanHex(js, p + 1, n - 1)
  }

  /** The loop of jsmn_parse_string from behind the opening quote: the position of the closing quote. */
  function ScanString(js: string, p: nat): (r: Scan)
    ensures r.Found? ==> p <= r.at < |js|
    decreases |js| - p
  {
    if !More(js, p) then Short
    else if js[p] == '"' then Found(p)
    else if js[p] == '\\' && p + 1 < |js| then
      if SimpleEscape(js[p + 1]) then ScanString(js, p + 2)
      else if js[p + 1] == 'u' then
        match ScanHex(js, p + 2, 4)
        case Found(q) => ScanString(js, q)
        case _ => Bad
      else Bad
    else ScanString(js, p + 1)
  }

  // ---------------------------------------------------------------- the token array

  /** tokens[super].size++, unless super is -1. */
  function Bump(toks: seq<Token>, super: int): (r: seq<Token>)
    requires -1 <= super < |toks|
    ensures |r| == |toks|
  {
    if super == -1 then toks else toks[super := toks[super].(size := toks[super].size + 1)]
  }

  /** The backward scan for the last open token; -1 if there is none. */
  function LastOpen(toks: seq<Token>): (i: int)
    ensures -1 <= i < |toks|
    ensures i >= 0 ==> toks[i].Open()
    ensures forall k :: i < k < |toks| ==> !toks[k].Open()
  {
    if toks == [] then -1
    else if toks[|toks| - 1].Open() then |toks| - 1
    else LastOpen(toks[..|toks| - 1])
  }

  /** Every parent was allocated before its child. */
  predicate ParentsBelow(toks: seq<Token>) {
    forall i :: 0 <= i < |toks| ==> -1 <= toks[i].parent < i
  }

  /** The walk along parent links from i to an open token; -1 if the links end first. */
  function Climb(toks: seq<Token>, i: nat): (r: int)
    requires i < |toks| && ParentsBelow(toks)
    ensures -1 <= r <= i
    ensures r >= 0 ==> toks[r].Open()
  {
    if toks[i].Open() then i
    else if toks[i].parent == -1 then -1
    else Climb(toks, toks[i].parent)
  }

  /** The parser's own state: toksuper names a token or is -1. */
  predicate Ok(st: State) {
    -1 <= st.toksuper < |st.toks| && ParentsBelow(st.toks)
  }

  // ---------------------------------------------------------------- one round of jsmn_parse

  function TypeOf(c: char): TokenType { if c == '{' || c == '}' then Object else Array }

  function OpenBracket(js: string, st: State, num: nat): Outcome
    requires Ok(st) && st.pos < |js|
  {
    if |st.toks| >= num then Halt(NoMem)
    else
      var tok := Token(TypeOf(js[st.pos]), st.pos, -1, 0, st.toksuper);
      Go(State(st.pos + 1, |st.toks|, Bump(st.toks, st.toksuper) + [tok], st.count + 1))
  }

  /** The closing bracket, once the token at i has been found. */
  function CloseAt(js: string, st: State, i: nat, super: int): Outcome
    requires st.pos < |js| && i < |st.toks|
  {
    if st.toks[i].typ != TypeOf(js[st.pos]) then Halt(Inval)
    else Go(st.(pos := st.pos + 1, toksuper := super, toks := st.toks[i := st.toks[i].(end := st.pos + 1)]))
  }

  function CloseBracket(js: string, st: State, links: bool): Outcome
    requires Ok(st) && st.pos < |js|
  {
    if links then
      if |st.toks| < 1 then Halt(Inval)
      else
        var i := Climb(st.toks, |st.toks| - 1);
        // without an open token on the way up, the bracket is passed over
        if i == -1 then Go(st.(pos := st.pos + 1)) else CloseAt(js, st, i, st.toks[i].parent)
    else
      var i := LastOpen(st.toks);
      if i == -1 then Halt(Inval) else CloseAt(js, st, i, LastOpen(st.toks[..i]))
  }

  /** A string or primitive token, counted in its superior token. */
  function Atom(st: State, num: nat, typ: TokenType, start: nat, end: nat, pos: nat): Outcome
    requires Ok(st)
  {
    if |st.toks| >= num then Halt(NoMem)
    else Go(State(pos, st.toksuper, Bump(st.toks, st.toksuper) + [Token(typ, start, end, 0, st.toksuper)], st.count + 1))
  }

  function Comma(st: State, links: bool): Outcome
    requires Ok(st)
  {
    if st.toksuper == -1 then Halt(Undefined)
    else if st.toks[st.toksuper].Container() then Go(st.(pos := st.pos + 1))
    else if links then Go(st.(pos := st.pos + 1, toksuper := st.toks[st.toksuper].parent))
    else
      var i := LastOpenContainer(st.toks);
      Go(st.(pos := st.pos + 1, toksuper := if i == -1 then st.toksuper else i))
  }

  /** The backward scan of the comma case. */
  function LastOpenContainer(toks: seq<Token>): (i: int)
    ensures -1 <= i < |toks|
    ensures i >= 0 ==> toks[i].Open() && toks[i].Container()
  {
    if toks == [] then -1
    else if toks[|toks| - 1].Container() && toks[|toks| - 1].Open() then |toks| - 1
    else LastOpenContainer(toks[..|toks| - 1])
  }

  function Step(js: string, st: State, num: nat, links: bool): (o: Outcome)
    requires Ok(st) && More(js, st.pos)
    ensures o.Go? ==> Ok(o.st) && st.pos < o.st.pos && |st.toks| <= |o.st.toks|
  {
    var c := js[st.pos];
    if c == '{' || c == '[' then OpenBracket(js, st, num)
    else if c == '}' || c == ']' then CloseBracket(js, st, links)
    else if c == '"' then
      match ScanString(js, st.pos + 1)
      case Found(q) => Atom(st, num, String, st.pos + 1, q, q + 1)
      case Bad => Halt(Inval)
      case Short => Halt(Part)
    else if Space(c) then Go(st.(pos := st.pos + 1))
    else if c == ':' then Go(st.(pos := st.pos + 1, toksuper := |st.toks| - 1))
    else if c == ',' then Comma(st, links)
    else
      match ScanPrimitive(js, st.pos)
      case Found(q) => Atom(st, num, Primitive, st.pos, q, q)
      case _ => Halt(Inval)
  }

  /** jsmn_parse from a given state on: the return value and the state it leaves. */
  function Run(js: string, st: State, num: nat, links: bool): (r: (Ret, State))
    requires Ok(st)
    ensures Ok(r.1) && |st.toks| <= |r.1.toks|
    decreases |js| - st.pos
  {
    if !More(js, st.pos) then (if LastOpen(st.toks) == -1 then Count(st.count) else Part, st)
    else
      match Step(js, st, num, links)
      case Go(next) => Run(js, next, num, links)
      case Halt(ret) => (ret, st)
  }
}
