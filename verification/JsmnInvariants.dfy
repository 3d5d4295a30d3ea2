/** What holds at every loop head of jsmn_parse on any text: the open tokens are the stack of unmatched
    brackets, the spans are nested, the sizes count the children. */
module JsmnInvariants {
  import opened JsmnModel
  import opened JsmnModes

  // ---------------------------------------------------------------- brackets of the text alone

  datatype Bracket = Bracket(typ: TokenType, at: nat)

  /** The position behind the string, primitive or single character at p; Bad or Short on a lexical error. */
  function Next(js: string, p: nat): (r: Scan)
    requires More(js, p)
    ensures r.Found? ==> r.at > p
  {
    var c := js[p];
    if c == '"' then (match ScanString(js, p + 1) case Found(q) => Found(q + 1) case e => e)
    else if Opening(c) || Closing(c) || Space(c) || c == ':' || c == ',' then Found(p + 1)
    else ScanPrimitive(js, p)
  }

  predicate Opening(c: char) { c == '{' || c == '[' }

  predicate Closing(c: char) { c == '}' || c == ']' }

  /** The character starts a token. */
  predicate Allocates(c: char) { !Closing(c) && !Space(c) && c != ':' && c != ',' }

  /** The stack after the character at p, which is outside strings and primitives. */
  function Shifted(js: string, p: nat, stack: seq<Bracket>): seq<Bracket>
    requires p < |js|
  {
    if Opening(js[p]) then stack + [Bracket(TypeOf(js[p]), p)]
    else if Closing(js[p]) && stack != [] then stack[..|stack| - 1]
    else stack
  }

  /** The brackets unmatched before `upto`, reading on from p with a given stack. */
  function Unmatched(js: string, p: nat, upto: nat, stack: seq<Bracket>): seq<Bracket>
    decreases |js| - p
  {
    if p >= upto || !More(js, p) || !Next(js, p).Found? then stack
    else Unmatched(js, Next(js, p).at, upto, Shifted(js, p, stack))
  }

  predicate Matches(c: char, stack: seq<Bracket>) { stack != [] && stack[|stack| - 1].typ == TypeOf(c) }

  /** Read on from p, the text is lexically right, its brackets match by type, and none is left open. */
  predicate Good(js: string, p: nat, stack: seq<Bracket>)
    decreases |js| - p
  {
    if !More(js, p) then stack == []
    else (Closing(js[p]) ==> Matches(js[p], stack)) && Next(js, p).Found? &&
         Good(js, Next(js, p).at, Shifted(js, p, stack))
  }

  /** Every comma stands inside an open bracket. */
  predicate CommasInside(js: string, p: nat, stack: seq<Bracket>)
    decreases |js| - p
  {
    !More(js, p) || !Next(js, p).Found? ||
    ((js[p] == ',' ==> stack != []) && CommasInside(js, Next(js, p).at, Shifted(js, p, stack)))
  }

  // ---------------------------------------------------------------- the token array as a stack

  /** The open tokens in index order. */
  function Stack(toks: seq<Token>): seq<Bracket> {
    if toks == [] then []
    else
      var last := toks[|toks| - 1];
      Stack(toks[..|toks| - 1]) + if last.Open() && last.start >= 0 then [Bracket(last.typ, last.start)] else []
  }

  lemma StackAppend(toks: seq<Token>, t: Token)
    ensures Stack(toks + [t]) == Stack(toks) + if t.Open() && t.start >= 0 then [Bracket(t.typ, t.start)] else []
  {
    assert (toks + [t])[..|toks|] == toks;
  }

  lemma {:induction false} StackSame(a: seq<Token>, b: seq<Token>)
    requires |a| == |b|
    requires forall i :: 0 <= i < |a| ==> a[i].typ == b[i].typ && a[i].start == b[i].start && a[i].end == b[i].end
    ensures Stack(a) == Stack(b)
  {
    if a != [] { StackSame(a[..|a| - 1], b[..|b| - 1]); }
  }

  predicate StartsKnown(toks: seq<Token>) { forall i :: 0 <= i < |toks| ==> toks[i].start >= 0 }

  /** The last open token is the top of the stack, and below it lie the open tokens before it. */
  lemma {:induction false} StackTop(toks: seq<Token>)
    requires StartsKnown(toks)
    ensures var i := LastOpen(toks);
      if i == -1 then Stack(toks) == []
      else Stack(toks) == Stack(toks[..i]) + [Bracket(toks[i].typ, toks[i].start)]
  {
    if toks != [] {
      var n := |toks| - 1;
      if !toks[n].Open() {
        StackTop(toks[..n]);
        var i := LastOpen(toks);
        if i != -1 { assert toks[..n][..i] == toks[..i]; }
      }
    }
  }

  /** Closing the last open token pops the stack. */
  lemma {:induction false} StackClose(toks: seq<Token>, i: nat, closed: Token)
    requires i < |toks| && !closed.Open() && forall k :: i < k < |toks| ==> !toks[k].Open()
    ensures Stack(toks[i := closed]) == Stack(toks[..i])
  {
    var n := |toks| - 1;
    if i == n {
      assert toks[i := closed][..n] == toks[..n];
    } else {
      StackClose(toks[..n], i, closed);
      assert toks[i := closed][..n] == toks[..n][i := closed];
      assert toks[..n][..i] == toks[..i];
    }
  }

  lemma StackBump(toks: seq<Token>, super: int)
    requires -1 <= super < |toks|
    ensures Stack(Bump(toks, super)) == Stack(toks) && LastOpen(Bump(toks, super)) == LastOpen(toks)
  {
    StackSame(toks, Bump(toks, super));
    LastOpenOf(Bump(toks, super), LastOpen(toks));
  }

  /** What pins LastOpen down. */
  lemma {:induction false} LastOpenOf(toks: seq<Token>, i: int)
    requires -1 <= i < |toks| && (i >= 0 ==> toks[i].Open()) && forall k :: i < k < |toks| ==> !toks[k].Open()
    ensures LastOpen(toks) == i
  {
    var k := LastOpen(toks);
    assert k >= 0 ==> toks[k].Open();
  }

  /** The state at a loop head of the build without parent links. */
  ghost predicate Head(st: State) {
    && Ok(st) && StartsKnown(st.toks) && |st.toks| == st.count
    && (LastOpen(st.toks) != -1 ==> st.toksuper != -1)
  }

  /** A round that goes on does to the stack what its character does. */
  lemma RoundShiftsStack(js: string, st: State, num: nat)
    requires Head(st) && More(js, st.pos) && Step(js, st, num, false).Go?
    ensures var next := Step(js, st, num, false).st;
      && Head(next) && Next(js, st.pos) == Found(next.pos)
      && Stack(next.toks) == Shifted(js, st.pos, Stack(st.toks))
      && (Closing(js[st.pos]) ==> Matches(js[st.pos], Stack(st.toks)))
  {
    var c := js[st.pos];
    if Opening(c) {
      OpeningPushes(js, st, num);
    } else if Closing(c) {
      ClosingPops(js, st, num);
    } else if c == '"' || (!Space(c) && c != ':' && c != ',') {
      AtomKeepsStack(js, st, num);
    }
  }

  lemma OpeningPushes(js: string, st: State, num: nat)
    requires Head(st) && More(js, st.pos) && Step(js, st, num, false).Go? && Opening(js[st.pos])
    ensures var next := Step(js, st, num, false).st;
      Head(next) && Next(js, st.pos) == Found(next.pos) && Stack(next.toks) == Shifted(js, st.pos, Stack(st.toks))
  {
    StackBump(st.toks, st.toksuper);
    StackAppend(Bump(st.toks, st.toksuper), Token(TypeOf(js[st.pos]), st.pos, -1, 0, st.toksuper));
  }

  lemma ClosingPops(js: string, st: State, num: nat)
    requires Head(st) && More(js, st.pos) && Step(js, st, num, false).Go? && Closing(js[st.pos])
    ensures var next := Step(js, st, num, false).st;
      && Head(next) && Next(js, st.pos) == Found(next.pos)
      && Stack(next.toks) == Shifted(js, st.pos, Stack(st.toks)) && Matches(js[st.pos], Stack(st.toks))
  {
    var i := LastOpen(st.toks);
    StackTop(st.toks);
    StackClose(st.toks, i, st.toks[i].(end := st.pos + 1));
    LastOpenOf(st.toks[i := st.toks[i].(end := st.pos + 1)], LastOpen(st.toks[..i]));
  }

  lemma AtomKeepsStack(js: string, st: State, num: nat)
    requires Head(st) && More(js, st.pos) && Step(js, st, num, false).Go?
    requires var c := js[st.pos]; c == '"' || (!Space(c) && c != ':' && c != ',' && !Opening(c) && !Closing(c))
    ensures var next := Step(js, st, num, false).st;
      Head(next) && Stack(next.toks) == Stack(st.toks) && Next(js, st.pos) == Found(next.pos)
  {
    var next := Step(js, st, num, false).st;
    var t := next.toks[|st.toks|];
    StackBump(st.toks, st.toksuper);
    StackAppend(Bump(st.toks, st.toksuper), t);
    LastOpenOf(next.toks, LastOpen(st.toks));
  }

  // ---------------------------------------------------------------- loop heads and success

  /** The state at the n-th loop head, counting from st. */
  function LoopHead(js: string, st: State, num: nat, links: bool, n: nat): (o: Outcome)
    requires Ok(st)
    decreases n
  {
    if n == 0 then Go(st)
    else if !More(js, st.pos) then Halt(Part)
    else
      match Step(js, st, num, links)
      case Go(next) => LoopHead(js, next, num, links, n - 1)
      case Halt(ret) => Halt(ret)
  }

  lemma {:induction false} HeadsFollowText(js: string, st: State, num: nat, n: nat, upto: nat)
    requires Head(st) && LoopHead(js, st, num, false, n).Go?
    ensures var head := LoopHead(js, st, num, false, n).st;
      && Head(head) && st.pos <= head.pos
      && (head.pos <= upto ==> Unmatched(js, st.pos, upto, Stack(st.toks)) == Unmatched(js, head.pos, upto, Stack(head.toks)))
    decreases n
  {
    if n > 0 {
      RoundShiftsStack(js, st, num);
      HeadsFollowText(js, Step(js, st, num, false).st, num, n - 1, upto);
    }
  }

  /** At every loop head the open tokens, in index order, are exactly the brackets of the text before the cursor
      that are unmatched outside strings and primitives. */
  lemma OpenTokensAreUnmatchedBrackets(js: string, num: nat, n: nat)
    requires LoopHead(js, INIT, num, false, n).Go?
    ensures var head := LoopHead(js, INIT, num, false, n).st;
      Stack(head.toks) == Unmatched(js, 0, head.pos, [])
  {
    var head := LoopHead(js, INIT, num, false, n).st;
    HeadsFollowText(js, INIT, num, n, head.pos);
  }

  // ---------------------------------------------------------------- commas

  /** Whether toksuper is -1 behind the character c: an opening bracket takes it, a closing one leaves it to the bracket
      around, a colon gives it to the last token. */
  predicate AdriftAfter(c: char, stack: seq<Bracket>, count: nat, adrift: bool) {
    if Opening(c) then false
    else if Closing(c) then |stack| <= 1
    else if c == ':' then count == 0
    else adrift
  }

  /** Read on from p with room for num tokens, `count` of them taken, the build without parent links finds a superior
      token at every comma that it comes to: it stops at a lexical error, at a closing bracket that does not match,
      and for lack of room. */
  predicate CommasFound(js: string, p: nat, num: nat, stack: seq<Bracket>, count: nat, adrift: bool)
    decreases |js| - p
  {
    || !More(js, p) || !Next(js, p).Found?
    || (Closing(js[p]) && !Matches(js[p], stack)) || (Allocates(js[p]) && count >= num)
    || ((js[p] == ',' ==> !adrift) &&
        CommasFound(js, Next(js, p).at, num, Shifted(js, p, stack), count + (if Allocates(js[p]) then 1 else 0),
                    AdriftAfter(js[p], stack, count, adrift)))
  }

  /** A round that goes on does to toksuper what its character does. */
  lemma RoundDrifts(js: string, st: State, num: nat)
    requires Head(st) && More(js, st.pos) && Step(js, st, num, false).Go?
    ensures var c, next := js[st.pos], Step(js, st, num, false).st;
      && (next.toksuper == -1 <==> AdriftAfter(c, Stack(st.toks), st.count, st.toksuper == -1))
      && next.count == st.count + (if Allocates(c) then 1 else 0)
      && (Allocates(c) ==> st.count < num) && (c == ',' ==> st.toksuper != -1)
  {
    if Closing(js[st.pos]) {
      StackTop(st.toks);
      StackTop(st.toks[..LastOpen(st.toks)]);
    }
  }

  /** A round that stops reads tokens[-1], or stops for one of the other reasons. */
  lemma StopsAtComma(js: string, st: State, num: nat)
    requires Head(st) && More(js, st.pos) && Step(js, st, num, false).Halt?
    ensures var c := js[st.pos];
      if Step(js, st, num, false).ret == Undefined then c == ',' && st.toksuper == -1
      else !Next(js, st.pos).Found? || (Closing(c) && !Matches(c, Stack(st.toks))) || (Allocates(c) && st.count >= num)
  {
    if Closing(js[st.pos]) { StackTop(st.toks); }
  }

  lemma {:induction false} UndefinedFrom(js: string, st: State, num: nat)
    requires Head(st)
    ensures Run(js, st, num, false).0 == Undefined <==>
            !CommasFound(js, st.pos, num, Stack(st.toks), st.count, st.toksuper == -1)
    decreases |js| - st.pos
  {
    if More(js, st.pos) {
      RunRound(js, st, num, false);
      if Step(js, st, num, false).Go? {
        RoundDrifts(js, st, num);
        RoundShiftsStack(js, st, num);
        UndefinedFrom(js, Step(js, st, num, false).st, num);
      } else {
        StopsAtComma(js, st, num);
      }
    }
  }

  /** The call reads tokens[-1] if and only if it comes to a comma while there is no superior token, which the text and
      the number of tokens decide. */
  lemma UndefinedExactly(js: string, num: nat)
    ensures Run(js, INIT, num, false).0 == Undefined <==> !CommasFound(js, 0, num, [], 0, true)
  {
    UndefinedFrom(js, INIT, num);
  }

  /** In particular it never does if every comma stands inside a bracket. */
  lemma {:induction false} CommasInsideAreDefined(js: string, st: State, num: nat)
    requires Head(st) && CommasInside(js, st.pos, Stack(st.toks))
    ensures Run(js, st, num, false).0 != Undefined
    decreases |js| - st.pos
  {
    StackTop(st.toks);
    if More(js, st.pos) && Step(js, st, num, false).Go? {
      RoundShiftsStack(js, st, num);
      CommasInsideAreDefined(js, Step(js, st, num, false).st, num);
    }
  }

  // ---------------------------------------------------------------- success

  lemma {:induction false} SucceedsFrom(js: string, st: State, num: nat)
    requires Head(st) && Run(js, st, num, false).0 != Undefined
    ensures Run(js, st, num, false).0.Count? <==>
            Good(js, st.pos, Stack(st.toks)) && CountRun(js, st.pos, st.count).Count?
            && (CountRun(js, st.pos, st.count).n <= num || CountRun(js, st.pos, st.count).n == st.count)
    decreases |js| - st.pos
  {
    StackTop(st.toks);
    if More(js, st.pos) {
      RunRound(js, st, num, false);
      if Step(js, st, num, false).Go? {
        RoundCounts(js, st, num, false);
        RoundShiftsStack(js, st, num);
        SucceedsFrom(js, Step(js, st, num, false).st, num);
      } else {
        StopIsJustified(js, st, num);
      }
    }
  }

  /** A round stops only for a lexical error, for a closing bracket that does not match, for lack of tokens, or at a
      comma without a superior token. */
  lemma StopIsJustified(js: string, st: State, num: nat)
    requires Head(st) && More(js, st.pos) && Step(js, st, num, false).Halt? && Step(js, st, num, false).ret != Undefined
    ensures Good(js, st.pos, Stack(st.toks)) ==>
              num <= st.count && CountStep(js, st.pos, st.count).CountGo? && CountStep(js, st.pos, st.count).count == st.count + 1
  {
    StackTop(st.toks);
  }

  /** The call succeeds if and only if no comma comes without a superior token, the text is lexically right, its
      brackets balance by type, and there is a token for everything the counting call counts. */
  lemma SucceedsExactly(js: string, num: nat)
    ensures Run(js, INIT, num, false).0.Count? <==>
            CommasFound(js, 0, num, [], 0, true) && Good(js, 0, [])
            && CountRun(js, 0, 0).Count? && CountRun(js, 0, 0).n <= num
  {
    UndefinedExactly(js, num);
    if Run(js, INIT, num, false).0 != Undefined { SucceedsFrom(js, INIT, num); }
  }

  // ---------------------------------------------------------------- sizes

  function SizeSum(toks: seq<Token>): nat {
    if toks == [] then 0 else SizeSum(toks[..|toks| - 1]) + toks[|toks| - 1].size
  }

  /** The tokens that had a superior token when they were allocated. */
  function Adopted(toks: seq<Token>): nat {
    if toks == [] then 0 else Adopted(toks[..|toks| - 1]) + if toks[|toks| - 1].parent != -1 then 1 else 0
  }

  lemma {:induction false} SumsSame(a: seq<Token>, b: seq<Token>)
    requires |a| == |b| && forall i :: 0 <= i < |a| ==> a[i].size == b[i].size && a[i].parent == b[i].parent
    ensures SizeSum(a) == SizeSum(b) && Adopted(a) == Adopted(b)
  {
    if a != [] { SumsSame(a[..|a| - 1], b[..|b| - 1]); }
  }

  lemma {:induction false} SumsBump(toks: seq<Token>, super: int)
    requires -1 <= super < |toks|
    ensures SizeSum(Bump(toks, super)) == SizeSum(toks) + (if super == -1 then 0 else 1)
    ensures Adopted(Bump(toks, super)) == Adopted(toks)
  {
    if super != -1 {
      var n := |toks| - 1;
      if super == n {
        assert Bump(toks, super)[..n] == toks[..n];
      } else {
        SumsBump(toks[..n], super);
        assert Bump(toks, super)[..n] == Bump(toks[..n], super);
      }
    }
  }

  lemma SumsAppend(toks: seq<Token>, t: Token)
    ensures SizeSum(toks + [t]) == SizeSum(toks) + t.size
    ensures Adopted(toks + [t]) == Adopted(toks) + if t.parent != -1 then 1 else 0
  {
    assert (toks + [t])[..|toks|] == toks;
  }

  /** A round that allocates appends a token under toksuper. */
  lemma TokenStep(js: string, st: State, num: nat, links: bool) returns (t: Token)
    requires Ok(st) && More(js, st.pos) && Step(js, st, num, links).Go? && Allocates(js[st.pos])
    ensures Step(js, st, num, links).st.toks == Bump(st.toks, st.toksuper) + [t] && t.size == 0 && t.parent == st.toksuper
  {
    t := Step(js, st, num, links).st.toks[|st.toks|];
  }

  lemma ClosingKeepsSizes(js: string, st: State, num: nat, links: bool)
    requires Ok(st) && More(js, st.pos) && Step(js, st, num, links).Go? && Closing(js[st.pos])
    ensures var next := Step(js, st, num, links).st;
      SizeSum(next.toks) == SizeSum(st.toks) && Adopted(next.toks) == Adopted(st.toks)
  {
    SumsSame(st.toks, Step(js, st, num, links).st.toks);
  }

  lemma RoundKeepsSizes(js: string, st: State, num: nat, links: bool)
    requires Ok(st) && More(js, st.pos) && Step(js, st, num, links).Go? && SizeSum(st.toks) == Adopted(st.toks)
    ensures var next := Step(js, st, num, links).st; SizeSum(next.toks) == Adopted(next.toks)
  {
    if Allocates(js[st.pos]) {
      var t := TokenStep(js, st, num, links);
      SumsBump(st.toks, st.toksuper);
      SumsAppend(Bump(st.toks, st.toksuper), t);
    } else if Closing(js[st.pos]) {
      ClosingKeepsSizes(js, st, num, links);
    } else {
      assert Step(js, st, num, links).st.toks == st.toks;
    }
  }

  /** In either build, wherever a call stops, the sizes add up to the number of tokens that have a parent. */
  lemma {:induction false} SizesCountChildren(js: string, st: State, num: nat, links: bool)
    requires Ok(st) && SizeSum(st.toks) == Adopted(st.toks)
    ensures var toks := Run(js, st, num, links).1.toks; SizeSum(toks) == Adopted(toks)
    decreases |js| - st.pos
  {
    if More(js, st.pos) && Step(js, st, num, links).Go? {
      RoundKeepsSizes(js, st, num, links);
      SizesCountChildren(js, Step(js, st, num, links).st, num, links);
    }
  }

  // ---------------------------------------------------------------- spans

  /** A later token starts later, and lies behind or inside an earlier one. */
  ghost predicate Apart(a: Token, b: Token) {
    a.start < b.start && (a.end == -1 || a.end <= b.start || (b.end != -1 && b.end <= a.end))
  }

  ghost predicate Span(t: Token, pos: nat) {
    0 <= t.start < pos && (t.end == -1 || t.start <= t.end <= pos)
  }

  ghost predicate Nested(toks: seq<Token>, pos: nat) {
    && (forall i :: 0 <= i < |toks| ==> Span(toks[i], pos))
    && (forall i, j :: 0 <= i < j < |toks| ==> Apart(toks[i], toks[j]))
  }

  lemma NestedAppend(toks: seq<Token>, pos: nat, t: Token, pos': nat)
    requires Nested(toks, pos) && pos <= t.start && pos <= pos' && Span(t, pos')
    ensures Nested(toks + [t], pos')
  {
  }

  lemma NestedSame(a: seq<Token>, b: seq<Token>, pos: nat)
    requires Nested(a, pos) && |a| == |b| && forall i :: 0 <= i < |a| ==> a[i].start == b[i].start && a[i].end == b[i].end
    ensures Nested(b, pos)
  {
    forall i, j | 0 <= i < j < |b|
      ensures Apart(b[i], b[j])
    {
      assert Apart(a[i], a[j]);
    }
    forall i | 0 <= i < |b|
      ensures Span(b[i], pos)
    {
      assert Span(a[i], pos);
    }
  }

  lemma NestedClose(toks: seq<Token>, pos: nat, i: nat)
    requires Nested(toks, pos) && i < |toks| && toks[i].Open() && forall k :: i < k < |toks| ==> !toks[k].Open()
    ensures Nested(toks[i := toks[i].(end := pos + 1)], pos + 1)
  {
    var closed := toks[i := toks[i].(end := pos + 1)];
    forall k, j | 0 <= k < j < |toks|
      ensures Apart(closed[k], closed[j])
    {
      assert Apart(toks[k], toks[j]) && Span(toks[j], pos);
      if k == i { assert !toks[j].Open(); }
    }
    forall k | 0 <= k < |toks|
      ensures Span(closed[k], pos + 1)
    {
      assert Span(toks[k], pos);
    }
  }

  lemma RoundKeepsNested(js: string, st: State, num: nat)
    requires Ok(st) && More(js, st.pos) && Step(js, st, num, false).Go? && Nested(st.toks, st.pos)
    ensures var next := Step(js, st, num, false).st; Nested(next.toks, next.pos)
  {
    var next := Step(js, st, num, false).st;
    if |next.toks| > |st.toks| {
      NestedSame(st.toks, Bump(st.toks, st.toksuper), st.pos);
      NestedAppend(Bump(st.toks, st.toksuper), st.pos, next.toks[|st.toks|], next.pos);
    } else if Closing(js[st.pos]) {
      NestedClose(st.toks, st.pos, LastOpen(st.toks));
    } else {
      assert next.toks == st.toks;
      forall i | 0 <= i < |st.toks|
        ensures Span(st.toks[i], next.pos)
      {
        assert Span(st.toks[i], st.pos);
      }
    }
  }

  lemma {:induction false} RunKeepsNested(js: string, st: State, num: nat)
    requires Ok(st) && Nested(st.toks, st.pos)
    ensures var end := Run(js, st, num, false).1; Nested(end.toks, end.pos)
    decreases |js| - st.pos
  {
    if More(js, st.pos) && Step(js, st, num, false).Go? {
      RoundKeepsNested(js, st, num);
      RunKeepsNested(js, Step(js, st, num, false).st, num);
    }
  }

  /** A successful call leaves a nested family of finished spans in order of their starts. */
  lemma SpansAreNested(js: string, num: nat)
    requires Run(js, INIT, num, false).0.Count?
    ensures var toks := Run(js, INIT, num, false).1.toks;
      && Nested(toks, Run(js, INIT, num, false).1.pos) && (forall i :: 0 <= i < |toks| ==> !toks[i].Open())
      && Run(js, INIT, num, false).0 == Count(|toks|)
  {
    RunKeepsNested(js, INIT, num);
    AllCounted(js, INIT, num, false);
    SuccessLeavesNoneOpen(js, INIT, num, false);
  }

  lemma {:induction false} SuccessLeavesNoneOpen(js: string, st: State, num: nat, links: bool)
    requires Ok(st) && Run(js, st, num, links).0.Count?
    ensures LastOpen(Run(js, st, num, links).1.toks) == -1
    decreases |js| - st.pos
  {
    if More(js, st.pos) { SuccessLeavesNoneOpen(js, Step(js, st, num, links).st, num, links); }
  }

  const UNBALANCED := "[]]"
  const OPENED := State(1, 0, [Token(Array, 0, -1, 0, -1)], 1)
  const CLOSED := State(2, -1, [Token(Array, 0, 2, 0, -1)], 1)

  lemma FirstBracket(links: bool)
    ensures Step(UNBALANCED, INIT, 1, links) == Go(OPENED)
  {
  }

  lemma SecondBracket(links: bool)
    ensures Step(UNBALANCED, OPENED, 1, links) == Go(CLOSED)
  {
    assert LastOpen(OPENED.toks) == 0 && LastOpen(OPENED.toks[..0]) == -1 && Climb(OPENED.toks, 0) == 0;
  }

  lemma ThirdBracket()
    ensures Step(UNBALANCED, CLOSED, 1, true) == Go(CLOSED.(pos := 3))
    ensures Step(UNBALANCED, CLOSED, 1, false) == Halt(Inval)
  {
    LastOpenOf(CLOSED.toks, -1);
  }

  /** The build with parent links does not reject a closing bracket without a partner: here it reports success
      where the other build reports JSMN_ERROR_INVAL. */
  lemma ParentLinksAcceptUnmatched()
    ensures Run(UNBALANCED, INIT, 1, true).0 == Count(1)
    ensures Run(UNBALANCED, INIT, 1, false).0 == Inval
  {
    ThirdBracket();
    LastOpenOf(CLOSED.toks, -1);
    assert Run(UNBALANCED, CLOSED.(pos := 3), 1, true) == (Count(1), CLOSED.(pos := 3));
    forall links: bool
      ensures Run(UNBALANCED, INIT, 1, links) == Run(UNBALANCED, CLOSED, 1, links)
    {
      FirstBracket(links);
      SecondBracket(links);
      RunRound(UNBALANCED, INIT, 1, links);
      RunRound(UNBALANCED, OPENED, 1, links);
    }
    RunRound(UNBALANCED, CLOSED, 1, true);
    RunRound(UNBALANCED, CLOSED, 1, false);
  }
}
