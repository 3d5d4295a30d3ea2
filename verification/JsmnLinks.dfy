/** The build of jsmn with parent links, on any text: walking up the links finds the bracket that the backward scan
    finds, so the builds differ in one thing only, a closing bracket while none is open. */
module JsmnLinks {
  import opened JsmnModel
  import opened JsmnModes
  import opened JsmnInvariants

  /** The open token that the links lead to from i, or from no token. */
  function Top(toks: seq<Token>, i: int): int
    requires -1 <= i < |toks| && ParentsBelow(toks)
  {
    if i == -1 then -1 else Climb(toks, i)
  }

  /** From an open bracket the links lead to the one that is open around it. */
  ghost predicate LedAt(toks: seq<Token>, i: nat)
    requires ParentsBelow(toks) && i < |toks|
  {
    toks[i].Open() ==> toks[i].Container() && Top(toks, toks[i].parent) == LastOpen(toks[..i])
  }

  ghost predicate Led(toks: seq<Token>)
    requires ParentsBelow(toks)
  {
    forall i :: 0 <= i < |toks| ==> LedAt(toks, i)
  }

  /** The state at a loop head of the build with parent links. */
  ghost predicate LinkHead(st: State) {
    && Ok(st) && StartsKnown(st.toks) && |st.toks| == st.count && Led(st.toks)
    && Top(st.toks, st.toksuper) == LastOpen(st.toks) == Top(st.toks, |st.toks| - 1)
  }

  /** Only the tokens up to i decide where the links lead from i. */
  lemma {:induction false} ClimbPrefix(a: seq<Token>, b: seq<Token>, i: nat)
    requires ParentsBelow(a) && ParentsBelow(b) && i < |a| && i < |b|
    requires forall k :: 0 <= k <= i ==> a[k].Open() == b[k].Open() && a[k].parent == b[k].parent
    ensures Climb(a, i) == Climb(b, i)
    decreases i
  {
    if !a[i].Open() && a[i].parent != -1 { ClimbPrefix(a, b, a[i].parent); }
  }

  lemma TopPrefix(a: seq<Token>, b: seq<Token>, i: int)
    requires ParentsBelow(a) && ParentsBelow(b) && -1 <= i < |a| && i < |b|
    requires forall k :: 0 <= k <= i ==> a[k].Open() == b[k].Open() && a[k].parent == b[k].parent
    ensures Top(a, i) == Top(b, i)
  {
    if i != -1 { ClimbPrefix(a, b, i); }
  }

  /** Once the bracket the links led to is closed, they lead to where it led. */
  lemma {:induction false} ClimbThrough(toks: seq<Token>, i: nat, closed: Token, j: nat)
    requires ParentsBelow(toks) && j < |toks| && Climb(toks, j) == i < |toks|
    requires !closed.Open() && closed.parent == toks[i].parent && ParentsBelow(toks[i := closed])
    ensures Climb(toks[i := closed], j) == Top(toks[i := closed], toks[i].parent)
    decreases j
  {
    if j != i { ClimbThrough(toks, i, closed, toks[j].parent); }
  }

  /** The first n tokens look the same to the links. */
  ghost predicate SameLinks(a: seq<Token>, b: seq<Token>, n: nat) {
    n <= |a| && n <= |b| && forall k :: 0 <= k < n ==>
      a[k].Open() == b[k].Open() && a[k].parent == b[k].parent && a[k].Container() == b[k].Container()
  }

  lemma LedAtPrefix(toks: seq<Token>, more: seq<Token>, i: nat)
    requires ParentsBelow(toks) && ParentsBelow(more) && i < |toks| && LedAt(toks, i) && SameLinks(toks, more, i + 1)
    ensures LedAt(more, i)
  {
    TopPrefix(toks, more, toks[i].parent);
    SameOpen(toks[..i], more[..i]);
  }

  lemma LedAppend(toks: seq<Token>, super: int, t: Token, more: seq<Token>)
    requires ParentsBelow(toks) && Led(toks) && -1 <= super < |toks| && t.parent == super && (t.Open() ==> t.Container())
    requires Top(toks, super) == LastOpen(toks)
    requires |more| == |toks| + 1 && SameLinks(toks, more, |toks|) && more[|toks|] == t
    ensures ParentsBelow(more) && Led(more) && Top(more, super) == LastOpen(toks)
    ensures LastOpen(more) == (if t.Open() then |toks| else LastOpen(toks)) && Climb(more, |toks|) == LastOpen(more)
  {
    AppendTops(toks, super, t, more);
    forall i | 0 <= i < |more| ensures LedAt(more, i) {
      if i < |toks| { assert LedAt(toks, i); LedAtPrefix(toks, more, i); } else { SameOpen(toks, more[..i]); }
    }
  }

  lemma AppendTops(toks: seq<Token>, super: int, t: Token, more: seq<Token>)
    requires ParentsBelow(toks) && -1 <= super < |toks| && t.parent == super && Top(toks, super) == LastOpen(toks)
    requires |more| == |toks| + 1 && SameLinks(toks, more, |toks|) && more[|toks|] == t
    ensures ParentsBelow(more) && Top(more, super) == LastOpen(toks)
    ensures LastOpen(more) == (if t.Open() then |toks| else LastOpen(toks)) && Climb(more, |toks|) == LastOpen(more)
  {
    TopPrefix(toks, more, super);
    LastOpenOf(more, if t.Open() then |toks| else LastOpen(toks));
  }

  lemma SameOpen(a: seq<Token>, b: seq<Token>)
    requires |a| == |b| && forall k :: 0 <= k < |a| ==> a[k].Open() == b[k].Open()
    ensures LastOpen(a) == LastOpen(b)
  {
  }

  /** Closing the last open bracket. */
  lemma LedClose(toks: seq<Token>, i: nat, closed: Token)
    requires ParentsBelow(toks) && Led(toks) && toks != [] && LastOpen(toks) == i == Climb(toks, |toks| - 1)
    requires !closed.Open() && closed.parent == toks[i].parent
    ensures var less := toks[i := closed];
      && ParentsBelow(less) && Led(less) && LastOpen(less) == LastOpen(toks[..i])
      && Top(less, toks[i].parent) == LastOpen(less) == Climb(less, |toks| - 1)
  {
    var less := toks[i := closed];
    LastOpenOf(less, LastOpen(toks[..i]));
    TopPrefix(toks, less, toks[i].parent);
    ClimbThrough(toks, i, closed, |toks| - 1);
    forall k | 0 <= k < |less| ensures LedAt(less, k) {
      if k < i { assert LedAt(toks, k); LedAtPrefix(toks, less, k); }
    }
    assert LedAt(toks, i);
  }

  // ---------------------------------------------------------------- rounds

  /** A round from st to next does to the stack of open tokens what its character does. */
  ghost predicate FollowsText(js: string, st: State, next: State)
    requires More(js, st.pos)
  {
    && LinkHead(next) && Next(js, st.pos) == Found(next.pos)
    && Stack(next.toks) == Shifted(js, st.pos, Stack(st.toks))
    && (next.toks != [] <==> st.toks != [] || Allocates(js[st.pos]))
    && (Closing(js[st.pos]) ==> Matches(js[st.pos], Stack(st.toks)) || (Stack(st.toks) == [] && st.toks != []))
  }

  lemma LinkRound(js: string, st: State, num: nat)
    requires LinkHead(st) && More(js, st.pos) && Step(js, st, num, true).Go?
    ensures FollowsText(js, st, Step(js, st, num, true).st)
  {
    var c := js[st.pos];
    if Opening(c) {
      LinkOpening(js, st, num);
    } else if Closing(c) {
      LinkClosing(js, st, num);
    } else if Allocates(c) {
      LinkAtom(js, st, num);
    } else if c == ',' {
      LinkComma(js, st, num);
    } else {
      LinkOther(js, st, num);
    }
  }

  lemma LinkComma(js: string, st: State, num: nat)
    requires LinkHead(st) && More(js, st.pos) && Step(js, st, num, true).Go? && js[st.pos] == ','
    ensures FollowsText(js, st, Step(js, st, num, true).st)
  {
    assert st.toksuper >= 0 && LedAt(st.toks, st.toksuper);
    assert Step(js, st, num, true).st.toks == st.toks;
  }

  lemma LinkOther(js: string, st: State, num: nat)
    requires LinkHead(st) && More(js, st.pos) && Step(js, st, num, true).Go? && (Space(js[st.pos]) || js[st.pos] == ':')
    ensures FollowsText(js, st, Step(js, st, num, true).st)
  {
    assert Step(js, st, num, true).st.toks == st.toks;
  }

  /** A token is appended under toksuper. */
  lemma Appended(st: State, t: Token, next: State)
    requires LinkHead(st) && t.parent == st.toksuper && t.start >= 0 && (t.Open() ==> t.Container())
    requires next.toks == Bump(st.toks, st.toksuper) + [t] && next.count == st.count + 1
    requires next.toksuper == if t.Open() then |st.toks| else st.toksuper
    ensures LinkHead(next)
    ensures Stack(next.toks) == Stack(st.toks) + if t.Open() then [Bracket(t.typ, t.start)] else []
  {
    LedAppend(st.toks, st.toksuper, t, next.toks);
    StackBump(st.toks, st.toksuper);
    StackAppend(Bump(st.toks, st.toksuper), t);
  }

  lemma LinkOpening(js: string, st: State, num: nat)
    requires LinkHead(st) && More(js, st.pos) && Step(js, st, num, true).Go? && Opening(js[st.pos])
    ensures FollowsText(js, st, Step(js, st, num, true).st)
  {
    var next := Opened(js, st, num);
  }

  lemma Opened(js: string, st: State, num: nat) returns (next: State)
    requires LinkHead(st) && More(js, st.pos) && Step(js, st, num, true).Go? && Opening(js[st.pos])
    ensures next == Step(js, st, num, true).st && LinkHead(next) && Next(js, st.pos) == Found(next.pos) && next.toks != []
    ensures Stack(next.toks) == Stack(st.toks) + [Bracket(TypeOf(js[st.pos]), st.pos)]
  {
    var t := Token(TypeOf(js[st.pos]), st.pos, -1, 0, st.toksuper);
    next := OpeningStep(js, st, num, t);
    Appended(st, t, next);
  }

  lemma OpeningStep(js: string, st: State, num: nat, t: Token) returns (next: State)
    requires Ok(st) && More(js, st.pos) && Step(js, st, num, true).Go? && Opening(js[st.pos])
    requires t == Token(TypeOf(js[st.pos]), st.pos, -1, 0, st.toksuper)
    ensures next == Step(js, st, num, true).st && Next(js, st.pos) == Found(next.pos)
    ensures next.toks == Bump(st.toks, st.toksuper) + [t] && next.count == st.count + 1 && next.toksuper == |st.toks|
    ensures next.pos == st.pos + 1
  {
    next := Step(js, st, num, true).st;
  }

  lemma LinkAtom(js: string, st: State, num: nat)
    requires LinkHead(st) && More(js, st.pos) && Step(js, st, num, true).Go? && Allocates(js[st.pos]) && !Opening(js[st.pos])
    ensures FollowsText(js, st, Step(js, st, num, true).st)
  {
    var t, next := AtomStep(js, st, num);
    Appended(st, t, next);
  }

  lemma AtomStep(js: string, st: State, num: nat) returns (t: Token, next: State)
    requires Ok(st) && More(js, st.pos) && Step(js, st, num, true).Go? && Allocates(js[st.pos]) && !Opening(js[st.pos])
    ensures next == Step(js, st, num, true).st && Next(js, st.pos) == Found(next.pos)
    ensures next.toks == Bump(st.toks, st.toksuper) + [t] && next.count == st.count + 1 && next.toksuper == st.toksuper
    ensures !t.Open() && !t.Container() && st.pos <= t.start <= t.end <= next.pos && t.start < next.pos && t.parent == st.toksuper
  {
    next := Step(js, st, num, true).st;
    t := next.toks[|st.toks|];
  }

  lemma LinkClosing(js: string, st: State, num: nat)
    requires LinkHead(st) && More(js, st.pos) && Step(js, st, num, true).Go? && Closing(js[st.pos])
    ensures FollowsText(js, st, Step(js, st, num, true).st)
  {
    StackTop(st.toks);
    var next := ClosingStep(js, st, num);
    var i := LastOpen(st.toks);
    if i != -1 { Popped(st, i, st.toks[i].(end := st.pos + 1), next); }
  }

  lemma ClosingStep(js: string, st: State, num: nat) returns (next: State)
    requires LinkHead(st) && More(js, st.pos) && Step(js, st, num, true).Go? && Closing(js[st.pos])
    ensures next == Step(js, st, num, true).st && Next(js, st.pos) == Found(next.pos) && st.toks != []
    ensures var i := LastOpen(st.toks);
      if i == -1 then next == st.(pos := st.pos + 1)
      else && st.toks[i].typ == TypeOf(js[st.pos])
           && next.count == st.count && next.toksuper == st.toks[i].parent && next.pos == st.pos + 1
           && next.toks == st.toks[i := st.toks[i].(end := st.pos + 1)]
  {
    next := Step(js, st, num, true).st;
  }

  /** The innermost open bracket is closed. */
  lemma Popped(st: State, i: nat, closed: Token, next: State)
    requires LinkHead(st) && i == LastOpen(st.toks) && closed == st.toks[i].(end := closed.end) && !closed.Open()
    requires next.toks == st.toks[i := closed] && next.count == st.count && next.toksuper == st.toks[i].parent
    ensures LinkHead(next) && Stack(next.toks) == Stack(st.toks[..i])
  {
    LedClose(st.toks, i, closed);
    StackClose(st.toks, i, closed);
  }

  // ---------------------------------------------------------------- commas

  /** A token and its parents outward, or no token: for each of them, whether it is a container. */
  function Chain(toks: seq<Token>, i: int): seq<bool>
    requires ParentsBelow(toks) && -1 <= i < |toks|
    decreases i
  {
    if i == -1 then [] else [toks[i].Container()] + Chain(toks, toks[i].parent)
  }

  /** The chains of the open tokens' parents, in index order. */
  function Outers(toks: seq<Token>): seq<seq<bool>>
    requires ParentsBelow(toks)
  {
    if toks == [] then []
    else
      var last, before := toks[|toks| - 1], toks[..|toks| - 1];
      Outers(before) + if last.Open() then [Chain(before, last.parent)] else []
  }

  lemma {:induction false} ChainSame(a: seq<Token>, b: seq<Token>, i: int)
    requires ParentsBelow(a) && ParentsBelow(b) && -1 <= i < |a| && i < |b|
    requires forall k :: 0 <= k <= i ==> a[k].typ == b[k].typ && a[k].parent == b[k].parent
    ensures Chain(a, i) == Chain(b, i)
    decreases i
  {
    if i != -1 { ChainSame(a, b, a[i].parent); }
  }

  lemma {:induction false} OutersSame(a: seq<Token>, b: seq<Token>)
    requires ParentsBelow(a) && ParentsBelow(b) && |a| == |b|
    requires forall k :: 0 <= k < |a| ==> a[k].typ == b[k].typ && a[k].parent == b[k].parent && a[k].Open() == b[k].Open()
    ensures Outers(a) == Outers(b)
  {
    if a != [] {
      var n := |a| - 1;
      OutersSame(a[..n], b[..n]);
      ChainSame(a[..n], b[..n], a[n].parent);
    }
  }

  /** Above the last open token's chain lie those of the open tokens before it. */
  lemma {:induction false} OutersTop(toks: seq<Token>)
    requires ParentsBelow(toks)
    ensures var i := LastOpen(toks);
      if i == -1 then Outers(toks) == [] else Outers(toks) == Outers(toks[..i]) + [Chain(toks[..i], toks[i].parent)]
  {
    if toks != [] {
      var n := |toks| - 1;
      if !toks[n].Open() {
        OutersTop(toks[..n]);
        var i := LastOpen(toks);
        if i != -1 { assert toks[..n][..i] == toks[..i]; }
      }
    }
  }

  lemma {:induction false} OutersClose(toks: seq<Token>, i: nat, closed: Token)
    requires ParentsBelow(toks) && i < |toks| && !closed.Open() && closed.parent == toks[i].parent
    requires forall k :: i < k < |toks| ==> !toks[k].Open()
    ensures ParentsBelow(toks[i := closed]) && Outers(toks[i := closed]) == Outers(toks[..i])
  {
    var n := |toks| - 1;
    if i == n {
      assert toks[i := closed][..n] == toks[..n];
    } else {
      OutersClose(toks[..n], i, closed);
      assert toks[i := closed][..n] == toks[..n][i := closed];
      assert toks[..n][..i] == toks[..i];
    }
  }

  lemma OutersAppend(toks: seq<Token>, t: Token)
    requires ParentsBelow(toks) && -1 <= t.parent < |toks|
    ensures ParentsBelow(toks + [t])
    ensures Outers(toks + [t]) == Outers(toks) + if t.Open() then [Chain(toks, t.parent)] else []
    ensures Chain(toks + [t], |toks|) == [t.Container()] + Chain(toks, t.parent)
    ensures Chain(toks + [t], t.parent) == Chain(toks, t.parent)
  {
    assert (toks + [t])[..|toks|] == toks;
    ChainSame(toks + [t], toks, t.parent);
  }

  /** What the text says about superior tokens: the chains of toksuper, of the last token, and of what toksuper was
      before each open bracket. */
  datatype Supers = Supers(cur: seq<bool>, last: seq<bool>, outers: seq<seq<bool>>)

  const NO_SUPERS := Supers([], [], [])

  function SupersOf(st: State): Supers
    requires Ok(st)
  {
    Supers(Chain(st.toks, st.toksuper), Chain(st.toks, |st.toks| - 1), Outers(st.toks))
  }

  /** Behind the character c: a closing bracket gives back what its opening one took, a colon goes to the last token,
      a comma to the parent unless it is in a container. */
  function SupersAfter(c: char, v: Supers): Supers {
    if Opening(c) then Supers([true] + v.cur, [true] + v.cur, v.outers + [v.cur])
    else if Closing(c) then
      if v.outers == [] then v else Supers(v.outers[|v.outers| - 1], v.last, v.outers[..|v.outers| - 1])
    else if c == ':' then v.(cur := v.last)
    else if c == ',' then if v.cur != [] && !v.cur[0] then v.(cur := v.cur[1..]) else v
    else if Space(c) then v
    else v.(last := [false] + v.cur)
  }

  /** Read on from p with room for num tokens, `count` of them taken, this build finds a superior token at every comma
      that it comes to. */
  predicate LinkedCommasFound(js: string, p: nat, num: nat, stack: seq<Bracket>, count: nat, v: Supers)
    decreases |js| - p
  {
    || !More(js, p) || !Next(js, p).Found?
    || (Closing(js[p]) && !Matches(js[p], stack) && (stack != [] || count == 0)) || (Allocates(js[p]) && count >= num)
    || ((js[p] == ',' ==> v.cur != []) &&
        LinkedCommasFound(js, Next(js, p).at, num, Shifted(js, p, stack), count + (if Allocates(js[p]) then 1 else 0),
                          SupersAfter(js[p], v)))
  }

  lemma SupersAppended(st: State, t: Token, next: State)
    requires Ok(st) && t.parent == st.toksuper
    requires next.toks == Bump(st.toks, st.toksuper) + [t] && next.toksuper == (if t.Open() then |st.toks| else st.toksuper)
    ensures Ok(next)
    ensures var v := SupersOf(st); var last := [t.Container()] + v.cur;
      SupersOf(next) == if t.Open() then Supers(last, last, v.outers + [v.cur]) else Supers(v.cur, last, v.outers)
  {
    var bumped := Bump(st.toks, st.toksuper);
    OutersAppend(bumped, t);
    OutersSame(st.toks, bumped);
    ChainSame(st.toks, bumped, st.toksuper);
  }

  lemma ClosedChains(toks: seq<Token>, i: nat, closed: Token)
    requires ParentsBelow(toks) && i < |toks| && closed.typ == toks[i].typ && closed.parent == toks[i].parent
    ensures ParentsBelow(toks[i := closed])
    ensures Chain(toks[i := closed], toks[i].parent) == Chain(toks[..i], toks[i].parent)
    ensures Chain(toks[i := closed], |toks| - 1) == Chain(toks, |toks| - 1)
  {
    ChainSame(toks[..i], toks[i := closed], toks[i].parent);
    ChainSame(toks, toks[i := closed], |toks| - 1);
  }

  lemma SupersClosed(st: State, i: nat, closed: Token, next: State)
    requires Ok(st) && i == LastOpen(st.toks) && closed == st.toks[i].(end := closed.end) && !closed.Open()
    requires next.toks == st.toks[i := closed] && next.toksuper == st.toks[i].parent
    ensures Ok(next)
    ensures var v := SupersOf(st);
      v.outers != [] && SupersOf(next) == Supers(v.outers[|v.outers| - 1], v.last, v.outers[..|v.outers| - 1])
  {
    OutersTop(st.toks);
    OutersClose(st.toks, i, closed);
    ClosedChains(st.toks, i, closed);
  }

  /** A round that goes on does to the superior tokens what its character does. */
  lemma SupersRound(js: string, st: State, num: nat)
    requires LinkHead(st) && More(js, st.pos) && Step(js, st, num, true).Go?
    ensures var c, next := js[st.pos], Step(js, st, num, true).st;
      && Ok(next) && SupersOf(next) == SupersAfter(c, SupersOf(st))
      && next.count == st.count + (if Allocates(c) then 1 else 0)
      && (Allocates(c) ==> st.count < num) && (c == ',' ==> SupersOf(st).cur != [])
  {
    var c := js[st.pos];
    if Allocates(c) {
      SupersToken(js, st, num);
    } else if Closing(c) {
      SupersClosing(js, st, num);
    } else {
      SupersPlain(js, st, num);
    }
  }

  lemma SupersToken(js: string, st: State, num: nat)
    requires LinkHead(st) && More(js, st.pos) && Step(js, st, num, true).Go? && Allocates(js[st.pos])
    ensures var c, next := js[st.pos], Step(js, st, num, true).st;
      Ok(next) && SupersOf(next) == SupersAfter(c, SupersOf(st)) && next.count == st.count + 1 && st.count < num
  {
    HasRoom(js, st, num);
    if Opening(js[st.pos]) {
      var t := Token(TypeOf(js[st.pos]), st.pos, -1, 0, st.toksuper);
      var next := OpeningStep(js, st, num, t);
      SupersAppended(st, t, next);
    } else {
      var t, next := AtomStep(js, st, num);
      SupersAppended(st, t, next);
    }
  }

  lemma HasRoom(js: string, st: State, num: nat)
    requires LinkHead(st) && More(js, st.pos) && Step(js, st, num, true).Go? && Allocates(js[st.pos])
    ensures st.count < num
  {
  }

  lemma SupersClosing(js: string, st: State, num: nat)
    requires LinkHead(st) && More(js, st.pos) && Step(js, st, num, true).Go? && Closing(js[st.pos])
    ensures var c, next := js[st.pos], Step(js, st, num, true).st;
      Ok(next) && SupersOf(next) == SupersAfter(c, SupersOf(st)) && next.count == st.count
  {
    var next := ClosingStep(js, st, num);
    var i := LastOpen(st.toks);
    OutersTop(st.toks);
    if i != -1 { SupersClosed(st, i, st.toks[i].(end := st.pos + 1), next); }
  }

  lemma SupersPlain(js: string, st: State, num: nat)
    requires LinkHead(st) && More(js, st.pos) && Step(js, st, num, true).Go?
    requires !Allocates(js[st.pos]) && !Closing(js[st.pos])
    ensures var c, next := js[st.pos], Step(js, st, num, true).st;
      && Ok(next) && SupersOf(next) == SupersAfter(c, SupersOf(st)) && next.count == st.count
      && (c == ',' ==> SupersOf(st).cur != [])
  {
  }

  /** A round that stops reads tokens[-1], or stops for one of the other reasons. */
  lemma LinkStopsAtComma(js: string, st: State, num: nat)
    requires LinkHead(st) && More(js, st.pos) && Step(js, st, num, true).Halt?
    ensures var c := js[st.pos];
      if Step(js, st, num, true).ret == Undefined then c == ',' && SupersOf(st).cur == []
      else || !Next(js, st.pos).Found? || (Allocates(c) && st.count >= num)
           || (Closing(c) && !Matches(c, Stack(st.toks)) && (Stack(st.toks) != [] || st.count == 0))
  {
    if Closing(js[st.pos]) { StackTop(st.toks); }
  }

  lemma CommasRound(js: string, p: nat, q: nat, num: nat, stack: seq<Bracket>, count: nat, v: Supers,
                    shifted: seq<Bracket>, more: nat, w: Supers)
    requires More(js, p) && Next(js, p) == Found(q)
    requires Closing(js[p]) ==> Matches(js[p], stack) || (stack == [] && count > 0)
    requires (Allocates(js[p]) ==> count < num) && (js[p] == ',' ==> v.cur != [])
    requires shifted == Shifted(js, p, stack) && more == count + (if Allocates(js[p]) then 1 else 0) && w == SupersAfter(js[p], v)
    ensures LinkedCommasFound(js, p, num, stack, count, v) == LinkedCommasFound(js, q, num, shifted, more, w)
  {
  }

  ghost predicate CommasFrom(js: string, st: State, num: nat)
    requires LinkHead(st)
  {
    LinkedCommasFound(js, st.pos, num, Stack(st.toks), st.count, SupersOf(st))
  }

  lemma CommasFollow(js: string, st: State, num: nat)
    requires LinkHead(st) && More(js, st.pos) && Step(js, st, num, true).Go?
    ensures var next := Step(js, st, num, true).st; LinkHead(next) && CommasFrom(js, st, num) == CommasFrom(js, next, num)
  {
    LinkRound(js, st, num);
    SupersRound(js, st, num);
    var next := Step(js, st, num, true).st;
    CommasRound(js, st.pos, next.pos, num, Stack(st.toks), st.count, SupersOf(st), Stack(next.toks), next.count, SupersOf(next));
  }

  lemma {:induction false} LinksUndefinedFrom(js: string, st: State, num: nat)
    requires LinkHead(st)
    ensures Run(js, st, num, true).0 == Undefined <==> !CommasFrom(js, st, num)
    decreases |js| - st.pos
  {
    if More(js, st.pos) {
      RunRound(js, st, num, true);
      if Step(js, st, num, true).Go? {
        CommasFollow(js, st, num);
        LinksUndefinedFrom(js, Step(js, st, num, true).st, num);
      } else {
        LinkStopsAtComma(js, st, num);
      }
    }
  }

  /** In this build, too, the text and the number of tokens decide whether tokens[-1] is read. */
  lemma LinksUndefinedExactly(js: string, num: nat)
    ensures Run(js, INIT, num, true).0 == Undefined <==> !LinkedCommasFound(js, 0, num, [], 0, NO_SUPERS)
  {
    LinksUndefinedFrom(js, INIT, num);
  }

  /** In particular it never is if every comma stands inside a bracket. */
  lemma {:induction false} LinkedCommasInsideAreDefined(js: string, st: State, num: nat)
    requires LinkHead(st) && CommasInside(js, st.pos, Stack(st.toks))
    ensures Run(js, st, num, true).0 != Undefined
    decreases |js| - st.pos
  {
    if More(js, st.pos) {
      RunRound(js, st, num, true);
      if Step(js, st, num, true).Go? {
        LinkRound(js, st, num);
        LinkedCommasInsideAreDefined(js, Step(js, st, num, true).st, num);
      } else {
        CommaInsideHasSuper(js, st, num);
      }
    }
  }

  lemma CommaInsideHasSuper(js: string, st: State, num: nat)
    requires LinkHead(st) && More(js, st.pos) && Step(js, st, num, true).Halt? && (js[st.pos] == ',' ==> Stack(st.toks) != [])
    ensures Step(js, st, num, true).ret != Undefined
  {
    LinkStopsAtComma(js, st, num);
    StackTop(st.toks);
  }

  /** A key, a colon, an empty array and a comma, outside every bracket: "1:[],". */
  predicate KeyedArray(js: string) {
    |js| == 5 && js[0] == '1' && js[1] == ':' && js[2] == '[' && js[3] == ']' && js[4] == ','
  }

  lemma KeyedWords(js: string)
    requires KeyedArray(js)
    ensures Next(js, 0) == Found(1) && Next(js, 1) == Found(2) && Next(js, 2) == Found(3)
    ensures Next(js, 3) == Found(4) && Next(js, 4) == Found(5) && !More(js, 5)
  {
    assert ScanPrimitive(js, 1) == Found(1);
  }

  lemma ScanCommasRound(js: string, p: nat, q: nat, num: nat, stack: seq<Bracket>, count: nat, adrift: bool,
                        shifted: seq<Bracket>, more: nat, drifted: bool)
    requires More(js, p) && Next(js, p) == Found(q) && js[p] != ','
    requires (Closing(js[p]) ==> Matches(js[p], stack)) && (Allocates(js[p]) ==> count < num)
    requires shifted == Shifted(js, p, stack) && more == count + (if Allocates(js[p]) then 1 else 0)
    requires drifted == AdriftAfter(js[p], stack, count, adrift)
    ensures CommasFound(js, p, num, stack, count, adrift) == CommasFound(js, q, num, shifted, more, drifted)
  {
  }

  /** Here the comma's superior token would be the key. The closing bracket takes it away in the build without parent
      links, and gives it back in the other. */
  lemma BuildsDifferAtComma(js: string, num: nat)
    requires KeyedArray(js) && num >= 2
    ensures Run(js, INIT, num, false).0 == Undefined && Run(js, INIT, num, true).0 != Undefined
  {
    KeyedScan(js, num);
    KeyedLinks(js, num);
    UndefinedExactly(js, num);
    LinksUndefinedExactly(js, num);
  }

  lemma KeyedScan(js: string, num: nat)
    requires KeyedArray(js) && num >= 2
    ensures !CommasFound(js, 0, num, [], 0, true)
  {
    KeyedWords(js);
    var inner := [Bracket(Array, 2)];
    ScanCommasRound(js, 0, 1, num, [], 0, true, [], 1, true);
    ScanCommasRound(js, 1, 2, num, [], 1, true, [], 1, false);
    ScanCommasRound(js, 2, 3, num, [], 1, false, inner, 2, false);
    ScanCommasRound(js, 3, 4, num, inner, 2, false, [], 2, true);
    assert !CommasFound(js, 4, num, [], 2, true);
  }

  lemma KeyedLinks(js: string, num: nat)
    requires KeyedArray(js) && num >= 2
    ensures LinkedCommasFound(js, 0, num, [], 0, NO_SUPERS)
  {
    KeyedWords(js);
    KeyedTail(js, num);
    var key, items := [false], [true, false];
    CommasRound(js, 0, 1, num, [], 0, NO_SUPERS, [], 1, Supers([], key, []));
    CommasRound(js, 1, 2, num, [], 1, Supers([], key, []), [], 1, Supers(key, key, []));
    CommasRound(js, 2, 3, num, [], 1, Supers(key, key, []), [Bracket(Array, 2)], 2, Supers(items, items, [key]));
  }

  /** From the closing bracket on. */
  lemma KeyedTail(js: string, num: nat)
    requires KeyedArray(js) && num >= 2
    ensures LinkedCommasFound(js, 3, num, [Bracket(Array, 2)], 2, Supers([true, false], [true, false], [[false]]))
  {
    KeyedWords(js);
    var key, items := [false], [true, false];
    assert LinkedCommasFound(js, 5, num, [], 2, Supers([], items, []));
    CommasRound(js, 4, 5, num, [], 2, Supers(key, items, []), [], 2, Supers([], items, []));
    CommasRound(js, 3, 4, num, [Bracket(Array, 2)], 2, Supers(items, items, [key]), [], 2, Supers(key, items, []));
  }

  // ---------------------------------------------------------------- success

  /** As Good, but a closing bracket while none is open is passed over once a token has been seen. */
  predicate GoodForLinks(js: string, p: nat, stack: seq<Bracket>, seen: bool)
    decreases |js| - p
  {
    if !More(js, p) then stack == []
    else
      && (Closing(js[p]) ==> Matches(js[p], stack) || (stack == [] && seen))
      && Next(js, p).Found? && GoodForLinks(js, Next(js, p).at, Shifted(js, p, stack), seen || Allocates(js[p]))
  }

  lemma LinkStopIsJustified(js: string, st: State, num: nat)
    requires LinkHead(st) && More(js, st.pos) && Step(js, st, num, true).Halt? && Step(js, st, num, true).ret != Undefined
    ensures GoodForLinks(js, st.pos, Stack(st.toks), st.toks != []) ==>
              num <= st.count && CountStep(js, st.pos, st.count).CountGo? && CountStep(js, st.pos, st.count).count == st.count + 1
  {
    StackTop(st.toks);
  }

  lemma {:induction false} LinksSucceedFrom(js: string, st: State, num: nat)
    requires LinkHead(st) && Run(js, st, num, true).0 != Undefined
    ensures Run(js, st, num, true).0.Count? <==>
            GoodForLinks(js, st.pos, Stack(st.toks), st.toks != []) && CountRun(js, st.pos, st.count).Count?
            && (CountRun(js, st.pos, st.count).n <= num || CountRun(js, st.pos, st.count).n == st.count)
    decreases |js| - st.pos
  {
    StackTop(st.toks);
    if More(js, st.pos) {
      RunRound(js, st, num, true);
      if Step(js, st, num, true).Go? {
        RoundCounts(js, st, num, true);
        LinkRound(js, st, num);
        LinksSucceedFrom(js, Step(js, st, num, true).st, num);
      } else {
        LinkStopIsJustified(js, st, num);
      }
    }
  }

  /** The build with parent links succeeds if and only if no comma comes without a superior token, the text is
      lexically right, its brackets balance by type except for closing brackets that come, behind the first token,
      while none is open, and there is a token for everything the counting call counts. */
  lemma LinksSucceedExactly(js: string, num: nat)
    ensures Run(js, INIT, num, true).0.Count? <==>
            LinkedCommasFound(js, 0, num, [], 0, NO_SUPERS) && GoodForLinks(js, 0, [], false)
            && CountRun(js, 0, 0).Count? && CountRun(js, 0, 0).n <= num
  {
    LinksUndefinedExactly(js, num);
    if Run(js, INIT, num, true).0 != Undefined { LinksSucceedFrom(js, INIT, num); }
  }

  lemma UnmatchedStep(js: string, p: nat, q: nat, upto: nat, stack: seq<Bracket>)
    requires More(js, p) && Next(js, p) == Found(q)
    ensures q <= upto ==> Unmatched(js, p, upto, stack) == Unmatched(js, q, upto, Shifted(js, p, stack))
  {
  }

  lemma {:induction false} LinkHeadsFollowText(js: string, st: State, num: nat, n: nat, upto: nat)
    requires LinkHead(st) && LoopHead(js, st, num, true, n).Go?
    ensures var head := LoopHead(js, st, num, true, n).st;
      && LinkHead(head) && st.pos <= head.pos
      && (head.pos <= upto ==> Unmatched(js, st.pos, upto, Stack(st.toks)) == Unmatched(js, head.pos, upto, Stack(head.toks)))
    decreases n
  {
    if n > 0 {
      var next := Step(js, st, num, true).st;
      LinkRound(js, st, num);
      LinkHeadsFollowText(js, next, num, n - 1, upto);
      UnmatchedStep(js, st.pos, next.pos, upto, Stack(st.toks));
    }
  }

  /** In this build, too, the open tokens are the unmatched brackets at every loop head. */
  lemma LinkedOpenTokensAreUnmatchedBrackets(js: string, num: nat, n: nat)
    requires LoopHead(js, INIT, num, true, n).Go?
    ensures var head := LoopHead(js, INIT, num, true, n).st;
      Stack(head.toks) == Unmatched(js, 0, head.pos, [])
  {
    var head := LoopHead(js, INIT, num, true, n).st;
    LinkHeadsFollowText(js, INIT, num, n, head.pos);
  }

  // ---------------------------------------------------------------- spans

  lemma LinkedRoundKeepsNested(js: string, st: State, num: nat)
    requires LinkHead(st) && More(js, st.pos) && Step(js, st, num, true).Go? && Nested(st.toks, st.pos)
    ensures var next := Step(js, st, num, true).st; Nested(next.toks, next.pos)
  {
    var c := js[st.pos];
    if Opening(c) {
      var t := Token(TypeOf(c), st.pos, -1, 0, st.toksuper);
      var next := OpeningStep(js, st, num, t);
      NestedMore(st, t, next.pos);
    } else if Allocates(c) {
      var t, next := AtomStep(js, st, num);
      NestedMore(st, t, next.pos);
    } else if Closing(c) && LastOpen(st.toks) != -1 {
      var next := ClosingStep(js, st, num);
      NestedClose(st.toks, st.pos, LastOpen(st.toks));
    } else {
      NestedLater(st.toks, st.pos, Step(js, st, num, true).st.pos);
    }
  }

  lemma NestedMore(st: State, t: Token, pos: nat)
    requires Ok(st) && Nested(st.toks, st.pos) && st.pos <= t.start && st.pos <= pos && Span(t, pos)
    ensures Nested(Bump(st.toks, st.toksuper) + [t], pos)
  {
    NestedSame(st.toks, Bump(st.toks, st.toksuper), st.pos);
    NestedAppend(Bump(st.toks, st.toksuper), st.pos, t, pos);
  }

  lemma NestedLater(toks: seq<Token>, pos: nat, later: nat)
    requires Nested(toks, pos) && pos <= later
    ensures Nested(toks, later)
  {
    forall i | 0 <= i < |toks| ensures Span(toks[i], later) { assert Span(toks[i], pos); }
  }

  lemma {:induction false} LinkedRunKeepsNested(js: string, st: State, num: nat)
    requires LinkHead(st) && Nested(st.toks, st.pos)
    ensures var end := Run(js, st, num, true).1; Nested(end.toks, end.pos)
    decreases |js| - st.pos
  {
    if More(js, st.pos) && Step(js, st, num, true).Go? {
      LinkedRoundKeepsNested(js, st, num);
      LinkRound(js, st, num);
      LinkedRunKeepsNested(js, Step(js, st, num, true).st, num);
    }
  }

  /** In this build, too, success leaves a nested family of finished spans in order of their starts. */
  lemma LinkedSpansAreNested(js: string, num: nat)
    requires Run(js, INIT, num, true).0.Count?
    ensures var toks := Run(js, INIT, num, true).1.toks;
      && Nested(toks, Run(js, INIT, num, true).1.pos) && (forall i :: 0 <= i < |toks| ==> !toks[i].Open())
      && Run(js, INIT, num, true).0 == Count(|toks|)
  {
    LinkedRunKeepsNested(js, INIT, num);
    AllCounted(js, INIT, num, true);
    SuccessLeavesNoneOpen(js, INIT, num, true);
  }
}
