/** The two builds of jsmn side by side, on any text: what they agree on, and a text on which they do not. */
module JsmnBuilds {
  import opened JsmnModel
  import opened JsmnModes
  import opened JsmnInvariants
  import opened JsmnLinks

  predicate SameSpan(s: Token, t: Token) { s.typ == t.typ && s.start == t.start && s.end == t.end }

  /** The same tokens up to sizes and parents. */
  ghost predicate SameSpans(a: seq<Token>, b: seq<Token>) {
    |a| == |b| && forall i :: 0 <= i < |a| ==> SameSpan(a[i], b[i])
  }

  /** The builds stand at the same place. */
  ghost predicate Together(a: State, b: State) {
    Head(a) && LinkHead(b) && a.pos == b.pos && SameSpans(a.toks, b.toks)
  }

  lemma SpansAppended(a: seq<Token>, b: seq<Token>, i: int, j: int, s: Token, t: Token)
    requires SameSpans(a, b) && SameSpan(s, t) && -1 <= i < |a| && -1 <= j < |b|
    ensures SameSpans(Bump(a, i) + [s], Bump(b, j) + [t])
  {
  }

  lemma SpansOpen(a: seq<Token>, b: seq<Token>)
    requires SameSpans(a, b)
    ensures LastOpen(a) == LastOpen(b)
  {
    forall k | 0 <= k < |a| ensures a[k].Open() == b[k].Open() { assert SameSpan(a[k], b[k]); }
    SameOpen(a, b);
  }

  /** What a round of the build without parent links appends. */
  lemma ScanToken(js: string, st: State, num: nat) returns (t: Token)
    requires Ok(st) && More(js, st.pos) && Step(js, st, num, false).Go? && Allocates(js[st.pos])
    ensures Step(js, st, num, false).st.toks == Bump(st.toks, st.toksuper) + [t]
    ensures SameSpan(t, Written(js, st.pos))
  {
    t := Step(js, st, num, false).st.toks[|st.toks|];
  }

  lemma LinkToken(js: string, st: State, num: nat) returns (t: Token)
    requires Ok(st) && More(js, st.pos) && Step(js, st, num, true).Go? && Allocates(js[st.pos])
    ensures Step(js, st, num, true).st.toks == Bump(st.toks, st.toksuper) + [t]
    ensures SameSpan(t, Written(js, st.pos))
  {
    t := Step(js, st, num, true).st.toks[|st.toks|];
  }

  /** The type and span of the token that starts at p, as the text has it; a bracket's end comes later. */
  function Written(js: string, p: nat): Token
    requires More(js, p)
  {
    if Opening(js[p]) then Token(TypeOf(js[p]), p, -1, 0, -1)
    else if js[p] == '"' then
      var scan := ScanString(js, p + 1);
      Token(String, p + 1, if scan.Found? then scan.at else -1, 0, -1)
    else
      var scan := ScanPrimitive(js, p);
      Token(Primitive, p, if scan.Found? then scan.at else -1, 0, -1)
  }

  lemma TogetherAllocates(js: string, a: State, b: State, num: nat)
    requires Together(a, b) && More(js, a.pos) && Allocates(js[a.pos])
    requires Step(js, a, num, false).Go? && Step(js, b, num, true).Go?
    ensures SameSpans(Step(js, a, num, false).st.toks, Step(js, b, num, true).st.toks)
  {
    var s := ScanToken(js, a, num);
    var t := LinkToken(js, b, num);
    SpansAppended(a.toks, b.toks, a.toksuper, b.toksuper, s, t);
  }

  /** The build without parent links closes the last open token. */
  lemma ScanCloses(js: string, st: State, num: nat)
    requires Head(st) && More(js, st.pos) && Step(js, st, num, false).Go? && Closing(js[st.pos])
    ensures var i := LastOpen(st.toks);
      i != -1 && Step(js, st, num, false).st.toks == st.toks[i := st.toks[i].(end := st.pos + 1)]
  {
  }

  lemma TogetherCloses(js: string, a: State, b: State, num: nat)
    requires Together(a, b) && More(js, a.pos) && Closing(js[a.pos])
    requires Step(js, a, num, false).Go? && Step(js, b, num, true).Go?
    ensures SameSpans(Step(js, a, num, false).st.toks, Step(js, b, num, true).st.toks)
  {
    SpansOpen(a.toks, b.toks);
    ScanCloses(js, a, num);
    var next := ClosingStep(js, b, num);
    SpansClosed(a.toks, b.toks, LastOpen(a.toks), a.pos + 1);
  }

  lemma SpansClosed(a: seq<Token>, b: seq<Token>, i: nat, end: int)
    requires SameSpans(a, b) && i < |a|
    ensures SameSpans(a[i := a[i].(end := end)], b[i := b[i].(end := end)])
  {
    assert SameSpan(a[i], b[i]);
  }

  /** A round in which neither build stops keeps them together. */
  lemma TogetherRound(js: string, a: State, b: State, num: nat)
    requires Together(a, b) && More(js, a.pos) && Step(js, a, num, false).Go? && Step(js, b, num, true).Go?
    ensures Together(Step(js, a, num, false).st, Step(js, b, num, true).st)
  {
    RoundShiftsStack(js, a, num);
    LinkRound(js, b, num);
    var c := js[a.pos];
    if Allocates(c) {
      TogetherAllocates(js, a, b, num);
    } else if Closing(c) {
      TogetherCloses(js, a, b, num);
    } else {
      TogetherPasses(js, a, b, num);
    }
  }

  lemma TogetherPasses(js: string, a: State, b: State, num: nat)
    requires Together(a, b) && More(js, a.pos) && !Allocates(js[a.pos]) && !Closing(js[a.pos])
    requires Step(js, a, num, false).Go? && Step(js, b, num, true).Go?
    ensures Step(js, a, num, false).st.toks == a.toks && Step(js, b, num, true).st.toks == b.toks
  {
  }

  /** A call that succeeds goes on at every character. */
  lemma CountGoesOn(js: string, st: State, num: nat, links: bool) returns (next: State)
    requires Ok(st) && More(js, st.pos) && Run(js, st, num, links).0.Count?
    ensures Step(js, st, num, links) == Go(next) && Ok(next) && next.pos > st.pos
    ensures Run(js, st, num, links) == Run(js, next, num, links)
  {
    RunRound(js, st, num, links);
    next := Step(js, st, num, links).st;
  }

  lemma {:induction false} RunTogether(js: string, a: State, b: State, num: nat)
    requires Together(a, b) && Run(js, a, num, false).0.Count? && Run(js, b, num, true).0.Count?
    ensures Run(js, a, num, false).0 == Run(js, b, num, true).0
    ensures SameSpans(Run(js, a, num, false).1.toks, Run(js, b, num, true).1.toks)
    decreases |js| - a.pos
  {
    if More(js, a.pos) {
      var a' := CountGoesOn(js, a, num, false);
      var b' := CountGoesOn(js, b, num, true);
      TogetherRound(js, a, b, num);
      RunTogether(js, a', b', num);
    }
  }

  /** Whenever both builds succeed, they return the same number, and their tokens agree in type, start and end. */
  lemma SpansAgree(js: string, num: nat)
    requires Run(js, INIT, num, false).0.Count? && Run(js, INIT, num, true).0.Count?
    ensures Run(js, INIT, num, false).0 == Run(js, INIT, num, true).0
    ensures SameSpans(Run(js, INIT, num, false).1.toks, Run(js, INIT, num, true).1.toks)
  {
    RunTogether(js, INIT, INIT, num);
  }

  // ---------------------------------------------------------------- a text with different sizes

  /** "1:1,1": outside every bracket, a key, a value, and another value. */
  predicate LooseValue(js: string) { |js| == 5 && js[0] == js[2] == js[4] == '1' && js[1] == ':' && js[3] == ',' }

  const KEY := Token(Primitive, 0, 1, 1, -1)
  const VALUE := Token(Primitive, 2, 3, 0, 0)

  lemma LooseWords(js: string)
    requires LooseValue(js)
    ensures ScanPrimitive(js, 0) == Found(1) && ScanPrimitive(js, 2) == Found(3) && ScanPrimitive(js, 4) == Found(5)
  {
    assert ScanPrimitive(js, 1) == Found(1) && ScanPrimitive(js, 3) == Found(3) && ScanPrimitive(js, 5) == Found(5);
  }

  /** Up to the comma the builds do the same. */
  lemma LooseStart(js: string, num: nat, links: bool)
    requires LooseValue(js) && num >= 3
    ensures var key := KEY.(size := 0); var colon := State(2, 0, [key], 1);
      && Step(js, INIT, num, links) == Go(State(1, -1, [key], 1))
      && Step(js, State(1, -1, [key], 1), num, links) == Go(colon)
      && Step(js, colon, num, links) == Go(State(3, 0, [KEY, VALUE], 2))
  {
    LooseWords(js);
  }

  lemma LooseComma(js: string, num: nat)
    requires LooseValue(js) && num >= 3
    ensures Step(js, State(3, 0, [KEY, VALUE], 2), num, true) == Go(State(4, -1, [KEY, VALUE], 2))
    ensures Step(js, State(3, 0, [KEY, VALUE], 2), num, false) == Go(State(4, 0, [KEY, VALUE], 2))
  {
    var toks := [KEY, VALUE];
    assert toks[..1] == [KEY] && [KEY][..0] == [];
    assert LastOpenContainer([KEY]) == -1 && LastOpenContainer(toks) == -1;
  }

  lemma LooseEnd(js: string, num: nat)
    requires LooseValue(js) && num >= 3
    ensures Step(js, State(4, -1, [KEY, VALUE], 2), num, true) ==
            Go(State(5, -1, [KEY, VALUE, Token(Primitive, 4, 5, 0, -1)], 3))
    ensures Step(js, State(4, 0, [KEY, VALUE], 2), num, false) ==
            Go(State(5, 0, [KEY.(size := 2), VALUE, Token(Primitive, 4, 5, 0, 0)], 3))
  {
    LooseWords(js);
  }

  lemma LooseResult(js: string, st: State, num: nat, links: bool)
    requires LooseValue(js) && Ok(st) && st.pos == 5 && forall t :: t in st.toks ==> !t.Open()
    ensures Run(js, st, num, links) == (Count(st.count), st)
  {
    LastOpenOf(st.toks, -1);
  }

  /** Both builds succeed; behind the comma the one without parent links still counts for the key, which then has two
      children, the other does not. */
  lemma SizesDiffer(js: string, num: nat)
    requires LooseValue(js) && num >= 3
    ensures Run(js, INIT, num, false).0 == Run(js, INIT, num, true).0 == Count(3)
    ensures Run(js, INIT, num, false).1.toks[0].size == 2 && Run(js, INIT, num, true).1.toks[0].size == 1
  {
    LooseRun(js, num, false, 0, [KEY.(size := 2), VALUE, Token(Primitive, 4, 5, 0, 0)]);
    LooseRun(js, num, true, -1, [KEY, VALUE, Token(Primitive, 4, 5, 0, -1)]);
  }

  lemma LooseRun(js: string, num: nat, links: bool, super: int, toks: seq<Token>)
    requires LooseValue(js) && num >= 3
    requires if links then super == -1 && toks == [KEY, VALUE, Token(Primitive, 4, 5, 0, -1)]
             else super == 0 && toks == [KEY.(size := 2), VALUE, Token(Primitive, 4, 5, 0, 0)]
    ensures Run(js, INIT, num, links) == (Count(3), State(5, super, toks, 3))
  {
    var key := KEY.(size := 0);
    LooseStart(js, num, links);
    LooseComma(js, num);
    LooseEnd(js, num);
    RunRound(js, INIT, num, links);
    RunRound(js, State(1, -1, [key], 1), num, links);
    RunRound(js, State(2, 0, [key], 1), num, links);
    RunRound(js, State(3, 0, [KEY, VALUE], 2), num, links);
    RunRound(js, State(4, super, [KEY, VALUE], 2), num, links);
    LooseResult(js, State(5, super, toks, 3), num, links);
  }
}
