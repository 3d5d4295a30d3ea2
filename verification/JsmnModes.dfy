/** The counting call (tokens == NULL) and the restart after JSMN_ERROR_NOMEM, against the full run. */
module JsmnModes {
  import opened JsmnModel

  // ---------------------------------------------------------------- counting

  datatype CountOutcome = CountGo(pos: nat, count: nat) | CountHalt(ret: Ret)

  /** One round of jsmn_parse without a token array. */
  function CountStep(js: string, pos: nat, count: nat): (o: CountOutcome)
    requires More(js, pos)
    ensures o.CountGo? ==> o.pos > pos && count <= o.count <= count + 1
  {
    var c := js[pos];
    if c == '{' || c == '[' then CountGo(pos + 1, count + 1)
    else if c == '}' || c == ']' then CountGo(pos + 1, count)
    else if c == '"' then
      match ScanString(js, pos + 1)
      case Found(q) => CountGo(q + 1, count + 1)
      case Bad => CountHalt(Inval)
      case Short => CountHalt(Part)
    else if Space(c) || c == ':' || c == ',' then CountGo(pos + 1, count)
    else
      match ScanPrimitive(js, pos)
      case Found(q) => CountGo(q, count + 1)
      case _ => CountHalt(Inval)
  }

  function CountRun(js: string, pos: nat, count: nat): (r: Ret)
    ensures r.Count? ==> r.n >= count
    decreases |js| - pos
  {
    if !More(js, pos) then Count(count)
    else
      match CountStep(js, pos, count)
      case CountGo(next, n) => CountRun(js, next, n)
      case CountHalt(ret) => ret
  }

  /** A round that goes on moves the cursor and the count as the counting round does, and allocates what it counts. */
  lemma RoundCounts(js: string, st: State, num: nat, links: bool)
    requires Ok(st) && More(js, st.pos) && Step(js, st, num, links).Go?
    ensures var next := Step(js, st, num, links).st;
      CountStep(js, st.pos, st.count) == CountGo(next.pos, next.count) &&
      |next.toks| - |st.toks| == next.count - st.count
  {
  }

  /** Whenever the full call succeeds, the counting call returns the same number. */
  lemma {:induction false} CountingAgrees(js: string, st: State, num: nat, links: bool)
    requires Ok(st) && Run(js, st, num, links).0.Count?
    ensures CountRun(js, st.pos, st.count) == Run(js, st, num, links).0
    decreases |js| - st.pos
  {
    if More(js, st.pos) {
      RoundCounts(js, st, num, links);
      CountingAgrees(js, Step(js, st, num, links).st, num, links);
    }
  }

  /** Only a lack of room makes a round stop with NoMem, and then the counting round goes on and counts. */
  lemma RoundNoMem(js: string, st: State, num: nat, links: bool)
    requires Ok(st) && More(js, st.pos) && Step(js, st, num, links) == Halt(NoMem)
    ensures num <= |st.toks|
    ensures CountStep(js, st.pos, st.count).CountGo? && CountStep(js, st.pos, st.count).count == st.count + 1
  {
  }

  /** An array with room for the number that the counting call returned never runs out. */
  lemma {:induction false} CountedIsEnough(js: string, st: State, num: nat, links: bool)
    requires Ok(st) && |st.toks| == st.count
    requires CountRun(js, st.pos, st.count).Count? && CountRun(js, st.pos, st.count).n <= num
    ensures Run(js, st, num, links).0 != NoMem
    decreases |js| - st.pos
  {
    if More(js, st.pos) {
      match Step(js, st, num, links)
      case Go(next) =>
        RoundCounts(js, st, num, links);
        CountedIsEnough(js, next, num, links);
      case Halt(ret) =>
        if ret == NoMem { RoundNoMem(js, st, num, links); }
    }
  }

  // ---------------------------------------------------------------- more room

  /** A round that does not run out of tokens does the same with more of them. */
  lemma RoundWithMore(js: string, st: State, num: nat, more: nat, links: bool)
    requires Ok(st) && More(js, st.pos) && num <= more && Step(js, st, num, links) != Halt(NoMem)
    ensures Step(js, st, more, links) == Step(js, st, num, links)
  {
  }

  /** Any array that holds the tokens of a finished run gives the same result as a larger one. */
  lemma {:induction false} SameWithMore(js: string, st: State, num: nat, more: nat, links: bool)
    requires Ok(st) && num <= more && Run(js, st, num, links).0 != NoMem
    ensures Run(js, st, more, links) == Run(js, st, num, links)
    decreases |js| - st.pos
  {
    if More(js, st.pos) {
      RoundWithMore(js, st, num, more, links);
      match Step(js, st, num, links)
      case Go(next) => SameWithMore(js, next, num, more, links);
      case Halt(_) =>
    }
  }

  /** Counting first and then parsing into an array of the counted size is parsing into any larger array. */
  lemma CountThenParse(js: string, num: nat, more: nat, links: bool)
    requires CountRun(js, 0, 0) == Count(num) && num <= more
    ensures Run(js, INIT, num, links) == Run(js, INIT, more, links)
    ensures Run(js, INIT, more, links).0.Count? ==> Run(js, INIT, more, links).0 == Count(num)
  {
    CountedIsEnough(js, INIT, num, links);
    SameWithMore(js, INIT, num, more, links);
    if Run(js, INIT, more, links).0.Count? { CountingAgrees(js, INIT, more, links); }
  }

  // ---------------------------------------------------------------- restart

  /** A run that stopped for lack of tokens is a prefix of the run with more tokens: going on from where it
      stopped ends in the same state. */
  lemma {:induction false} NoMemIsPrefix(js: string, st: State, num: nat, more: nat, links: bool)
    requires Ok(st) && num <= more && Run(js, st, num, links).0 == NoMem
    ensures var stopped := Run(js, st, num, links).1;
      Ok(stopped) && Run(js, stopped, more, links) == Run(js, st, more, links)
      && stopped.count - st.count == |stopped.toks| - |st.toks| && num <= |stopped.toks|
    decreases |js| - st.pos
  {
    match Step(js, st, num, links)
    case Go(next) =>
      RoundWithMore(js, st, num, more, links);
      RoundCounts(js, st, num, links);
      NoMemIsPrefix(js, next, num, more, links);
    case Halt(_) => RoundNoMem(js, st, num, links);
  }

  function Shift(st: State, d: nat): State { st.(count := st.count + d) }

  function ShiftOutcome(o: Outcome, d: nat): Outcome { if o.Go? then Go(Shift(o.st, d)) else o }

  function ShiftResult(r: (Ret, State), d: nat): (Ret, State) {
    (if r.0.Count? then Count(r.0.n + d) else r.0, Shift(r.1, d))
  }

  /** The local count only shifts what a call returns. */
  lemma {:induction false} CountShifts(js: string, st: State, d: nat, num: nat, links: bool)
    requires Ok(st)
    ensures Run(js, Shift(st, d), num, links) == ShiftResult(Run(js, st, num, links), d)
    decreases |js| - st.pos
  {
    if More(js, st.pos) {
      RunRound(js, st, num, links);
      RoundShifts(js, st, d, num, links);
      RunRound(js, Shift(st, d), num, links);
      var o := Step(js, st, num, links);
      if o.Go? { CountShifts(js, o.st, d, num, links); }
    }
  }

  lemma RunRound(js: string, st: State, num: nat, links: bool)
    requires Ok(st) && More(js, st.pos)
    ensures var o := Step(js, st, num, links);
      Run(js, st, num, links) == if o.Go? then Run(js, o.st, num, links) else (o.ret, st)
  {
  }

  lemma OpenShifts(js: string, st: State, d: nat, num: nat)
    requires Ok(st) && st.pos < |js|
    ensures OpenBracket(js, Shift(st, d), num) == ShiftOutcome(OpenBracket(js, st, num), d)
  {
  }

  lemma CloseShifts(js: string, st: State, d: nat, links: bool)
    requires Ok(st) && st.pos < |js|
    ensures CloseBracket(js, Shift(st, d), links) == ShiftOutcome(CloseBracket(js, st, links), d)
  {
  }

  lemma AtomShifts(st: State, d: nat, num: nat, typ: TokenType, start: nat, end: nat, pos: nat)
    requires Ok(st)
    ensures Atom(Shift(st, d), num, typ, start, end, pos) == ShiftOutcome(Atom(st, num, typ, start, end, pos), d)
  {
  }

  lemma CommaShifts(st: State, d: nat, links: bool)
    requires Ok(st)
    ensures Comma(Shift(st, d), links) == ShiftOutcome(Comma(st, links), d)
  {
  }

  lemma StringShifts(js: string, st: State, d: nat, num: nat, links: bool)
    requires Ok(st) && More(js, st.pos) && js[st.pos] == '"'
    ensures Step(js, Shift(st, d), num, links) == ShiftOutcome(Step(js, st, num, links), d)
  {
    var scan := ScanString(js, st.pos + 1);
    if scan.Found? { AtomShifts(st, d, num, String, st.pos + 1, scan.at, scan.at + 1); }
  }

  lemma BracketShifts(js: string, st: State, d: nat, num: nat, links: bool)
    requires Ok(st) && More(js, st.pos) && js[st.pos] in {'{', '[', '}', ']'}
    ensures Step(js, Shift(st, d), num, links) == ShiftOutcome(Step(js, st, num, links), d)
  {
    OpenShifts(js, st, d, num);
    CloseShifts(js, st, d, links);
  }

  lemma RoundShifts(js: string, st: State, d: nat, num: nat, links: bool)
    requires Ok(st) && More(js, st.pos)
    ensures Step(js, Shift(st, d), num, links) == ShiftOutcome(Step(js, st, num, links), d)
  {
    var c, p := js[st.pos], st.pos;
    if c in {'{', '[', '}', ']'} {
      BracketShifts(js, st, d, num, links);
    } else if c == '"' {
      StringShifts(js, st, d, num, links);
    } else {
      CommaShifts(st, d, links);
      var scan := ScanPrimitive(js, p);
      if scan.Found? { AtomShifts(st, d, num, Primitive, p, scan.at, scan.at); }
    }
  }

  /** After JSMN_ERROR_NOMEM, a second call with a larger array that keeps the old tokens ends with the parser and
      the tokens of one call with the larger array; what it returns counts exactly the new tokens. */
  lemma RestartContinues(js: string, num: nat, more: nat, links: bool)
    requires num <= more && Run(js, INIT, num, links).0 == NoMem
    ensures var first := Run(js, INIT, num, links).1;
      var (ret, second) := Run(js, first.(count := 0), more, links);
      var (ret1, whole) := Run(js, INIT, more, links);
      && second.pos == whole.pos && second.toksuper == whole.toksuper && second.toks == whole.toks
      && (ret1.Count? ==> ret == Count(|second.toks| - |first.toks|))
      && (!ret1.Count? ==> ret == ret1)
  {
    RestartFrom(js, INIT, num, more, links);
  }

  lemma RestartFrom(js: string, st: State, num: nat, more: nat, links: bool)
    requires Ok(st) && |st.toks| == st.count && num <= more && Run(js, st, num, links).0 == NoMem
    ensures var first := Run(js, st, num, links).1;
      var (ret, second) := Run(js, first.(count := 0), more, links);
      var (ret1, whole) := Run(js, st, more, links);
      && second.pos == whole.pos && second.toksuper == whole.toksuper && second.toks == whole.toks
      && (ret1.Count? ==> ret == Count(|second.toks| - |first.toks|))
      && (!ret1.Count? ==> ret == ret1)
  {
    var first := Run(js, st, num, links).1;
    NoMemIsPrefix(js, st, num, more, links);
    RestartShifts(js, first, first.(count := 0), more, links);
    AllCounted(js, st, more, links);
  }

  /** A call's local count starts at zero, whatever the parser has seen before. */
  lemma RestartShifts(js: string, first: State, again: State, num: nat, links: bool)
    requires Ok(first) && again == first.(count := 0)
    ensures var (ret, second) := Run(js, again, num, links);
      var (ret1, whole) := Run(js, first, num, links);
      && whole == second.(count := second.count + first.count)
      && ret1 == if ret.Count? then Count(ret.n + first.count) else ret
  {
    assert Shift(again, first.count) == first;
    CountShifts(js, again, first.count, num, links);
  }

  lemma {:induction false} AllCounted(js: string, st: State, num: nat, links: bool)
    requires Ok(st) && |st.toks| == st.count
    ensures var (ret, end) := Run(js, st, num, links); |end.toks| == end.count && (ret.Count? ==> ret.n == end.count)
    decreases |js| - st.pos
  {
    if More(js, st.pos) {
      match Step(js, st, num, links)
      case Go(next) =>
        RoundCounts(js, st, num, links);
        AllCounted(js, next, num, links);
      case Halt(_) =>
    }
  }
}
