/** JSMN_ERROR_PART, which jsmn.h describes as an incomplete text: the call returns it, or succeeds, exactly on the texts
    that can be completed, and it returns it for every document that is cut short. */
module JsmnParts {
  import opened JsmnModel
  import opened JsmnModes
  import opened JsmnInvariants
  import opened JsmnLinks
  import opened JsmnTree
  import JsmnRuns

  // ---------------------------------------------------------------- scanning a longer text

  lemma MoreText(js: string, more: string, p: nat)
    ensures p < |js| ==> (js + more)[p] == js[p] && More(js + more, p) == More(js, p)
  {
  }

  lemma {:induction false} HexLonger(js: string, more: string, p: nat, n: nat)
    requires p <= |js|
    ensures ScanHex(js, p, n).Bad? ==> ScanHex(js + more, p, n).Bad?
    ensures ScanHex(js, p, n).Found? ==> ScanHex(js, p, n).at <= |js|
    ensures ScanHex(js, p, n).Found? && (More(js, ScanHex(js, p, n).at) || ScanHex(js, p, n).at == p + n) ==>
              ScanHex(js + more, p, n) == ScanHex(js, p, n)
    decreases n
  {
    MoreText(js, more, p);
    if n > 0 && More(js, p) && Hex(js[p]) { HexLonger(js, more, p + 1, n - 1); }
  }

  /** A string that is closed or wrong stays so. */
  lemma {:induction false} StringLonger(js: string, more: string, p: nat)
    requires p <= |js| && !ScanString(js, p).Short?
    ensures ScanString(js + more, p) == ScanString(js, p)
    decreases |js| - p
  {
    MoreText(js, more, p);
    if js[p] != '"' {
      if js[p] == '\\' && p + 1 < |js| {
        MoreText(js, more, p + 1);
        if SimpleEscape(js[p + 1]) {
          StringLonger(js, more, p + 2);
        } else if js[p + 1] == 'u' {
          UnicodeLonger(js, more, p + 2);
          if ScanHex(js, p + 2, 4).Found? { StringLonger(js, more, ScanHex(js, p + 2, 4).at); }
        }
      } else {
        StringLonger(js, more, p + 1);
      }
    }
  }

  lemma UnicodeLonger(js: string, more: string, p: nat)
    requires p <= |js| && (ScanHex(js, p, 4).Found? ==> !ScanString(js, ScanHex(js, p, 4).at).Short?)
    ensures ScanHex(js + more, p, 4) == ScanHex(js, p, 4)
    ensures ScanHex(js, p, 4).Found? ==> ScanHex(js, p, 4).at <= |js|
  {
    HexLonger(js, more, p, 4);
  }

  /** A primitive that is wrong stays so, and one that ends stays so unless it ends with the text. */
  lemma {:induction false} PrimitiveLonger(js: string, more: string, p: nat)
    requires p <= |js|
    ensures ScanPrimitive(js, p).Bad? ==> ScanPrimitive(js + more, p).Bad?
    ensures ScanPrimitive(js, p).Found? ==> p <= ScanPrimitive(js, p).at <= |js|
    ensures ScanPrimitive(js, p).Found? && (ScanPrimitive(js, p).at < |js| || Stops(js + more, |js|)) ==>
              ScanPrimitive(js + more, p) == ScanPrimitive(js, p)
    decreases |js| - p
  {
    MoreText(js, more, p);
    if More(js, p) && !Delimiter(js[p]) && Printable(js[p]) { PrimitiveLonger(js, more, p + 1); }
  }

  // ---------------------------------------------------------------- rounds on a longer text

  /** A primitive starts at p. */
  predicate Bare(js: string, p: nat) { More(js, p) && Allocates(js[p]) && !Opening(js[p]) && js[p] != '"' }

  /** A round does the same on a longer text, unless it reads a string that the text cuts off, or a primitive. */
  lemma RoundLonger(js: string, more: string, st: State, num: nat, links: bool)
    requires Ok(st) && More(js, st.pos) && !Bare(js, st.pos) && Step(js, st, num, links) != Halt(Part)
    ensures More(js + more, st.pos) && Step(js + more, st, num, links) == Step(js, st, num, links)
    ensures Step(js, st, num, links).Go? ==> Step(js, st, num, links).st.pos <= |js|
  {
    MoreText(js, more, st.pos);
    if js[st.pos] == '"' { StringLonger(js, more, st.pos + 1); }
  }

  /** A round that reads a primitive: the same, unless the primitive ends with the text. */
  lemma BareLonger(js: string, more: string, st: State, num: nat, links: bool)
    requires Ok(st) && Bare(js, st.pos)
    ensures More(js + more, st.pos) && Bare(js + more, st.pos)
    ensures var o := Step(js, st, num, links);
      && (o.Halt? ==> Step(js + more, st, num, links).Halt? && !Step(js + more, st, num, links).ret.Count?)
      && (o.Go? ==> o.st.pos <= |js|)
      && (o.Go? && (o.st.pos < |js| || Stops(js + more, |js|)) ==> Step(js + more, st, num, links) == o)
  {
    MoreText(js, more, st.pos);
    PrimitiveLonger(js, more, st.pos);
  }

  predicate Hopeful(ret: Ret) { ret.Count? || ret == Part }

  lemma RunStops(js: string, st: State, num: nat, links: bool)
    requires Ok(st) && !More(js, st.pos)
    ensures Run(js, st, num, links) == (if LastOpen(st.toks) == -1 then Count(st.count) else Part, st)
  {
  }

  /** If a longer text is accepted, the text itself is accepted or found incomplete. */
  lemma {:induction false} PrefixFrom(js: string, more: string, st: State, num: nat, links: bool)
    requires Ok(st) && st.pos <= |js| && Run(js + more, st, num, links).0.Count?
    ensures Hopeful(Run(js, st, num, links).0)
    decreases |js| - st.pos
  {
    if !More(js, st.pos) {
      RunStops(js, st, num, links);
    } else {
      RunRound(js, st, num, links);
      var o := Step(js, st, num, links);
      if Bare(js, st.pos) {
        BareLonger(js, more, st, num, links);
      } else if o != Halt(Part) {
        RoundLonger(js, more, st, num, links);
      }
      if o != Halt(Part) {
        RunRound(js + more, st, num, links);
        assert !o.Halt?;
        if o.st.pos == |js| { RunStops(js, o.st, num, links); } else { PrefixFrom(js, more, o.st, num, links); }
      }
    }
  }

  // ---------------------------------------------------------------- completing a text

  /** A loop head of the build at hand. */
  ghost predicate AtHead(st: State, links: bool) { if links then LinkHead(st) else Head(st) }

  lemma RoundFollows(js: string, st: State, num: nat, links: bool)
    requires AtHead(st, links) && More(js, st.pos) && Step(js, st, num, links).Go?
    ensures var next := Step(js, st, num, links).st;
      AtHead(next, links) && Stack(next.toks) == Shifted(js, st.pos, Stack(st.toks))
  {
    if links { LinkRound(js, st, num); } else { RoundShiftsStack(js, st, num); }
  }

  /** The closing brackets that a stack lacks, the innermost first. */
  function Closers(stack: seq<Bracket>): string {
    if stack == [] then []
    else [if stack[|stack| - 1].typ.Object? then '}' else ']'] + Closers(stack[..|stack| - 1])
  }

  lemma ClosingGoes(js: string, st: State, num: nat, links: bool)
    requires AtHead(st, links) && More(js, st.pos) && Closing(js[st.pos]) && Matches(js[st.pos], Stack(st.toks))
    ensures Step(js, st, num, links).Go? && Step(js, st, num, links).st.pos == st.pos + 1
  {
    StackTop(st.toks);
  }

  predicate OnlyContainers(stack: seq<Bracket>) { forall b :: b in stack ==> b.typ.Object? || b.typ.Array? }

  lemma {:induction false} ClosersFinish(js: string, st: State, num: nat, links: bool, stack: seq<Bracket>)
    requires AtHead(st, links) && st.pos <= |js| && Stack(st.toks) == stack && OnlyContainers(stack)
    requires js[st.pos..] == Closers(stack)
    ensures Run(js, st, num, links).0.Count?
    decreases |stack|
  {
    StackTop(st.toks);
    if stack == [] {
      RunStops(js, st, num, links);
    } else {
      assert js[st.pos] == js[st.pos..][0] && stack[|stack| - 1] in stack;
      ClosingGoes(js, st, num, links);
      RoundFollows(js, st, num, links);
      RunRound(js, st, num, links);
      var next := Step(js, st, num, links).st;
      assert js[next.pos..] == js[st.pos..][1..];
      ClosersFinish(js, next, num, links, stack[..|stack| - 1]);
    }
  }

  predicate NoNul(js: string) { forall c :: c in js ==> c != '\0' }

  lemma NoMore(js: string, p: nat)
    requires NoNul(js)
    ensures More(js, p) <==> p < |js|
  {
    if p < |js| { assert js[p] in js; }
  }

  /** Digits that the text cuts off can be supplied. */
  lemma {:induction false} HexFilled(js: string, p: nat, n: nat, ext: string)
    requires NoNul(js) && p <= |js| <= p + n && ScanHex(js, p, n) == Found(|js|)
    requires p + n <= |js + ext| && forall i :: |js| <= i < p + n ==> (js + ext)[i] == '0'
    ensures ScanHex(js + ext, p, n) == Found(p + n)
    decreases n
  {
    MoreText(js, ext, p);
    if n > 0 {
      if p < |js| { assert js[p] in js; HexFilled(js, p + 1, n - 1, ext); } else { HexZeros(js + ext, p, n); }
    }
  }

  lemma {:induction false} HexZeros(js: string, p: nat, n: nat)
    requires p + n <= |js| && forall i :: p <= i < p + n ==> js[i] == '0'
    ensures ScanHex(js, p, n) == Found(p + n)
    decreases n
  {
    if n > 0 { HexZeros(js, p + 1, n - 1); }
  }

  /** The text ends behind a backslash. */
  lemma BackslashCompleted(js: string, p: nat) returns (ext: string)
    requires p + 1 == |js| && js[p] == '\\'
    ensures ext != [] && ScanString(js + ext, p) == Found(|js + ext| - 1)
  {
    ext := ['\\', '"'];
    var all := js + ext;
    assert all[p] == '\\' && all[p + 1] == '\\' && all[p + 2] == '"';
    assert ScanString(all, p + 2) == Found(p + 2);
  }

  /** The text ends inside the digits of \uXXXX. */
  lemma DigitsCompleted(js: string, p: nat) returns (ext: string)
    requires NoNul(js) && p + 2 <= |js| < p + 6 && js[p] == '\\' && js[p + 1] == 'u' && ScanHex(js, p + 2, 4) == Found(|js|)
    ensures ext != [] && ScanString(js + ext, p) == Found(|js + ext| - 1)
  {
    var n := p + 6 - |js|;
    ext := seq(n, i => '0') + ['"'];
    var all := js + ext;
    assert all[p] == '\\' && all[p + 1] == 'u' && all[p + 6] == '"';
    HexFilled(js, p + 2, 4, ext);
    assert ScanString(all, p + 6) == Found(p + 6);
  }

  /** A \u escape that the text holds in full. */
  lemma UnicodeFull(js: string, more: string, p: nat)
    requires p + 6 <= |js| && js[p] == '\\' && js[p + 1] == 'u' && ScanHex(js, p + 2, 4) == Found(p + 6)
    ensures ScanString(js + more, p) == ScanString(js + more, p + 6)
  {
    HexLonger(js, more, p + 2, 4);
    MoreText(js, more, p);
    MoreText(js, more, p + 1);
  }

  lemma {:induction false} HexBounds(js: string, p: nat, n: nat)
    requires p <= |js| && ScanHex(js, p, n).Found?
    ensures var at := ScanHex(js, p, n).at; p <= at <= p + n && at <= |js| && (at < p + n ==> !More(js, at))
    decreases n
  {
    if n > 0 && More(js, p) { HexBounds(js, p + 1, n - 1); }
  }

  /** A string that the text cuts off can be finished. */
  lemma {:induction false} Completion(js: string, p: nat) returns (ext: string)
    requires p <= |js| && NoNul(js) && ScanString(js, p).Short?
    ensures ext != [] && ScanString(js + ext, p) == Found(|js + ext| - 1)
    decreases |js| - p
  {
    if p == |js| {
      ext := ['"'];
      assert (js + ext)[p] == '"';
    } else {
      assert js[p] in js;
      if js[p] == '\\' && p + 1 == |js| {
        ext := BackslashCompleted(js, p);
      } else if js[p] == '\\' && js[p + 1] == 'u' {
        ext := UnicodeCompleted(js, p);
      } else {
        var next := p + if js[p] == '\\' then 2 else 1;
        ext := Completion(js, next);
        MoreText(js, ext, p);
        MoreText(js, ext, p + 1);
      }
    }
  }

  lemma {:induction false} UnicodeCompleted(js: string, p: nat) returns (ext: string)
    requires p + 2 <= |js| && NoNul(js) && ScanString(js, p).Short? && js[p] == '\\' && js[p + 1] == 'u'
    ensures ext != [] && ScanString(js + ext, p) == Found(|js + ext| - 1)
    decreases |js| - p, 0
  {
    assert js[p] in js;
    HexBounds(js, p + 2, 4);
    var r := ScanHex(js, p + 2, 4).at;
    if r == p + 6 {
      ext := Completion(js, r);
      UnicodeFull(js, ext, p);
    } else {
      NoMore(js, r);
      ext := DigitsCompleted(js, p);
    }
  }

  /** The closing brackets behind a text that ends with brackets open. */
  lemma BracketsCompleted(js: string, st: State, num: nat, links: bool) returns (more: string)
    requires AtHead(st, links) && st.pos == |js| && OnlyContainers(Stack(st.toks)) && Run(js, st, num, links).0 == Part
    ensures Run(js + more, st, num + 1, links).0.Count? && Stops(js + more, |js|)
  {
    StackTop(st.toks);
    RunStops(js, st, num, links);
    more := Closers(Stack(st.toks));
    assert (js + more)[|js|..] == more && (js + more)[|js|] == more[0];
    ClosersFinish(js + more, st, num + 1, links, Stack(st.toks));
  }

  /** The rest of a string that the text cuts off, and the closing brackets. */
  lemma StringCompleted(js: string, st: State, num: nat, links: bool) returns (more: string)
    requires AtHead(st, links) && More(js, st.pos) && OnlyContainers(Stack(st.toks)) && NoNul(js) && |st.toks| <= num
    requires Step(js, st, num, links) == Halt(Part)
    ensures Run(js + more, st, num + 1, links).0.Count?
  {
    var ext := Completion(js, st.pos + 1);
    StringClosed(js, ext, st, num + 1, links);
    more := ext + Closers(Stack(st.toks));
    Concatenated(js, ext, Closers(Stack(st.toks)));
  }

  lemma StringClosed(js: string, ext: string, st: State, num: nat, links: bool)
    requires AtHead(st, links) && More(js, st.pos) && js[st.pos] == '"' && ext != [] && |st.toks| < num
    requires OnlyContainers(Stack(st.toks)) && ScanString(js + ext, st.pos + 1) == Found(|js + ext| - 1)
    ensures Run(js + ext + Closers(Stack(st.toks)), st, num, links).0.Count?
  {
    var closers := Closers(Stack(st.toks));
    StringGoes(js, ext, closers, st, num, links);
    Concatenated(js, ext, closers);
    StringFinished(js + ext + closers, |js + ext|, st, num, links);
  }

  /** Behind the string there are the closing brackets. */
  lemma StringFinished(all: string, at: nat, st: State, num: nat, links: bool)
    requires AtHead(st, links) && More(all, st.pos) && OnlyContainers(Stack(st.toks)) && at <= |all|
    requires Step(all, st, num, links).Go? && Step(all, st, num, links).st.pos == at && all[at..] == Closers(Stack(st.toks))
    requires Shifted(all, st.pos, Stack(st.toks)) == Stack(st.toks)
    ensures Run(all, st, num, links).0.Count?
  {
    RoundFollows(all, st, num, links);
    RunRound(all, st, num, links);
    ClosersFinish(all, Step(all, st, num, links).st, num, links, Stack(st.toks));
  }

  lemma Concatenated(js: string, ext: string, closers: string)
    ensures js + (ext + closers) == js + ext + closers && (js + ext + closers)[|js + ext|..] == closers
  {
  }

  lemma StringGoes(js: string, ext: string, closers: string, st: State, num: nat, links: bool)
    requires Ok(st) && More(js, st.pos) && js[st.pos] == '"' && ext != [] && |st.toks| < num
    requires ScanString(js + ext, st.pos + 1) == Found(|js + ext| - 1)
    ensures var all := js + ext + closers;
      && More(all, st.pos) && Step(all, st, num, links).Go? && Step(all, st, num, links).st.pos == |js + ext|
      && Shifted(all, st.pos, Stack(st.toks)) == Stack(st.toks)
  {
    MoreText(js, ext, st.pos);
    MoreText(js + ext, closers, st.pos);
    StringLonger(js + ext, closers, st.pos + 1);
  }

  lemma RoundRoom(js: string, st: State, num: nat, links: bool)
    requires Ok(st) && More(js, st.pos) && Step(js, st, num, links).Go? && |st.toks| <= num
    ensures |Step(js, st, num, links).st.toks| <= num && Step(js, st, num + 1, links) == Step(js, st, num, links)
  {
  }

  lemma ShiftedContainers(js: string, p: nat, stack: seq<Bracket>)
    requires p < |js| && OnlyContainers(stack)
    ensures OnlyContainers(Shifted(js, p, stack))
  {
  }

  lemma {:induction false} CompletedFrom(js: string, st: State, num: nat, links: bool) returns (more: string)
    requires AtHead(st, links) && st.pos <= |js| && OnlyContainers(Stack(st.toks)) && NoNul(js) && |st.toks| <= num
    requires Run(js, st, num, links).0 == Part
    ensures Run(js + more, st, num + 1, links).0.Count? && (st.pos == |js| ==> Stops(js + more, |js|))
    decreases |js| - st.pos
  {
    if st.pos == |js| {
      more := BracketsCompleted(js, st, num, links);
    } else {
      assert js[st.pos] in js;
      RunRound(js, st, num, links);
      var o := Step(js, st, num, links);
      if o.Halt? {
        more := StringCompleted(js, st, num, links);
      } else {
        RoundFollows(js, st, num, links);
        ShiftedContainers(js, st.pos, Stack(st.toks));
        RoundRoom(js, st, num, links);
        RoundEnds(js, st, num, links);
        more := CompletedFrom(js, o.st, num, links);
        RoundsAgree(js, more, st, num, links, o.st);
      }
    }
  }

  lemma RoundEnds(js: string, st: State, num: nat, links: bool)
    requires Ok(st) && More(js, st.pos) && Step(js, st, num, links).Go?
    ensures Step(js, st, num, links).st.pos <= |js|
  {
    if Bare(js, st.pos) { BareLonger(js, [], st, num, links); } else { RoundLonger(js, [], st, num, links); }
  }

  lemma RoundsAgree(js: string, more: string, st: State, num: nat, links: bool, next: State)
    requires Ok(st) && More(js, st.pos) && Step(js, st, num, links) == Go(next) && |st.toks| <= num
    requires next.pos < |js| || Stops(js + more, |js|)
    ensures Ok(next) && Run(js + more, st, num + 1, links) == Run(js + more, next, num + 1, links)
  {
    RoundRoom(js, st, num, links);
    RoundSame(js, more, st, num + 1, links, next);
    RunGoes(js + more, st, num + 1, links, next);
  }

  lemma RunGoes(all: string, st: State, num: nat, links: bool, next: State)
    requires Ok(st) && More(all, st.pos) && Step(all, st, num, links) == Go(next)
    ensures Ok(next) && Run(all, st, num, links) == Run(all, next, num, links)
  {
    RunRound(all, st, num, links);
  }

  lemma RoundSame(js: string, more: string, st: State, num: nat, links: bool, next: State)
    requires Ok(st) && More(js, st.pos) && Step(js, st, num, links) == Go(next)
    requires next.pos < |js| || Stops(js + more, |js|)
    ensures More(js + more, st.pos) && Step(js + more, st, num, links) == Go(next)
  {
    if Bare(js, st.pos) { BareLonger(js, more, st, num, links); } else { RoundLonger(js, more, st, num, links); }
  }

  // ---------------------------------------------------------------- incomplete texts, exactly

  /** Some continuation of the text is accepted, with some number of tokens. */
  ghost predicate Completable(js: string, links: bool) {
    exists more: string, num: nat :: Run(js + more, INIT, num, links).0.Count?
  }

  lemma PartIsCompletable(js: string, num: nat, links: bool)
    requires NoNul(js) && Hopeful(Run(js, INIT, num, links).0)
    ensures Completable(js, links)
  {
    if Run(js, INIT, num, links).0 == Part {
      var more := CompletedFrom(js, INIT, num, links);
      assert Run(js + more, INIT, num + 1, links).0.Count?;
    } else {
      assert js + [] == js;
      assert Run(js + [], INIT, num, links).0.Count?;
    }
  }

  /** No text has more tokens than characters. */
  lemma {:induction false} OnePerCharacter(js: string, st: State, num: nat, links: bool)
    requires Ok(st) && |st.toks| <= st.pos && |js| <= num
    ensures Run(js, st, num, links).0 != NoMem
    decreases |js| - st.pos
  {
    if More(js, st.pos) {
      RunRound(js, st, num, links);
      if Step(js, st, num, links).Go? {
        RoundCounts(js, st, num, links);
        OnePerCharacter(js, Step(js, st, num, links).st, num, links);
      } else if Step(js, st, num, links).ret == NoMem {
        RoundNoMem(js, st, num, links);
      }
    }
  }

  /** With room for a token per character, a call succeeds or returns JSMN_ERROR_PART if and only if the text can be
      completed; it refuses a text only if every continuation is refused. */
  lemma PartExactly(js: string, num: nat, links: bool)
    requires NoNul(js) && |js| <= num
    ensures Hopeful(Run(js, INIT, num, links).0) <==> Completable(js, links)
  {
    if Hopeful(Run(js, INIT, num, links).0) { PartIsCompletable(js, num, links); }
    if Completable(js, links) {
      var more: string, n: nat :| Run(js + more, INIT, n, links).0.Count?;
      PrefixFrom(js, more, INIT, n, links);
      OnePerCharacter(js, INIT, num, links);
      if n <= num { SameWithMore(js, INIT, n, num, links); } else { SameWithMore(js, INIT, num, n, links); }
    }
  }

  // ---------------------------------------------------------------- documents cut short

  /** A token that is closed keeps its end. */
  lemma {:induction false} StaysClosed(js: string, st: State, num: nat, links: bool)
    requires Ok(st) && st.toks != [] && !st.toks[0].Open()
    ensures var toks := Run(js, st, num, links).1.toks; toks != [] && toks[0].end == st.toks[0].end
    decreases |js| - st.pos
  {
    if More(js, st.pos) {
      RunRound(js, st, num, links);
      if Step(js, st, num, links).Go? {
        FirstToken(js, st, num, links);
        StaysClosed(js, Step(js, st, num, links).st, num, links);
      }
    }
  }

  /** The first token: a round leaves it as it is, or closes it behind the cursor. */
  ghost predicate Ended(st: State) { st.toks != [] && st.toks[0].start != -1 && (st.toks[0].Open() || st.toks[0].end <= st.pos) }

  lemma FirstToken(js: string, st: State, num: nat, links: bool)
    requires Ok(st) && st.toks != [] && More(js, st.pos) && Step(js, st, num, links).Go?
    ensures var next := Step(js, st, num, links).st;
      && next.toks != [] && next.toks[0].start == st.toks[0].start
      && (!st.toks[0].Open() ==> next.toks[0].end == st.toks[0].end && !next.toks[0].Open())
      && (Ended(st) ==> Ended(next)) && (Bare(js, st.pos) ==> next.toks[0].Open() == st.toks[0].Open())
  {
  }

  /** If a text and a longer one are accepted, the first token ends inside the shorter. */
  lemma {:induction false} EndsInside(js: string, more: string, st: State, num: nat, links: bool)
    requires Ok(st) && Ended(st) && st.pos <= |js|
    requires Run(js, st, num, links).0.Count? && Run(js + more, st, num, links).0.Count?
    ensures var toks := Run(js + more, st, num, links).1.toks; toks != [] && toks[0].end <= |js|
    decreases |js| - st.pos
  {
    if !More(js, st.pos) {
      RunStops(js, st, num, links);
      StaysClosed(js + more, st, num, links);
    } else {
      RunRound(js, st, num, links);
      FirstToken(js, st, num, links);
      RoundEnds(js, st, num, links);
      var next := Step(js, st, num, links).st;
      if Bare(js, st.pos) && next.pos == |js| {
        RunStops(js, next, num, links);
        StaysClosed(js + more, st, num, links);
      } else {
        StepBoth(js, more, st, num, links);
        EndsInside(js, more, next, num, links);
      }
    }
  }

  lemma StepBoth(js: string, more: string, st: State, num: nat, links: bool)
    requires Ok(st) && More(js, st.pos) && Step(js, st, num, links).Go?
    requires !Bare(js, st.pos) || Step(js, st, num, links).st.pos < |js|
    ensures Run(js + more, st, num, links) == Run(js + more, Step(js, st, num, links).st, num, links)
  {
    if Bare(js, st.pos) { BareLonger(js, more, st, num, links); } else { RoundLonger(js, more, st, num, links); }
    RunGoes(js + more, st, num, links, Step(js, st, num, links).st);
  }

  /** An array, object or string that is cut off inside is found incomplete, in either build. */
  lemma TruncatedIsPart(before: string, v: Value, after: string, num: nat, links: bool, js: string, more: string)
    requires Spaces(before) && OkValue(v) && Spaces(after) && Nodes(v) <= num && !v.Prim?
    requires js + more == before + (Text(v) + after) && |before| < |js| < |before| + |Text(v)|
    ensures Run(js, INIT, num, links).0 == Part
  {
    var start := INIT.(pos := |before|);
    BeforeValue(before, v, after, js, more);
    SpacesRead(js, before, num, links, start);
    if v.Str? {
      CutString(js, more, start, num, links, v.body);
    } else {
      SpacesRead(js + more, before, num, links, start);
      ListsFirst(before, v, after, num, links, js + more);
      PrefixFrom(js, more, start, num, links);
      CutContainer(js, more, start, num, links);
    }
  }

  lemma SpacesRead(js: string, before: string, num: nat, links: bool, start: State)
    requires Spaces(before) && Has(js, 0, before) && start == INIT.(pos := |before|)
    ensures Ok(start) && Run(js, INIT, num, links) == Run(js, start, num, links)
  {
    JsmnRuns.RunSpaces(js, INIT, num, links, before);
    JsmnRuns.LeadsToSameResult(js, INIT, start, num, links);
  }

  /** The whole document: its own token comes first and ends behind it. */
  lemma ListsFirst(before: string, v: Value, after: string, num: nat, links: bool, js: string)
    requires Spaces(before) && OkValue(v) && Spaces(after) && Nodes(v) <= num && (v.Arr? || v.Obj?)
    requires js == before + (Text(v) + after)
    ensures Run(js, INIT, num, links).0.Count?
    ensures var toks := Run(js, INIT, num, links).1.toks; toks != [] && toks[0].end == |before| + |Text(v)|
  {
    JsmnRuns.ParseListsTheTree(before, v, after, num, links);
  }

  lemma BeforeValue(before: string, v: Value, after: string, js: string, more: string)
    requires js + more == before + (Text(v) + after) && |before| < |js| <= |before| + |Text(v)| && !v.Prim?
    ensures Has(js, 0, before) && Has(js + more, 0, before) && Has(js + more, |before|, Text(v))
    ensures js[|before|] == Text(v)[0]
  {
    var all := js + more;
    assert Has(all, 0, before + (Text(v) + after));
    HasSplit(all, 0, before, Text(v) + after);
    HasSplit(all, |before|, Text(v), after);
    assert all[|before|] == Text(v)[0] && all[|before|] == js[|before|];
    assert forall i :: 0 <= i < |before| ==> js[i] == all[i];
  }

  lemma CutString(js: string, more: string, st: State, num: nat, links: bool, body: seq<Piece>)
    requires Ok(st) && OkBody(body) && Has(js + more, st.pos, Quoted(body))
    requires st.pos < |js| < st.pos + |Quoted(body)| && js[st.pos] == '"'
    ensures Run(js, st, num, links).0 == Part
  {
    JsmnRuns.ScanQuoted(js + more, st.pos, body);
    if !ScanString(js, st.pos + 1).Short? { StringLonger(js, more, st.pos + 1); }
    RunRound(js, st, num, links);
  }

  lemma CutContainer(js: string, more: string, st: State, num: nat, links: bool)
    requires Ok(st) && st.toks == [] && st.toksuper == -1 && More(js, st.pos) && Opening(js[st.pos]) && 0 < num
    requires Run(js + more, st, num, links).0.Count? && Hopeful(Run(js, st, num, links).0)
    requires var toks := Run(js + more, st, num, links).1.toks; toks != [] && toks[0].end > |js|
    ensures Run(js, st, num, links).0 == Part
  {
    RunRound(js, st, num, links);
    StepBoth(js, more, st, num, links);
    var next := Step(js, st, num, links).st;
    assert Ended(next) && next.pos <= |js|;
    if Run(js, next, num, links).0.Count? { EndsInside(js, more, next, num, links); }
  }
}
