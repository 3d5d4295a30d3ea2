/** jsmn_parse on the text of a JSON value: proof that every run ends with the value's listing. */
module JsmnRuns {
  import opened JsmnModel
  import opened JsmnTree
  import JsmnModes

  /** The container at `a` is the innermost open one, found by the backward scan and by the parent links alike. */
  ghost predicate Inside(toks: seq<Token>, a: nat) {
    && ParentsBelow(toks) && a < |toks| && toks[a].Open() && toks[a].Container()
    && LastOpen(toks) == a && Climb(toks, |toks| - 1) == a
  }

  lemma {:induction false} LastOpenAppend(toks: seq<Token>, more: seq<Token>)
    requires Closed(more)
    ensures LastOpen(toks + more) == LastOpen(toks)
    decreases |more|
  {
    if more == [] {
      assert toks + more == toks;
    } else {
      var n := |more| - 1;
      assert more[n] in more && (toks + more)[..|toks| + n] == toks + more[..n];
      LastOpenAppend(toks, more[..n]);
    }
  }

  lemma {:induction false} LastOpenSame(a: seq<Token>, b: seq<Token>)
    requires |a| == |b| && forall k :: 0 <= k < |a| ==> a[k].Open() == b[k].Open()
    ensures LastOpen(a) == LastOpen(b)
  {
    if a != [] { LastOpenSame(a[..|a| - 1], b[..|b| - 1]); }
  }

  /** Walks look at openness and parents only. */
  lemma {:induction false} ClimbSame(a: seq<Token>, b: seq<Token>, i: nat)
    requires i < |a| == |b| && ParentsBelow(a) && ParentsBelow(b)
    requires forall k :: 0 <= k < |a| ==> a[k].Open() == b[k].Open() && a[k].parent == b[k].parent
    ensures Climb(a, i) == Climb(b, i)
    decreases i
  {
    if !a[i].Open() && a[i].parent != -1 { ClimbSame(a, b, a[i].parent); }
  }

  lemma InsideBumped(toks: seq<Token>, a: nat)
    requires Inside(toks, a)
    ensures Inside(Bump(toks, a), a)
  {
    ClimbSame(toks, Bump(toks, a), |toks| - 1);
    LastOpenSame(toks, Bump(toks, a));
  }

  lemma InsideAppended(toks: seq<Token>, a: nat, more: seq<Token>)
    requires Inside(toks, a) && Finished(more, |toks|, a)
    ensures Inside(toks + more, a)
  {
    LastOpenAppend(toks, more);
    ClimbExit(toks, more, |toks| + |more| - 1);
    if more == [] { assert toks + more == toks; }
  }

  /** Counting one more child and appending a finished piece under the container leaves it the innermost open one. */
  lemma InsideAfter(toks: seq<Token>, a: nat, more: seq<Token>)
    requires Inside(toks, a) && Finished(more, |toks|, a)
    ensures Inside(Bump(toks, a) + more, a)
  {
    InsideBumped(toks, a);
    InsideAppended(Bump(toks, a), a, more);
  }

  /** Opening a container makes it the innermost open one. */
  lemma InsideOpened(toks: seq<Token>, tok: Token)
    requires ParentsBelow(toks) && -1 <= tok.parent < |toks| && tok.Open() && tok.Container()
    ensures Inside(toks + [tok], |toks|)
  {
  }

  // ---------------------------------------------------------------- single rounds

  /** Marks the states whose round a proof looks at. */
  predicate Round(s: State) { true }

  /** P gives the same answer before and after every round of the main loop. */
  ghost predicate Stable(P: State -> bool, js: string, num: nat, links: bool) {
    forall s {:trigger Round(s)} :: Round(s) && Ok(s) && More(js, s.pos) && Step(js, s, num, links).Go? ==>
      P(s) == P(Step(js, s, num, links).st)
  }

  /** The rounds lead from s to t: no stable property tells them apart. */
  ghost predicate Leads(js: string, s: State, t: State, num: nat, links: bool) {
    Ok(s) && Ok(t) && forall P: State -> bool :: Stable(P, js, num, links) ==> P(s) == P(t)
  }

  lemma OneRound(js: string, s: State, t: State, num: nat, links: bool)
    requires Ok(s) && More(js, s.pos) && Step(js, s, num, links) == Go(t)
    ensures Leads(js, s, t, num, links)
  {
    assert Round(s);
  }

  /** A round does not change what the call will return. */
  ghost predicate Returns(js: string, u: State, num: nat, links: bool, result: (Ret, State)) {
    Ok(u) && Run(js, u, num, links) == result
  }

  lemma RoundReturns(js: string, u: State, num: nat, links: bool, result: (Ret, State))
    requires Ok(u) && More(js, u.pos) && Step(js, u, num, links).Go?
    ensures Returns(js, u, num, links, result) == Returns(js, Step(js, u, num, links).st, num, links, result)
  {
    JsmnModes.RunRound(js, u, num, links);
  }

  /** States that lead to each other have the same outcome. */
  lemma LeadsToSameResult(js: string, s: State, t: State, num: nat, links: bool)
    requires Leads(js, s, t, num, links)
    ensures Run(js, s, num, links) == Run(js, t, num, links)
  {
    var result := Run(js, t, num, links);
    var P := (u: State) => Returns(js, u, num, links, result);
    forall u | Round(u) && Ok(u) && More(js, u.pos) && Step(js, u, num, links).Go?
      ensures P(u) == P(Step(js, u, num, links).st)
    {
      RoundReturns(js, u, num, links, result);
    }
    assert Stable(P, js, num, links) && P(t);
  }

  lemma {:induction false} SkipSpaces(js: string, st: State, num: nat, links: bool, n: nat)
    requires Ok(st) && forall i :: st.pos <= i < st.pos + n ==> More(js, i) && Space(js[i])
    ensures Leads(js, st, st.(pos := st.pos + n), num, links)
    decreases n
  {
    if n > 0 {
      SkipSpaces(js, st, num, links, n - 1);
      OneRound(js, st.(pos := st.pos + n - 1), st.(pos := st.pos + n), num, links);
    }
  }

  lemma RunSpaces(js: string, st: State, num: nat, links: bool, w: string)
    requires Ok(st) && Spaces(w) && Has(js, st.pos, w)
    ensures Leads(js, st, st.(pos := st.pos + |w|), num, links)
  {
    forall i | st.pos <= i < st.pos + |w|
      ensures More(js, i) && Space(js[i])
    {
      assert js[i] == w[i - st.pos] && w[i - st.pos] in w;
    }
    SkipSpaces(js, st, num, links, |w|);
  }

  lemma StepPrimitive(js: string, st: State, num: nat, links: bool, text: string)
    requires Ok(st) && OkPrimitive(text) && Has(js, st.pos, text) && Stops(js, st.pos + |text|) && |st.toks| < num
    ensures More(js, st.pos)
    ensures Step(js, st, num, links) ==
            Atom(st, num, Primitive, st.pos, st.pos + |text|, st.pos + |text|)
  {
    assert js[st.pos] == text[0] && text[0] in text;
    ScanText(js, st.pos, text);
  }

  lemma StepString(js: string, st: State, num: nat, links: bool, body: seq<Piece>)
    requires Ok(st) && OkBody(body) && Has(js, st.pos, Quoted(body)) && |st.toks| < num
    ensures More(js, st.pos)
    ensures Step(js, st, num, links) ==
            Atom(st, num, String, st.pos + 1, st.pos + 1 + |BodyText(body)|, st.pos + |Quoted(body)|)
  {
    ScanQuoted(js, st.pos, body);
  }

  lemma ScanQuoted(js: string, p: nat, body: seq<Piece>)
    requires OkBody(body) && Has(js, p, Quoted(body))
    ensures More(js, p) && js[p] == '"'
    ensures ScanString(js, p + 1) == Found(p + 1 + |BodyText(body)|)
  {
    assert Quoted(body) == ['"'] + (BodyText(body) + ['"']);
    HasSplit(js, p, ['"'], BodyText(body) + ['"']);
    assert js[p] == ['"'][0];
    ScanBody(js, p + 1, body);
  }

  /** The parser after the innermost container at `a` has been closed at st.pos. */
  function AfterClose(st: State, links: bool, a: nat): State
    requires Ok(st) && a < |st.toks|
  {
    State(st.pos + 1, if links then st.toks[a].parent else LastOpen(st.toks[..a]),
          st.toks[a := st.toks[a].(end := st.pos + 1)], st.count)
  }

  lemma StepClose(js: string, st: State, num: nat, links: bool, a: nat)
    requires Ok(st) && Inside(st.toks, a) && More(js, st.pos)
    requires js[st.pos] == (if st.toks[a].typ.Object? then '}' else ']')
    ensures Step(js, st, num, links) == Go(AfterClose(st, links, a))
  {
  }

  lemma StepComma(js: string, st: State, num: nat, links: bool, a: nat)
    requires Ok(st) && Inside(st.toks, a) && More(js, st.pos) && js[st.pos] == ','
    requires st.toksuper == a || (st.toksuper >= 0 && st.toks[st.toksuper].typ.String? && st.toks[st.toksuper].parent == a)
    ensures Step(js, st, num, links) == Go(st.(pos := st.pos + 1, toksuper := a))
  {
    LastOpenContainerIs(st.toks, a);
  }

  lemma {:induction false} LastOpenContainerIs(toks: seq<Token>, a: nat)
    requires a < |toks| && toks[a].Open() && toks[a].Container() && forall k :: a < k < |toks| ==> !toks[k].Open()
    ensures LastOpenContainer(toks) == a
  {
    if a < |toks| - 1 { LastOpenContainerIs(toks[..|toks| - 1], a); }
  }

  // ---------------------------------------------------------------- whole values

  /** The parser after a value. Only toksuper depends on the build: behind a container the backward scan leaves
      the enclosing open container, the parent links leave what toksuper was before it. */
  function AfterValue(st: State, links: bool, v: Value): State
    requires Ok(st)
  {
    State(st.pos + |Text(v)|,
          if (v.Arr? || v.Obj?) && !links then LastOpen(st.toks) else st.toksuper,
          Bump(st.toks, st.toksuper) + Listing(v, st.pos, |st.toks|, st.toksuper),
          st.count + Nodes(v))
  }

  /** The parser after the innermost container at `a` has been closed, with n more children and their listing. */
  function AfterItems(st: State, links: bool, a: nat, end: nat, n: nat, listing: seq<Token>): State
    requires Ok(st) && a < |st.toks|
  {
    State(end, if links then st.toks[a].parent else LastOpen(st.toks[..a]),
          st.toks[a := st.toks[a].(size := st.toks[a].size + n, end := end)] + listing, st.count + |listing|)
  }

  /** The parser after the rest of an array's elements and its closing bracket. */
  function AfterElems(st: State, links: bool, a: nat, es: Elems): State
    requires Ok(st) && a < |st.toks|
  {
    AfterItems(st, links, a, st.pos + |ElemsText(es)|, ElemCount(es), ElemsListing(es, st.pos, |st.toks|, a))
  }

  function AfterMembers(st: State, links: bool, a: nat, ms: Members): State
    requires Ok(st) && a < |st.toks|
  {
    AfterItems(st, links, a, st.pos + |MembersText(ms)|, KeyCount(ms), MembersListing(ms, st.pos, |st.toks|, a))
  }

  lemma AfterValueOk(st: State, links: bool, v: Value)
    requires Ok(st)
    ensures Ok(AfterValue(st, links, v))
  {
    ListingFinished(v, st.pos, |st.toks|, st.toksuper);
    RootedAppend(Bump(st.toks, st.toksuper), Listing(v, st.pos, |st.toks|, st.toksuper), 0);
  }

  /** Behind a value inside a container: nothing else than spaces up to a delimiter. */
  lemma StopsAfter(js: string, p: nat, w: string, q: string)
    requires Spaces(w) && q != [] && Delimiter(q[0]) && Has(js, p, w + q)
    ensures Stops(js, p)
  {
    assert js[p] == (w + q)[0];
    if w != [] { assert w[0] in w; }
  }

  /** The parser after an opening bracket. */
  function AfterOpen(st: State, tok: Token): State
    requires Ok(st)
  {
    State(st.pos + 1, |st.toks|, Bump(st.toks, st.toksuper) + [tok], st.count + 1)
  }

  lemma StepOpen(js: string, st: State, num: nat, links: bool, tok: Token)
    requires Ok(st) && More(js, st.pos) && |st.toks| < num
    requires tok == Token(tok.typ, st.pos, -1, 0, st.toksuper) && tok.Container()
    requires js[st.pos] == if tok.typ.Object? then '{' else '['
    ensures Leads(js, st, AfterOpen(st, tok), num, links)
    ensures Inside(AfterOpen(st, tok).toks, |st.toks|)
  {
    InsideOpened(Bump(st.toks, st.toksuper), tok);
    OneRound(js, st, AfterOpen(st, tok), num, links);
  }

  lemma LastCloses(toks: seq<Token>, tok: Token, closed: Token, rest: seq<Token>)
    ensures (toks + [tok])[|toks| := closed] + rest == toks + ([closed] + rest) && (toks + [tok])[..|toks|] == toks
  {
  }

  /** Closing a container at once, its listing being known, leaves the closed token in front of the listing. */
  lemma ContainerListing(st: State, links: bool, tok: Token, off: nat, end: nat, n: nat, under: seq<Token>, after: State)
    requires Ok(st) && tok == Token(tok.typ, st.pos, -1, 0, st.toksuper) && tok.Container()
    requires after.pos == end && after.toksuper == (if links then st.toksuper else LastOpen(st.toks))
    requires after.toks == Bump(st.toks, st.toksuper) + ([tok.(size := n, end := end)] + under)
    requires after.count == st.count + 1 + |under|
    ensures var start := AfterOpen(st, tok).(pos := off);
      Ok(start) && AfterItems(start, links, |st.toks|, end, n, under) == after
  {
    LastOpenSame(st.toks, Bump(st.toks, st.toksuper));
    LastCloses(Bump(st.toks, st.toksuper), tok, tok.(size := n, end := end), under);
  }

  lemma ArrayListing(st: State, links: bool, v: Value)
    requires Ok(st) && v.Arr?
    ensures var inside := AfterOpen(st, Token(Array, st.pos, -1, 0, st.toksuper));
      var start := inside.(pos := inside.pos + |v.pad|);
      Ok(start) && Ok(AfterValue(st, links, v)) && AfterElems(start, links, |st.toks|, v.elems) == AfterValue(st, links, v)
  {
    AfterValueOk(st, links, v);
    var off := st.pos + 1 + |v.pad|;
    var under := ElemsListing(v.elems, off, |st.toks| + 1, |st.toks|);
    ContainerListing(st, links, Token(Array, st.pos, -1, 0, st.toksuper), off, st.pos + |Text(v)|, ElemCount(v.elems),
                     under, AfterValue(st, links, v));
  }

  lemma ObjectListing(st: State, links: bool, v: Value)
    requires Ok(st) && v.Obj?
    ensures var inside := AfterOpen(st, Token(Object, st.pos, -1, 0, st.toksuper));
      var start := inside.(pos := inside.pos + |v.pad|);
      Ok(start) && Ok(AfterValue(st, links, v)) && AfterMembers(start, links, |st.toks|, v.members) == AfterValue(st, links, v)
  {
    AfterValueOk(st, links, v);
    var off := st.pos + 1 + |v.pad|;
    var under := MembersListing(v.members, off, |st.toks| + 1, |st.toks|);
    ContainerListing(st, links, Token(Object, st.pos, -1, 0, st.toksuper), off, st.pos + |Text(v)|, KeyCount(v.members),
                     under, AfterValue(st, links, v));
  }

  /** Closing a container behind one more piece of its listing: the piece moves into the rest, and is counted. */
  lemma PieceMoves(toks: seq<Token>, next: seq<Token>, a: nat, n: nat, end: int, piece: seq<Token>, rest: seq<Token>)
    requires a < |toks| && next == Bump(toks, a) + piece
    ensures |next| == |toks| + |piece| && next[..a] == toks[..a] && next[a].parent == toks[a].parent
    ensures next[a := next[a].(size := next[a].size + n, end := end)] + rest
         == toks[a := toks[a].(size := toks[a].size + (n + 1), end := end)] + (piece + rest)
  {
  }

  lemma ItemsMove(st: State, next: State, links: bool, a: nat, end: nat, n: nat, all: nat,
                  piece: seq<Token>, rest: seq<Token>, listing: seq<Token>)
    requires Ok(st) && Ok(next) && a < |st.toks| && next.toks == Bump(st.toks, a) + piece && next.count == st.count + |piece|
    requires all == n + 1 && listing == piece + rest
    ensures a < |next.toks| && AfterItems(next, links, a, end, n, rest) == AfterItems(st, links, a, end, all, listing)
  {
    PieceMoves(st.toks, next.toks, a, n, end, piece, rest);
  }

  lemma ElemsEnd(off: nat, es: Elems)
    requires es.Elem?
    ensures off + |ElemsText(es)| == NextElem(es, off) + |ElemsText(es.rest)|
  {
  }

  lemma MembersEnd(off: nat, ms: Members)
    requires ms.Member?
    ensures off + |MembersText(ms)| == NextMember(ms, off) + |MembersText(ms.rest)|
  {
  }

  /** One element done: what the rest of the array leaves behind is what the whole array leaves behind. */
  lemma ElemsStep(st: State, links: bool, a: nat, es: Elems, next: State)
    requires Ok(st) && a < |st.toks| && es.Elem?
    requires next.pos == NextElem(es, st.pos) && next.count == st.count + Nodes(es.value)
    requires next.toks == Bump(st.toks, a) + Listing(es.value, ElemAt(es, st.pos), |st.toks|, a)
    requires Ok(next)
    ensures AfterElems(next, links, a, es.rest) == AfterElems(st, links, a, es)
  {
    var piece, rest := Listing(es.value, ElemAt(es, st.pos), |st.toks|, a), ElemsListing(es.rest, next.pos, |next.toks|, a);
    ElemsEnd(st.pos, es);
    ElemsListed(es, st.pos, |st.toks|, a, next.pos, |next.toks|);
    ItemsMove(st, next, links, a, st.pos + |ElemsText(es)|, ElemCount(es.rest), ElemCount(es), piece, rest, piece + rest);
  }

  lemma ElemsListed(es: Elems, off: nat, base: nat, parent: int, off': nat, base': nat)
    requires es.Elem? && off' == NextElem(es, off) && base' == base + Nodes(es.value)
    ensures ElemsListing(es, off, base, parent) ==
            Listing(es.value, ElemAt(es, off), base, parent) + ElemsListing(es.rest, off', base', parent)
  {
  }

  lemma RunPrimitive(js: string, st: State, num: nat, links: bool, v: Value)
    requires v.Prim? && Ok(st) && OkValue(v) && Has(js, st.pos, Text(v)) && |st.toks| < num
    requires Stops(js, st.pos + |Text(v)|)
    ensures Leads(js, st, AfterValue(st, links, v), num, links)
  {
    AfterValueOk(st, links, v);
    StepPrimitive(js, st, num, links, v.text);
    OneRound(js, st, AfterValue(st, links, v), num, links);
  }

  lemma RunString(js: string, st: State, num: nat, links: bool, v: Value)
    requires v.Str? && Ok(st) && OkValue(v) && Has(js, st.pos, Text(v)) && |st.toks| < num
    ensures Leads(js, st, AfterValue(st, links, v), num, links)
  {
    AfterValueOk(st, links, v);
    StepString(js, st, num, links, v.body);
    OneRound(js, st, AfterValue(st, links, v), num, links);
  }

  lemma {:induction false} RunValue(js: string, st: State, num: nat, links: bool, v: Value)
    requires Ok(st) && OkValue(v) && Has(js, st.pos, Text(v)) && |st.toks| + Nodes(v) <= num
    requires Stops(js, st.pos + |Text(v)|)
    ensures Leads(js, st, AfterValue(st, links, v), num, links)
    decreases v, 1
  {
    match v
    case Prim(_) => RunPrimitive(js, st, num, links, v);
    case Str(_) => RunString(js, st, num, links, v);
    case Arr(_, _) => RunArray(js, st, num, links, v);
    case Obj(_, _) => RunObject(js, st, num, links, v);
  }

  /** Where the parts of an array or object are written. */
  lemma ContainerParts(js: string, p: nat, bracket: char, pad: string, tail: string)
    requires Has(js, p, [bracket] + (pad + tail)) && bracket != '\0'
    ensures More(js, p) && js[p] == bracket && Has(js, p + 1, pad) && Has(js, p + 1 + |pad|, tail)
  {
    HasSplit(js, p, [bracket], pad + tail);
    HasSplit(js, p + 1, pad, tail);
    assert js[p] == [bracket][0];
  }

  /** An opening bracket and the spaces behind it. */
  lemma RunOpen(js: string, st: State, num: nat, links: bool, tok: Token, pad: string) returns (inside: State)
    requires Ok(st) && More(js, st.pos) && |st.toks| < num && Spaces(pad) && Has(js, st.pos + 1, pad)
    requires tok == Token(tok.typ, st.pos, -1, 0, st.toksuper) && tok.Container()
    requires js[st.pos] == if tok.typ.Object? then '{' else '['
    ensures inside == AfterOpen(st, tok).(pos := st.pos + 1 + |pad|) && Inside(inside.toks, |st.toks|) && Ok(inside)
    ensures Leads(js, st, inside, num, links)
  {
    StepOpen(js, st, num, links, tok);
    RunSpaces(js, AfterOpen(st, tok), num, links, pad);
    inside := AfterOpen(st, tok).(pos := st.pos + 1 + |pad|);
  }

  lemma ArrayText(js: string, p: nat, v: Value)
    requires v.Arr? && OkValue(v) && Has(js, p, Text(v))
    ensures More(js, p) && js[p] == '[' && Spaces(v.pad) && Has(js, p + 1, v.pad)
    ensures OkElems(v.elems) && Has(js, p + 1 + |v.pad|, ElemsText(v.elems))
  {
    ContainerParts(js, p, '[', v.pad, ElemsText(v.elems));
  }

  lemma {:induction false} RunArray(js: string, st: State, num: nat, links: bool, v: Value)
    requires v.Arr? && Ok(st) && OkValue(v) && Has(js, st.pos, Text(v)) && |st.toks| + Nodes(v) <= num
    ensures Leads(js, st, AfterValue(st, links, v), num, links)
    decreases v, 0
  {
    ArrayText(js, st.pos, v);
    var inside := RunOpen(js, st, num, links, Token(Array, st.pos, -1, 0, st.toksuper), v.pad);
    RunElems(js, inside, num, links, |st.toks|, v.elems);
    ArrayListing(st, links, v);
  }

  /** Where the parts of the first element are written. */
  lemma ElemParts(js: string, p: nat, es: Elems)
    requires es.Elem? && OkElems(es) && Has(js, p, ElemsText(es))
    ensures var at := ElemAt(es, p);
      && Has(js, p, es.before) && Has(js, at, Text(es.value)) && Stops(js, at + |Text(es.value)|)
      && Has(js, at + |Text(es.value)|, es.after) && Has(js, NextElem(es, p), ElemsText(es.rest))
      && (es.rest.Elem? ==> More(js, NextElem(es, p) - 1) && js[NextElem(es, p) - 1] == ',')
  {
    var sep := if es.rest.NoElems? then [] else [','];
    HasSplit(js, p, es.before, Text(es.value) + (es.after + (sep + ElemsText(es.rest))));
    TailParts(js, ElemAt(es, p), Text(es.value), es.after, sep, ElemsText(es.rest));
  }

  /** A value, spaces, perhaps a comma, and the rest. */
  lemma TailParts(js: string, p: nat, value: string, after: string, sep: string, rest: string)
    requires Spaces(after) && rest != [] && (sep == [','] || (sep == [] && Delimiter(rest[0])))
    requires Has(js, p, value + (after + (sep + rest)))
    ensures var q := p + |value|;
      && Has(js, p, value) && Stops(js, q) && Has(js, q, after) && Has(js, q + |after| + |sep|, rest)
      && (sep == [','] ==> More(js, q + |after|) && js[q + |after|] == ',')
  {
    var q := p + |value|;
    HasSplit(js, p, value, after + (sep + rest));
    StopsAfter(js, q, after, sep + rest);
    HasSplit(js, q, after, sep + rest);
    HasSplit(js, q + |after|, sep, rest);
    if sep == [','] { assert js[q + |after|] == sep[0]; }
  }

  /** What is left to do behind a value: spaces, and a comma that makes the container the superior token. */
  ghost predicate Behind(valued: State, spaces: nat, comma: bool, next: State, a: nat) {
    && Ok(valued) && Inside(valued.toks, a)
    && (valued.toksuper == a ||
        (valued.toksuper >= 0 && valued.toks[valued.toksuper].typ.String? && valued.toks[valued.toksuper].parent == a))
    && next == valued.(pos := valued.pos + spaces + (if comma then 1 else 0), toksuper := if comma then a else valued.toksuper)
  }

  lemma RunBehind(js: string, valued: State, spaces: string, comma: bool, next: State, num: nat, links: bool, a: nat)
    requires Behind(valued, |spaces|, comma, next, a) && Spaces(spaces) && Has(js, valued.pos, spaces)
    requires comma ==> More(js, valued.pos + |spaces|) && js[valued.pos + |spaces|] == ','
    ensures Leads(js, valued, next, num, links)
  {
    RunSpaces(js, valued, num, links, spaces);
    if comma { RunComma(js, valued.(pos := valued.pos + |spaces|), next, num, links, a); }
  }

  /** The comma behind a value leads on to the next member. */
  lemma RunComma(js: string, spaced: State, next: State, num: nat, links: bool, a: nat)
    requires Ok(spaced) && Inside(spaced.toks, a) && More(js, spaced.pos) && js[spaced.pos] == ','
    requires spaced.toksuper == a ||
      (spaced.toksuper >= 0 && spaced.toks[spaced.toksuper].typ.String? && spaced.toks[spaced.toksuper].parent == a)
    requires next == spaced.(pos := spaced.pos + 1, toksuper := a)
    ensures Leads(js, spaced, next, num, links)
  {
    StepComma(js, spaced, num, links, a);
    OneRound(js, spaced, next, num, links);
  }

  /** The parser behind one element and the comma, if another element follows. */
  function AfterElem(st: State, links: bool, a: nat, es: Elems): State
    requires Ok(st) && es.Elem?
  {
    var v := AfterValue(st.(pos := ElemAt(es, st.pos)), links, es.value);
    v.(pos := NextElem(es, st.pos), toksuper := a)
  }

  lemma {:induction false} RunElem(js: string, st: State, num: nat, links: bool, a: nat, es: Elems)
    requires Ok(st) && Inside(st.toks, a) && st.toks[a].typ.Array? && st.toksuper == a && es.Elem?
    requires OkElems(es) && Has(js, st.pos, ElemsText(es)) && |st.toks| + ElemsNodes(es) <= num
    ensures Leads(js, st, AfterElem(st, links, a, es), num, links)
    ensures Inside(AfterElem(st, links, a, es).toks, a)
    decreases es, 0
  {
    ElemParts(js, st.pos, es);
    var s1 := st.(pos := ElemAt(es, st.pos));
    RunSpaces(js, st, num, links, es.before);
    RunValue(js, s1, num, links, es.value);
    var valued, next := AfterValue(s1, links, es.value), AfterElem(st, links, a, es);
    ValuedElem(st, links, a, es, valued, next);
    RunBehind(js, valued, es.after, es.rest.Elem?, next, num, links, a);
  }

  lemma ValuedElem(st: State, links: bool, a: nat, es: Elems, valued: State, next: State)
    requires Ok(st) && Inside(st.toks, a) && st.toksuper == a && es.Elem?
    requires valued == AfterValue(st.(pos := ElemAt(es, st.pos)), links, es.value) && next == AfterElem(st, links, a, es)
    ensures Behind(valued, |es.after|, es.rest.Elem?, next, a)
    ensures valued.pos == ElemAt(es, st.pos) + |Text(es.value)|
    ensures NextElem(es, st.pos) == valued.pos + |es.after| + (if es.rest.Elem? then 1 else 0)
  {
    var at := ElemAt(es, st.pos);
    ListingFinished(es.value, at, |st.toks|, a);
    InsideAfter(st.toks, a, Listing(es.value, at, |st.toks|, a));
  }

  lemma {:induction false} RunElems(js: string, st: State, num: nat, links: bool, a: nat, es: Elems)
    requires Ok(st) && Inside(st.toks, a) && st.toks[a].typ.Array? && st.toksuper == a
    requires OkElems(es) && Has(js, st.pos, ElemsText(es)) && |st.toks| + ElemsNodes(es) <= num
    ensures Leads(js, st, AfterElems(st, links, a, es), num, links)
    decreases es, 1
  {
    if es.NoElems? {
      assert js[st.pos] == ElemsText(es)[0];
      StepClose(js, st, num, links, a);
      OneRound(js, st, AfterClose(st, links, a), num, links);
      assert AfterElems(st, links, a, es) == AfterClose(st, links, a);
    } else {
      var next := AfterElem(st, links, a, es);
      ElemParts(js, st.pos, es);
      RunElem(js, st, num, links, a, es);
      RunElems(js, next, num, links, a, es.rest);
      ElemsStep(st, links, a, es, next);
    }
  }

  lemma ObjectText(js: string, p: nat, v: Value)
    requires v.Obj? && OkValue(v) && Has(js, p, Text(v))
    ensures More(js, p) && js[p] == '{' && Spaces(v.pad) && Has(js, p + 1, v.pad)
    ensures OkMembers(v.members) && Has(js, p + 1 + |v.pad|, MembersText(v.members))
  {
    ContainerParts(js, p, '{', v.pad, MembersText(v.members));
  }

  lemma {:induction false} RunObject(js: string, st: State, num: nat, links: bool, v: Value)
    requires v.Obj? && Ok(st) && OkValue(v) && Has(js, st.pos, Text(v)) && |st.toks| + Nodes(v) <= num
    ensures Leads(js, st, AfterValue(st, links, v), num, links)
    decreases v, 0
  {
    ObjectText(js, st.pos, v);
    var inside := RunOpen(js, st, num, links, Token(Object, st.pos, -1, 0, st.toksuper), v.pad);
    RunMembers(js, inside, num, links, |st.toks|, v.members);
    ObjectListing(st, links, v);
  }

  /** Where the key of the first member is written. */
  lemma KeyParts(js: string, p: nat, ms: Members)
    requires ms.Member? && OkMembers(ms) && Has(js, p, MembersText(ms))
    ensures Has(js, p, ms.before) && Has(js, KeyAt(ms, p) - 1, Quoted(ms.key))
    ensures var colon := MemberAt(ms, p) - |ms.gap| - 1;
      && Has(js, colon - |ms.mid|, ms.mid) && More(js, colon) && js[colon] == ':' && Has(js, colon + 1, ValueText(ms))
  {
    var colon := MemberAt(ms, p) - |ms.gap| - 1;
    HasSplit(js, p, ms.before, Quoted(ms.key) + (ms.mid + ([':'] + ValueText(ms))));
    HasSplit(js, KeyAt(ms, p) - 1, Quoted(ms.key), ms.mid + ([':'] + ValueText(ms)));
    HasSplit(js, colon - |ms.mid|, ms.mid, [':'] + ValueText(ms));
    HasSplit(js, colon, [':'], ValueText(ms));
    assert js[colon] == [':'][0];
  }

  /** Where its value is written, and what follows. */
  lemma ValueParts(js: string, p: nat, ms: Members)
    requires ms.Member? && OkMembers(ms) && Has(js, p, ValueText(ms))
    ensures var at := p + |ms.gap|;
      var q := at + |Text(ms.value)|;
      var next := q + |ms.after| + (if ms.rest.NoMembers? then 0 else 1);
      && Has(js, p, ms.gap) && Has(js, at, Text(ms.value)) && Stops(js, q) && Has(js, q, ms.after)
      && Has(js, next, MembersText(ms.rest))
      && (ms.rest.Member? ==> More(js, next - 1) && js[next - 1] == ',')
  {
    var sep := if ms.rest.NoMembers? then [] else [','];
    HasSplit(js, p, ms.gap, Text(ms.value) + (ms.after + (sep + MembersText(ms.rest))));
    TailParts(js, p + |ms.gap|, Text(ms.value), ms.after, sep, MembersText(ms.rest));
  }

  /** The parser behind the colon of a member: its key is the superior token now. */
  function AfterKey(st: State, a: nat, ms: Members): State
    requires Ok(st) && a < |st.toks| && ms.Member?
  {
    State(MemberAt(ms, st.pos), |st.toks|, Bump(st.toks, a) + [KeyToken(ms, st.pos, 0, a)], st.count + 1)
  }

  lemma KeyColon(js: string, st: State, a: nat, ms: Members, quoted: State)
    requires Ok(st) && a < |st.toks| && ms.Member? && OkMembers(ms) && quoted == BehindKey(st, a, ms)
    requires Has(js, st.pos, MembersText(ms))
    ensures var colon := quoted.pos + |ms.mid|;
      Has(js, quoted.pos, ms.mid) && More(js, colon) && js[colon] == ':' && Has(js, colon + 1, ValueText(ms))
  {
    KeyParts(js, st.pos, ms);
  }

  lemma KeyBehind(st: State, a: nat, ms: Members)
    requires Ok(st) && a < |st.toks| && ms.Member?
    ensures var quoted := BehindKey(st, a, ms);
      AfterKey(st, a, ms) == quoted.(pos := quoted.pos + |ms.mid| + 1 + |ms.gap|, toksuper := |quoted.toks| - 1)
  {
  }

  lemma RunKey(js: string, st: State, num: nat, links: bool, a: nat, ms: Members)
    requires Ok(st) && Inside(st.toks, a) && st.toksuper == a && ms.Member?
    requires OkMembers(ms) && Has(js, st.pos, MembersText(ms)) && |st.toks| < num
    ensures Leads(js, st, AfterKey(st, a, ms), num, links)
  {
    KeyParts(js, st.pos, ms);
    RunKeyString(js, st, num, links, a, ms);
    var quoted := BehindKey(st, a, ms);
    KeyColon(js, st, a, ms, quoted);
    RunColon(js, quoted, num, links, ms);
    KeyBehind(st, a, ms);
  }

  /** The parser behind a key's closing quote. */
  function BehindKey(st: State, a: nat, ms: Members): State
    requires Ok(st) && a < |st.toks| && ms.Member?
  {
    State(KeyAt(ms, st.pos) - 1 + |Quoted(ms.key)|, a, Bump(st.toks, a) + [KeyToken(ms, st.pos, 0, a)], st.count + 1)
  }

  lemma RunKeyString(js: string, st: State, num: nat, links: bool, a: nat, ms: Members)
    requires Ok(st) && Inside(st.toks, a) && st.toksuper == a && ms.Member? && |st.toks| < num
    requires Spaces(ms.before) && OkBody(ms.key)
    requires Has(js, st.pos, ms.before) && Has(js, KeyAt(ms, st.pos) - 1, Quoted(ms.key))
    ensures Leads(js, st, BehindKey(st, a, ms), num, links)
  {
    var s1 := st.(pos := KeyAt(ms, st.pos) - 1);
    RunSpaces(js, st, num, links, ms.before);
    StepString(js, s1, num, links, ms.key);
    KeyInside(st, a, ms);
    OneRound(js, s1, BehindKey(st, a, ms), num, links);
  }

  /** From behind a key's closing quote to the start of its value. */
  lemma RunColon(js: string, st: State, num: nat, links: bool, ms: Members)
    requires Ok(st) && ms.Member? && OkMembers(ms) && Has(js, st.pos, ms.mid)
    requires More(js, st.pos + |ms.mid|) && js[st.pos + |ms.mid|] == ':' && Has(js, st.pos + |ms.mid| + 1, ValueText(ms))
    ensures Leads(js, st, st.(pos := st.pos + |ms.mid| + 1 + |ms.gap|, toksuper := |st.toks| - 1), num, links)
  {
    var colon := st.(pos := st.pos + |ms.mid|);
    RunSpaces(js, st, num, links, ms.mid);
    StepColon(js, colon, num, links);
    ValueParts(js, colon.pos + 1, ms);
    RunSpaces(js, colon.(pos := colon.pos + 1, toksuper := |st.toks| - 1), num, links, ms.gap);
  }

  lemma StepColon(js: string, st: State, num: nat, links: bool)
    requires Ok(st) && More(js, st.pos) && js[st.pos] == ':'
    ensures Leads(js, st, st.(pos := st.pos + 1, toksuper := |st.toks| - 1), num, links)
  {
    OneRound(js, st, st.(pos := st.pos + 1, toksuper := |st.toks| - 1), num, links);
  }

  /** The parser behind a member's value, its spaces and the comma, if another member follows. */
  function AfterMember(st: State, links: bool, a: nat, ms: Members): State
    requires Ok(st) && a < |st.toks| && ms.Member?
  {
    State(NextMember(ms, st.pos),
          if ms.rest.Member? || (!links && !ms.value.Prim? && !ms.value.Str?) then a else |st.toks|,
          Bump(st.toks, a) + ([KeyToken(ms, st.pos, 1, a)] + Listing(ms.value, MemberAt(ms, st.pos), |st.toks| + 1, |st.toks|)),
          st.count + 1 + Nodes(ms.value))
  }

  /** Behind the key: it is closed, so the object is still the innermost open container. */
  lemma KeyInside(st: State, a: nat, ms: Members)
    requires Ok(st) && Inside(st.toks, a) && ms.Member?
    ensures Ok(AfterKey(st, a, ms)) && Inside(AfterKey(st, a, ms).toks, a)
  {
    FinishedUnder(KeyToken(ms, st.pos, 0, a), [], |st.toks|, a);
    InsideAfter(st.toks, a, [KeyToken(ms, st.pos, 0, a)]);
  }

  lemma MemberTokens(st: State, links: bool, a: nat, ms: Members)
    requires Ok(st) && a < |st.toks| && ms.Member? && Ok(AfterKey(st, a, ms))
    ensures AfterMember(st, links, a, ms).toks == AfterValue(AfterKey(st, a, ms), links, ms.value).toks
  {
    var keyed, k := AfterKey(st, a, ms).toks, |st.toks|;
    assert Bump(keyed, k) == Bump(st.toks, a) + [KeyToken(ms, st.pos, 1, a)];
  }

  /** Behind the value: the key has one child now, and the object is still the innermost open container. */
  lemma MemberInside(st: State, links: bool, a: nat, ms: Members)
    requires Ok(st) && Inside(st.toks, a) && ms.Member?
    ensures Ok(AfterMember(st, links, a, ms)) && Inside(AfterMember(st, links, a, ms).toks, a)
  {
    var piece := MemberPiece(ms, st.pos, |st.toks|, a);
    InsideAfter(st.toks, a, piece);
    AfterMemberTokens(st, links, a, ms, piece);
  }

  lemma AfterMemberTokens(st: State, links: bool, a: nat, ms: Members, piece: seq<Token>)
    requires Ok(st) && a < |st.toks| && ms.Member?
    requires piece == [KeyToken(ms, st.pos, 1, a)] + Listing(ms.value, MemberAt(ms, st.pos), |st.toks| + 1, |st.toks|)
    ensures AfterMember(st, links, a, ms).toks == Bump(st.toks, a) + piece
    ensures -1 <= AfterMember(st, links, a, ms).toksuper < |Bump(st.toks, a) + piece|
  {
  }

  /** Where a member's value is written, and what follows. */
  lemma MemberParts(js: string, p: nat, ms: Members)
    requires ms.Member? && OkMembers(ms) && Has(js, p, MembersText(ms))
    ensures var at := MemberAt(ms, p); var q := at + |Text(ms.value)|;
      Has(js, at, Text(ms.value)) && Stops(js, q) && Has(js, q, ms.after)
    ensures var next := NextMember(ms, p);
      Has(js, next, MembersText(ms.rest)) && (ms.rest.Member? ==> More(js, next - 1) && js[next - 1] == ',')
  {
    KeyParts(js, p, ms);
    ValueParts(js, MemberAt(ms, p) - |ms.gap|, ms);
  }

  lemma {:induction false} RunMember(js: string, st: State, num: nat, links: bool, a: nat, ms: Members)
    requires Ok(st) && Inside(st.toks, a) && st.toks[a].typ.Object? && st.toksuper == a && ms.Member?
    requires OkMembers(ms) && Has(js, st.pos, MembersText(ms)) && |st.toks| + MembersNodes(ms) <= num
    ensures Leads(js, st, AfterMember(st, links, a, ms), num, links)
    ensures Inside(AfterMember(st, links, a, ms).toks, a)
    ensures Has(js, NextMember(ms, st.pos), MembersText(ms.rest))
    decreases ms, 0
  {
    var keyed := AfterKey(st, a, ms);
    MemberParts(js, st.pos, ms);
    RunKey(js, st, num, links, a, ms);
    KeyInside(st, a, ms);
    RunValue(js, keyed, num, links, ms.value);
    var valued, next := AfterValue(keyed, links, ms.value), AfterMember(st, links, a, ms);
    ValuedMember(st, links, a, ms, valued, next);
    RunBehind(js, valued, ms.after, ms.rest.Member?, next, num, links, a);
    MemberInside(st, links, a, ms);
  }

  lemma ValuedMember(st: State, links: bool, a: nat, ms: Members, valued: State, next: State)
    requires Ok(st) && Inside(st.toks, a) && ms.Member? && Ok(AfterKey(st, a, ms)) && Inside(AfterKey(st, a, ms).toks, a)
    requires valued == AfterValue(AfterKey(st, a, ms), links, ms.value) && next == AfterMember(st, links, a, ms)
    ensures Behind(valued, |ms.after|, ms.rest.Member?, next, a)
    ensures valued.pos == MemberAt(ms, st.pos) + |Text(ms.value)|
    ensures NextMember(ms, st.pos) == valued.pos + |ms.after| + (if ms.rest.Member? then 1 else 0)
  {
    MemberTokens(st, links, a, ms);
    MemberInside(st, links, a, ms);
    assert valued.toks[|st.toks|] == KeyToken(ms, st.pos, 1, a);
  }

  lemma MembersListed(ms: Members, off: nat, base: nat, parent: int, off': nat, base': nat, piece: seq<Token>)
    requires ms.Member? && off' == NextMember(ms, off) && base' == base + |piece|
    requires piece == [KeyToken(ms, off, 1, parent)] + Listing(ms.value, MemberAt(ms, off), base + 1, base)
    ensures MembersListing(ms, off, base, parent) == piece + MembersListing(ms.rest, off', base', parent)
    ensures KeyCount(ms) == KeyCount(ms.rest) + 1
  {
  }

  lemma MembersMove(st: State, links: bool, a: nat, ms: Members, next: State, piece: seq<Token>)
    requires Ok(st) && a < |st.toks| && ms.Member?
    requires piece == [KeyToken(ms, st.pos, 1, a)] + Listing(ms.value, MemberAt(ms, st.pos), |st.toks| + 1, |st.toks|)
    requires next.pos == NextMember(ms, st.pos) && next.count == st.count + |piece| && next.toks == Bump(st.toks, a) + piece
    requires Ok(next)
    ensures AfterMembers(next, links, a, ms.rest) == AfterMembers(st, links, a, ms)
  {
    var rest := MembersListing(ms.rest, next.pos, |next.toks|, a);
    MembersEnd(st.pos, ms);
    MembersListed(ms, st.pos, |st.toks|, a, next.pos, |next.toks|, piece);
    ItemsMove(st, next, links, a, st.pos + |MembersText(ms)|, KeyCount(ms.rest), KeyCount(ms), piece, rest, piece + rest);
  }

  /** One member done: what the rest of the object leaves behind is what the whole object leaves behind. */
  lemma MembersStep(st: State, links: bool, a: nat, ms: Members)
    requires Ok(st) && a < |st.toks| && ms.Member? && Ok(AfterMember(st, links, a, ms))
    ensures AfterMembers(AfterMember(st, links, a, ms), links, a, ms.rest) == AfterMembers(st, links, a, ms)
  {
    MembersMove(st, links, a, ms, AfterMember(st, links, a, ms),
                [KeyToken(ms, st.pos, 1, a)] + Listing(ms.value, MemberAt(ms, st.pos), |st.toks| + 1, |st.toks|));
  }

  lemma {:induction false} RunMembers(js: string, st: State, num: nat, links: bool, a: nat, ms: Members)
    requires Ok(st) && Inside(st.toks, a) && st.toks[a].typ.Object? && (ms.Member? ==> st.toksuper == a)
    requires OkMembers(ms) && Has(js, st.pos, MembersText(ms)) && |st.toks| + MembersNodes(ms) <= num
    ensures Leads(js, st, AfterMembers(st, links, a, ms), num, links)
    decreases ms, 1
  {
    if ms.NoMembers? {
      assert js[st.pos] == MembersText(ms)[0];
      StepClose(js, st, num, links, a);
      OneRound(js, st, AfterClose(st, links, a), num, links);
      assert AfterMembers(st, links, a, ms) == AfterClose(st, links, a);
    } else {
      RunMember(js, st, num, links, a, ms);
      RunMembers(js, AfterMember(st, links, a, ms), num, links, a, ms.rest);
      MembersStep(st, links, a, ms);
    }
  }

  // ---------------------------------------------------------------- documents

  /** A document with spaces around it: the rounds lead to its listing at the end of the text. */
  lemma DocumentLeads(js: string, before: string, v: Value, after: string, num: nat, links: bool)
    requires Spaces(before) && OkValue(v) && Spaces(after) && Nodes(v) <= num
    requires Has(js, 0, before) && Has(js, |before|, Text(v)) && Has(js, |before| + |Text(v)|, after)
    requires Stops(js, |before| + |Text(v)|) && |js| == |before| + |Text(v)| + |after|
    ensures Leads(js, INIT, AfterValue(INIT.(pos := |before|), links, v).(pos := |js|), num, links)
  {
    var start := INIT.(pos := |before|);
    RunSpaces(js, INIT, num, links, before);
    RunValue(js, start, num, links, v);
    RunSpaces(js, AfterValue(start, links, v), num, links, after);
  }

  lemma HasItself(js: string)
    ensures Has(js, 0, js)
  {
  }

  lemma DocumentSplit(js: string, whole: string, before: string, text: string, after: string)
    requires Has(js, 0, whole) && whole == before + (text + after)
    ensures Has(js, 0, before) && Has(js, |before|, text) && Has(js, |before| + |text|, after)
  {
    HasSplit(js, 0, before, text + after);
    HasSplit(js, |before|, text, after);
  }

  lemma DocumentParts(js: string, before: string, text: string, after: string)
    requires Spaces(after) && js == before + (text + after)
    ensures Has(js, 0, before) && Has(js, |before|, text) && Has(js, |before| + |text|, after)
    ensures Stops(js, |before| + |text|)
  {
    HasItself(js);
    DocumentSplit(js, js, before, text, after);
    StopsAtEnd(js, |before| + |text|, after);
  }

  lemma StopsAtEnd(js: string, p: nat, after: string)
    requires Spaces(after) && Has(js, p, after) && |js| == p + |after|
    ensures Stops(js, p)
  {
    if after != [] { assert js[p] == after[0] && after[0] in after; }
  }

  /** Any value, with any whitespace inside and around it, and enough tokens: jsmn_parse returns the number of
      nodes and leaves exactly the preorder listing, in either build. */
  lemma ParseListsTheTree(before: string, v: Value, after: string, num: nat, links: bool)
    requires Spaces(before) && OkValue(v) && Spaces(after) && Nodes(v) <= num
    ensures var (ret, st) := Run(before + (Text(v) + after), INIT, num, links);
      ret == Count(Nodes(v)) && st.toks == Listing(v, |before|, 0, -1) && st.pos == |before + (Text(v) + after)|
  {
    var js := before + (Text(v) + after);
    var done := AfterValue(INIT.(pos := |before|), links, v).(pos := |js|);
    DocumentParts(js, before, Text(v), after);
    DocumentLeads(js, before, v, after, num, links);
    LeadsToSameResult(js, INIT, done, num, links);
    var listing := Listing(v, |before|, 0, -1);
    ListingFinished(v, |before|, 0, -1);
    LastOpenAppend([], listing);
    assert [] + listing == listing && done.toks == listing;
    assert Run(js, done, num, links) == (Count(Nodes(v)), done);
  }

  /** The two builds agree on every document, token for token. */
  lemma BuildsAgree(before: string, v: Value, after: string, num: nat)
    requires Spaces(before) && OkValue(v) && Spaces(after) && Nodes(v) <= num
    ensures var js := before + (Text(v) + after);
      Run(js, INIT, num, true).0 == Run(js, INIT, num, false).0 &&
      Run(js, INIT, num, true).1.toks == Run(js, INIT, num, false).1.toks
  {
    ParseListsTheTree(before, v, after, num, true);
    ParseListsTheTree(before, v, after, num, false);
  }
}
