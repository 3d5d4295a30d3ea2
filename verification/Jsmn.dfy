/** jsmn.c step by step: the parser object, the token array updated in place, the scanning loops.
    Every method is proved against the functions of module JsmnModel. */
module Jsmn {
  import opened JsmnModel
  import opened JsmnModes

  lemma HaltIsError(js: string, st: State, num: nat, links: bool)
    requires Ok(st) && More(js, st.pos)
    ensures Step(js, st, num, links).Halt? ==> !Step(js, st, num, links).ret.Count?
  {
  }

  lemma CountStepShifts(js: string, p: nat, count: nat)
    requires More(js, p)
    ensures CountStep(js, p, count) ==
            var o := CountStep(js, p, 0);
            if o.CountGo? then CountGo(o.pos, o.count + count) else o
  {
  }

  /** JSMN_ERROR_OK. */
  const OK := Count(0)

  class Parser {
    var pos: nat
    var toknext: nat
    var toksuper: int
    /** JSMN_PARENT_LINKS */
    const links: bool

    /** jsmn_init. */
    constructor (links: bool)
      ensures pos == 0 && toknext == 0 && toksuper == -1 && this.links == links
    {
      pos, toknext, toksuper := 0, 0, -1;
      this.links := links;
    }

    ghost function View(tokens: array<Token>, count: nat): State
      reads this, tokens
      requires toknext <= tokens.Length
    {
      State(pos, toksuper, tokens[..toknext], count)
    }

    ghost predicate Valid(tokens: array<Token>, num: nat)
      reads this, tokens
    {
      toknext <= tokens.Length && num <= tokens.Length && Ok(View(tokens, 0))
    }

    /** jsmn_alloc_token: the index of a fresh token, or -1. */
    method AllocToken(tokens: array<Token>, num: nat) returns (i: int)
      requires toknext <= tokens.Length && num <= tokens.Length
      modifies this`toknext, tokens
      ensures if old(toknext) >= num then i == -1 && toknext == old(toknext) && tokens[..] == old(tokens[..])
              else i == old(toknext) && toknext == i + 1 && tokens[..i] == old(tokens[..i])
                   && tokens[i].start == -1 && tokens[i].end == -1 && tokens[i].size == 0 && tokens[i].parent == -1
    {
      if toknext >= num { return -1; }
      i := toknext;
      toknext := toknext + 1;
      tokens[i] := tokens[i].(start := -1, end := -1, size := 0, parent := -1);
    }

    /** The end of jsmn_parse_primitive and jsmn_parse_string: allocate, fill, link, and count in the superior token. */
    method AddAtom(tokens: array<Token>, num: nat, typ: TokenType, start: nat, end: nat) returns (err: Ret)
      requires Valid(tokens, num)
      modifies this`toknext, tokens
      ensures if old(toknext) >= num then err == NoMem && toknext == old(toknext) && tokens[..] == old(tokens[..])
              else err == OK && toknext == old(toknext) + 1 &&
                   tokens[..toknext] == Bump(old(tokens[..toknext]), toksuper) + [Token(typ, start, end, 0, toksuper)]
    {
      var i := AllocToken(tokens, num);
      if i == -1 { return NoMem; }
      ghost var was := tokens[..i];
      tokens[i] := Token(typ, start, end, 0, tokens[i].parent);
      tokens[i] := tokens[i].(parent := toksuper);
      BumpSuper(tokens);
      assert tokens[..i] == Bump(was, toksuper);
      assert tokens[..toknext] == tokens[..i] + [tokens[i]];
      return OK;
    }

    /** tokens[parser->toksuper].size++. */
    method BumpSuper(tokens: array<Token>)
      requires -1 <= toksuper < tokens.Length
      modifies tokens
      ensures tokens[..] == Bump(old(tokens[..]), toksuper)
    {
      if toksuper != -1 {
        tokens[toksuper] := tokens[toksuper].(size := tokens[toksuper].size + 1);
      }
    }

    /** The scanning loop of jsmn_parse_primitive. */
    method SkipPrimitive(js: string) returns (ok: bool)
      requires pos <= |js|
      modifies this`pos
      ensures ScanPrimitive(js, old(pos)) == if ok then Found(pos) else Bad
      ensures pos >= old(pos)
    {
      while pos < |js| && js[pos] != '\0'
        invariant old(pos) <= pos <= |js| && ScanPrimitive(js, pos) == ScanPrimitive(js, old(pos))
        decreases |js| - pos
      {
        var c := js[pos];
        if c == ':' || c == '\t' || c == '\r' || c == '\n' || c == ' ' || c == ',' || c == ']' || c == '}' { return true; }
        if c as int < 32 || c as int >= 127 { return false; }
        pos := pos + 1;
      }
      return true;
    }

    /** jsmn_parse_primitive; on success pos is left on the primitive's last character. */
    method ParsePrimitive(js: string, tokens: array?<Token>, num: nat) returns (err: Ret)
      requires pos < |js| && (tokens != null ==> Valid(tokens, num))
      requires ScanPrimitive(js, pos).Found? ==> ScanPrimitive(js, pos).at > pos
      modifies this`pos, this`toknext, tokens
      ensures match ScanPrimitive(js, old(pos))
        case Found(q) =>
          if tokens == null then err == OK && pos + 1 == q && toknext == old(toknext)
          else AtomDone(tokens, num, err, old(View(tokens, 0)), Primitive, old(pos), q, q)
        case _ => err == Inval && pos == old(pos) && toknext == old(toknext) &&
                  (tokens != null ==> tokens[..] == old(tokens[..]))
    {
      var start := pos;
      var ok := SkipPrimitive(js);
      if !ok {
        pos := start;
        return Inval;
      }
      if tokens == null {
        pos := pos - 1;
        return OK;
      }
      err := AddAtom(tokens, num, Primitive, start, pos);
      pos := if err == NoMem then start else pos - 1;
    }

    /** What a primitive or string does with a token array: NoMem and nothing changed, or the round's result
        with pos still to be advanced by one. */
    ghost predicate AtomDone(tokens: array<Token>, num: nat, err: Ret, was: State, typ: TokenType,
                             start: nat, end: nat, next: nat)
      reads this, tokens
    {
      Ok(was) && toknext <= tokens.Length && toksuper == was.toksuper &&
      match Atom(was, num, typ, start, end, next)
      case Halt(_) => err == NoMem && View(tokens, 0) == was.(count := 0)
      case Go(st) => err == OK && pos + 1 == st.pos && tokens[..toknext] == st.toks
    }

    /** The hexadecimal digits of \uXXXX: up to four, as far as the text goes. */
    method SkipHex(js: string) returns (ok: bool)
      requires pos <= |js|
      modifies this`pos
      ensures ScanHex(js, old(pos), 4) == if ok then Found(pos) else Bad
      ensures old(pos) <= pos <= |js|
    {
      var i := 0;
      while i < 4 && pos < |js| && js[pos] != '\0'
        invariant 0 <= i <= 4 && old(pos) <= pos <= |js| && ScanHex(js, old(pos), 4) == ScanHex(js, pos, 4 - i)
      {
        if !(('0' <= js[pos] <= '9') || ('A' <= js[pos] <= 'F') || ('a' <= js[pos] <= 'f')) { return false; }
        pos := pos + 1;
        i := i + 1;
      }
      return true;
    }

    /** The scanning loop of jsmn_parse_string, from behind the opening quote. */
    method SkipString(js: string) returns (r: Scan)
      requires pos <= |js|
      modifies this`pos
      ensures r == ScanString(js, old(pos)) && (r.Found? ==> pos == r.at)
    {
      while pos < |js| && js[pos] != '\0'
        invariant old(pos) <= pos <= |js| && ScanString(js, pos) == ScanString(js, old(pos))
        decreases |js| - pos
      {
        var c := js[pos];
        if c == '"' { return Found(pos); }
        if c == '\\' && pos + 1 < |js| {
          pos := pos + 1;
          var e := js[pos];
          if e == '"' || e == '/' || e == '\\' || e == 'b' || e == 'f' || e == 'r' || e == 'n' || e == 't' {
          } else if e == 'u' {
            pos := pos + 1;
            var ok := SkipHex(js);
            if !ok { return Bad; }
            pos := pos - 1;
          } else {
            return Bad;
          }
        }
        pos := pos + 1;
      }
      return Short;
    }

    /** jsmn_parse_string; on success pos is left on the closing quote. */
    method ParseString(js: string, tokens: array?<Token>, num: nat) returns (err: Ret)
      requires pos < |js| && (tokens != null ==> Valid(tokens, num))
      modifies this`pos, this`toknext, tokens
      ensures match ScanString(js, old(pos) + 1)
        case Found(q) =>
          if tokens == null then err == OK && pos == q && toknext == old(toknext)
          else AtomDone(tokens, num, err, old(View(tokens, 0)), String, old(pos) + 1, q, q + 1)
        case e => err == (if e == Bad then Inval else Part) && pos == old(pos) && toknext == old(toknext) &&
                  (tokens != null ==> tokens[..] == old(tokens[..]))
    {
      var start := pos;
      pos := pos + 1;
      var r := SkipString(js);
      match r
      case Found(_) =>
        if tokens == null { return OK; }
        err := AddAtom(tokens, num, String, start + 1, pos);
        if err == NoMem { pos := start; }
      case Bad =>
        pos := start;
        return Inval;
      case Short =>
        pos := start;
        return Part;
    }

    /** The bracket-opening case of jsmn_parse. */
    method OpenToken(js: string, tokens: array<Token>, num: nat) returns (err: Ret)
      requires Valid(tokens, num) && pos < |js| && (js[pos] == '{' || js[pos] == '[')
      modifies this`toknext, this`toksuper, tokens
      ensures toknext <= tokens.Length
      ensures match OpenBracket(js, old(View(tokens, 0)), num)
        case Halt(_) => err == NoMem && View(tokens, 0) == old(View(tokens, 0))
        case Go(st) => err == OK && View(tokens, 1) == st.(pos := pos)
    {
      ghost var was := View(tokens, 0);
      var i := AllocToken(tokens, num);
      if i == -1 { return NoMem; }
      assert tokens[..i] == was.toks;
      BumpSuper(tokens);
      if toksuper != -1 {
        tokens[i] := tokens[i].(parent := toksuper);
      }
      tokens[i] := tokens[i].(typ := if js[pos] == '{' then Object else Array);
      tokens[i] := tokens[i].(start := pos);
      assert tokens[..i] == Bump(was.toks, toksuper);
      assert tokens[..toknext] == tokens[..i] + [tokens[i]];
      toksuper := toknext - 1;
      return OK;
    }

    /** The backward scan for an open token, from index `from` - 1 down. */
    method FindOpen(tokens: array<Token>, from: nat) returns (i: int)
      requires from <= tokens.Length
      ensures i == LastOpen(tokens[..from])
    {
      i := from - 1;
      while i >= 0
        invariant -1 <= i < from && LastOpen(tokens[..from]) == LastOpen(tokens[..i + 1])
      {
        assert tokens[..i + 1][..i] == tokens[..i];
        if tokens[i].start != -1 && tokens[i].end == -1 { return; }
        i := i - 1;
      }
    }

    /** The backward scan of the comma case; -1 if it finds nothing. */
    method FindOpenContainer(tokens: array<Token>) returns (i: int)
      requires toknext <= tokens.Length
      ensures i == LastOpenContainer(tokens[..toknext])
    {
      i := toknext - 1;
      while i >= 0
        invariant -1 <= i < toknext && LastOpenContainer(tokens[..toknext]) == LastOpenContainer(tokens[..i + 1])
      {
        assert tokens[..i + 1][..i] == tokens[..i];
        if tokens[i].typ == Array || tokens[i].typ == Object {
          if tokens[i].start != -1 && tokens[i].end == -1 { return; }
        }
        i := i - 1;
      }
    }

    /** The walk along the parent links. */
    method FindOpenParent(tokens: array<Token>) returns (i: int)
      requires 0 < toknext <= tokens.Length && ParentsBelow(tokens[..toknext])
      ensures i == Climb(tokens[..toknext], toknext - 1)
    {
      ghost var toks := tokens[..toknext];
      i := toknext - 1;
      while true
        invariant 0 <= i < toknext && Climb(toks, i) == Climb(toks, toknext - 1)
        decreases i
      {
        assert toks[i] == tokens[i];
        if tokens[i].start != -1 && tokens[i].end == -1 { return; }
        if tokens[i].parent == -1 { return -1; }
        i := tokens[i].parent;
      }
    }

    /** The bracket-closing case of jsmn_parse, in the build at hand. */
    method CloseToken(js: string, tokens: array<Token>, num: nat) returns (err: Ret)
      requires Valid(tokens, num) && pos < |js| && (js[pos] == '}' || js[pos] == ']')
      modifies this`toksuper, tokens
      ensures match CloseBracket(js, old(View(tokens, 0)), links)
        case Halt(_) => err == Inval && View(tokens, 0) == old(View(tokens, 0))
        case Go(st) => err == OK && View(tokens, 0) == st.(pos := pos)
    {
      ghost var was := View(tokens, 0);
      var typ := if js[pos] == '}' then Object else Array;
      var i;
      if links {
        if toknext < 1 { return Inval; }
        i := FindOpenParent(tokens);
        if i == -1 { return OK; }
      } else {
        i := FindOpen(tokens, toknext);
        if i == -1 { return Inval; }
      }
      assert tokens[i] == was.toks[i];
      if tokens[i].typ != typ { return Inval; }
      if links {
        toksuper := tokens[i].parent;
      } else {
        assert was.toks[..i] == tokens[..i];
        toksuper := FindOpen(tokens, i);
      }
      tokens[i] := tokens[i].(end := pos + 1);
      assert tokens[..toknext] == was.toks[i := was.toks[i].(end := pos + 1)];
      return OK;
    }

    /** The comma case of jsmn_parse; the read of tokens[toksuper] has to be defined. */
    method CommaToken(tokens: array<Token>, num: nat)
      requires Valid(tokens, num) && toksuper != -1
      modifies this`toksuper
      ensures Comma(old(View(tokens, 0)), links) == Go(View(tokens, 0).(pos := pos + 1))
    {
      ghost var toks := tokens[..toknext];
      assert toks[toksuper] == tokens[toksuper];
      if tokens[toksuper].typ != Array && tokens[toksuper].typ != Object {
        if links {
          toksuper := tokens[toksuper].parent;
        } else {
          var i := FindOpenContainer(tokens);
          if i != -1 { toksuper := i; }
        }
      }
    }

    /** One round of jsmn_parse with a token array: the switch and the pos++ of the loop. Undefined marks the
        read of tokens[-1], which this method does not carry out. */
    method Round(js: string, tokens: array<Token>, num: nat) returns (err: Ret, counted: bool)
      requires Valid(tokens, num) && More(js, pos)
      modifies this`pos, this`toknext, this`toksuper, tokens
      ensures toknext <= tokens.Length
      ensures match Step(js, old(View(tokens, 0)), num, links)
        case Halt(ret) => err == ret && View(tokens, 0) == old(View(tokens, 0))
        case Go(st) => err == OK && View(tokens, if counted then 1 else 0) == st
    {
      var c := js[pos];
      err, counted := OK, false;
      if c == '{' || c == '[' {
        counted := true;
        err := OpenToken(js, tokens, num);
      } else if c == '}' || c == ']' {
        err := CloseToken(js, tokens, num);
      } else if c == '"' {
        counted := true;
        err := ParseString(js, tokens, num);
      } else if c == '\t' || c == '\r' || c == '\n' || c == ' ' {
      } else if c == ':' {
        toksuper := toknext - 1;
      } else if c == ',' {
        if toksuper == -1 {
          err := Undefined;
        } else {
          CommaToken(tokens, num);
        }
      } else {
        counted := true;
        err := ParsePrimitive(js, tokens, num);
      }
      if err == OK { pos := pos + 1; }
    }

    /** One round of jsmn_parse without a token array. */
    method CountRound(js: string) returns (err: Ret, counted: bool)
      requires More(js, pos) && toknext == 0
      modifies this`pos, this`toknext, this`toksuper
      ensures toknext == 0
      ensures match CountStep(js, old(pos), 0)
        case CountHalt(ret) => err == ret && pos == old(pos)
        case CountGo(next, n) => err == OK && pos == next && n == if counted then 1 else 0
    {
      var c := js[pos];
      err, counted := OK, false;
      if c == '{' || c == '[' {
        counted := true;
      } else if c == '}' || c == ']' {
      } else if c == '"' {
        counted := true;
        err := ParseString(js, null, 0);
      } else if c == '\t' || c == '\r' || c == '\n' || c == ' ' {
      } else if c == ':' {
        toksuper := toknext - 1;
      } else if c == ',' {
      } else {
        counted := true;
        err := ParsePrimitive(js, null, 0);
      }
      if err == OK { pos := pos + 1; }
    }

    /** The same round with the local count. */
    method RoundAndCount(js: string, tokens: array<Token>, num: nat, count: nat) returns (err: Ret, count': nat)
      requires Valid(tokens, num) && More(js, pos)
      modifies this`pos, this`toknext, this`toksuper, tokens
      ensures toknext <= tokens.Length
      ensures var o := Step(js, old(View(tokens, count)), num, links);
        if o.Go? then err == OK && View(tokens, count') == o.st
        else err == o.ret && err != OK && count' == count && View(tokens, count) == old(View(tokens, count))
    {
      RoundShifts(js, View(tokens, 0), count, num, links);
      HaltIsError(js, View(tokens, 0), num, links);
      assert Shift(View(tokens, 0), count) == View(tokens, count);
      var counted;
      err, counted := Round(js, tokens, num);
      count' := if err == OK && counted then count + 1 else count;
    }

    /** jsmn_parse with a token array. */
    method Parse(js: string, tokens: array<Token>, num: nat) returns (ret: Ret)
      requires Valid(tokens, num)
      modifies this`pos, this`toknext, this`toksuper, tokens
      ensures toknext <= tokens.Length
      ensures var (r, st) := Run(js, old(View(tokens, 0)), num, links);
        ret == r && View(tokens, st.count) == st
    {
      ghost var was := View(tokens, 0);
      var count := 0;
      while pos < |js| && js[pos] != '\0'
        invariant Valid(tokens, num) && Run(js, was, num, links) == Run(js, View(tokens, count), num, links)
        decreases |js| - pos
      {
        RunRound(js, View(tokens, count), num, links);
        var err;
        err, count := RoundAndCount(js, tokens, num, count);
        if err != OK { return err; }
      }
      var i := FindOpen(tokens, toknext);
      return if i != -1 then Part else Count(count);
    }

    /** jsmn_parse with tokens == NULL, from a fresh parser. */
    method CountTokens(js: string) returns (ret: Ret)
      requires toknext == 0
      modifies this`pos, this`toknext, this`toksuper
      ensures ret == CountRun(js, old(pos), 0)
    {
      var count := 0;
      while pos < |js| && js[pos] != '\0'
        invariant toknext == 0 && CountRun(js, old(pos), 0) == CountRun(js, pos, count)
        decreases |js| - pos
      {
        CountStepShifts(js, pos, count);
        var err, counted := CountRound(js);
        if err != OK { return err; }
        if counted { count := count + 1; }
      }
      return Count(count);
    }
  }
}
