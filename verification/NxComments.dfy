/** nxjson's comments, exactly: what they look like as text, and that the parser passes over these and no others. */
module NxComments {
  import opened NxText
  import opened NxModel

  /** From two slashes to the end of the line. */
  predicate LineComment(s: string) {
    |s| >= 3 && s[0] == '/' && s[1] == '/' && s[|s| - 1] == '\n' && forall i :: 2 <= i < |s| - 1 ==> s[i] != '\n'
  }

  /** From a slash and a star to the first star and slash behind them. */
  predicate BlockComment(s: string) {
    |s| >= 4 && s[0] == '/' && s[1] == '*' && s[|s| - 2] == '*' && s[|s| - 1] == '/' &&
    forall i :: 3 <= i < |s| - 1 ==> !(s[i - 1] == '*' && s[i] == '/')
  }

  lemma {:induction false} FirstChar(t: string, p: nat, c: char, q: nat)
    requires Terminated(t) && p < |t| && c != '\0'
    ensures FindChar(t, p, c) == Some(q) <==> p <= q < |t| && t[q] == c && forall i :: p <= i < q ==> t[i] != c
    decreases |t| - p
  {
    if t[p] != c && t[p] != '\0' { FirstChar(t, p + 1, c, q); }
  }

  /** Behind "/" and "*" at p - 2, the comment ends at q. */
  predicate EndsAt(t: string, p: nat, q: nat) {
    && p + 2 <= q < |t| && t[q - 2] == '*' && t[q - 1] == '/'
    && forall i :: p + 1 <= i < q - 1 ==> !(t[i - 1] == '*' && t[i] == '/')
  }

  lemma {:induction false} EndsExactly(t: string, p: nat, q: nat)
    requires Terminated(t) && p < |t| - 1
    ensures CommentEnd(t, p) == Some(q) <==> EndsAt(t, p, q)
    decreases |t| - p
  {
    var slash := FindChar(t, p + 1, '/');
    if slash.Some? {
      FirstChar(t, p + 1, '/', slash.value);
      EndsExactly(t, slash.value, q);
    } else if EndsAt(t, p, q) {
      NoneBehind(t, p + 1, '/', q - 1);
    }
  }

  lemma {:induction false} NoneBehind(t: string, p: nat, c: char, q: nat)
    requires Terminated(t) && p < |t| && c != '\0' && FindChar(t, p, c).None? && p <= q < |t|
    ensures t[q] != c
    decreases |t| - p
  {
    if t[p] != '\0' && p < q { NoneBehind(t, p + 1, c, q); }
  }

  lemma SliceChars(t: string, p: nat, q: nat)
    requires p <= q <= |t|
    ensures forall i :: 0 <= i < q - p ==> t[p..q][i] == t[p + i]
    ensures forall i :: p <= i < q ==> t[i] == t[p..q][i - p]
  {
  }

  lemma LineExactly(t: string, p: nat, q: nat)
    requires Terminated(t) && p < |t| - 1 && t[p] == '/' && t[p + 1] == '/'
    ensures SkipComment(t, p) == Some(q) <==> p < q < |t| && LineComment(t[p..q])
  {
    if p < q < |t| {
      FirstChar(t, p + 2, '\n', q - 1);
      SliceChars(t, p, q);
    }
  }

  lemma BlockExactly(t: string, p: nat, q: nat)
    requires Terminated(t) && p < |t| - 1 && t[p] == '/' && t[p + 1] == '*'
    ensures SkipComment(t, p) == Some(q) <==> p < q < |t| && BlockComment(t[p..q])
  {
    if t[p + 2] != '\0' { EndsExactly(t, p + 2, q); }
    if p < q < |t| { SliceChars(t, p, q); }
  }

  /** At a slash, the parser goes on at q if and only if the text up to q is a comment. */
  lemma CommentExactly(t: string, p: nat, q: nat)
    requires Terminated(t) && p < |t| - 1 && t[p] == '/'
    ensures SkipComment(t, p) == Some(q) <==> p < q < |t| && (LineComment(t[p..q]) || BlockComment(t[p..q]))
  {
    if t[p + 1] == '/' {
      LineExactly(t, p, q);
    } else if t[p + 1] == '*' {
      BlockExactly(t, p, q);
    }
  }
}
