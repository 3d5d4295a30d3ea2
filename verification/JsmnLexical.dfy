/** What jsmn's scanning loops accept, exactly: the strings and primitives of module JsmnTree and nothing else. */
module JsmnLexical {
  import opened JsmnModel
  import opened JsmnTree

  /** From p on, js holds the body of a string and its closing quote at q. */
  ghost predicate BodyAt(js: string, p: nat, q: nat) {
    p <= q < |js| && js[q] == '"' && exists body :: OkBody(body) && BodyText(body) == js[p..q]
  }

  /** What may come behind a primitive: the end of the text, white space, or one of the four. */
  predicate Ends(js: string, q: nat) { q == |js| || (q < |js| && js[q] in "\0 \t\r\n:,]}") }

  lemma {:induction false} HexesAt(js: string, p: nat, n: nat, r: nat)
    requires ScanHex(js, p, n) == Found(r) && More(js, r)
    ensures r == p + n && forall i :: p <= i < r ==> Hex(js[i])
    decreases n
  {
    if n > 0 { HexesAt(js, p + 1, n - 1, r); }
  }

  lemma UnicodePiece(js: string, p: nat) returns (piece: Piece)
    requires p + 6 <= |js| && js[p] == '\\' && js[p + 1] == 'u' && forall i :: p + 2 <= i < p + 6 ==> Hex(js[i])
    ensures OkPiece(piece) && PieceText(piece) == js[p..p + 6]
  {
    piece := Unicode(js[p + 2], js[p + 3], js[p + 4], js[p + 5]);
    DigitIsHex(js[p + 2]);
    DigitIsHex(js[p + 3]);
    DigitIsHex(js[p + 4]);
    DigitIsHex(js[p + 5]);
  }

  lemma UnicodeAt(js: string, p: nat, q: nat) returns (piece: Piece)
    requires ScanString(js, p) == Found(q) && p + 1 < |js| && js[p] == '\\' && js[p + 1] == 'u'
    ensures OkPiece(piece) && p + 6 <= q < |js| && PieceText(piece) == js[p..p + 6] && ScanString(js, p + 6) == Found(q)
  {
    HexesAt(js, p + 2, 4, ScanHex(js, p + 2, 4).at);
    piece := UnicodePiece(js, p);
  }

  lemma EscapeAt(js: string, p: nat, q: nat) returns (piece: Piece)
    requires ScanString(js, p) == Found(q) && p + 1 < |js| && js[p] == '\\' && js[p + 1] != 'u'
    ensures OkPiece(piece) && p + 2 <= q < |js| && PieceText(piece) == js[p..p + 2] && ScanString(js, p + 2) == Found(q)
  {
    piece := Escape(js[p + 1]);
  }

  lemma PlainAt(js: string, p: nat, q: nat) returns (piece: Piece)
    requires ScanString(js, p) == Found(q) && p < |js| && js[p] != '"' && js[p] != '\\'
    ensures OkPiece(piece) && p + 1 <= q < |js| && PieceText(piece) == js[p..p + 1] && ScanString(js, p + 1) == Found(q)
  {
    piece := Plain(js[p]);
  }

  /** The piece in front, and what is scanned behind it. */
  lemma PieceAt(js: string, p: nat, q: nat) returns (piece: Piece, next: nat)
    requires ScanString(js, p) == Found(q) && p < |js| && js[p] != '"'
    ensures OkPiece(piece) && p < next <= q < |js| && PieceText(piece) == js[p..next] && ScanString(js, next) == Found(q)
  {
    if js[p] != '\\' {
      piece := PlainAt(js, p, q);
      next := p + 1;
    } else if js[p + 1] == 'u' {
      piece := UnicodeAt(js, p, q);
      next := p + 6;
    } else {
      piece := EscapeAt(js, p, q);
      next := p + 2;
    }
  }

  lemma BodyMore(js: string, p: nat, next: nat, q: nat, piece: Piece, rest: seq<Piece>)
    requires p < next <= q < |js| && OkPiece(piece) && PieceText(piece) == js[p..next]
    requires OkBody(rest) && BodyText(rest) == js[next..q]
    ensures OkBody([piece] + rest) && BodyText([piece] + rest) == js[p..q]
  {
    assert ([piece] + rest)[1..] == rest;
    assert js[p..q] == js[p..next] + js[next..q];
  }

  lemma {:induction false} BodyOf(js: string, p: nat, q: nat) returns (body: seq<Piece>)
    requires ScanString(js, p) == Found(q)
    ensures p <= q < |js| && js[q] == '"' && OkBody(body) && BodyText(body) == js[p..q]
    decreases |js| - p
  {
    if js[p] == '"' {
      body := [];
    } else {
      var piece, next := PieceAt(js, p, q);
      var rest := BodyOf(js, next, q);
      BodyMore(js, p, next, q, piece, rest);
      body := [piece] + rest;
    }
  }

  /** A string ends at q if and only if the characters up to q are plain ones and escapes, and q is its closing quote. */
  lemma StringExactly(js: string, p: nat, q: nat)
    ensures ScanString(js, p) == Found(q) <==> BodyAt(js, p, q)
  {
    if ScanString(js, p) == Found(q) {
      var body := BodyOf(js, p, q);
    }
    if BodyAt(js, p, q) {
      var body :| OkBody(body) && BodyText(body) == js[p..q];
      ScanBody(js, p, body);
    }
  }

  lemma PrimitiveChar(c: char)
    ensures !Delimiter(c) && Printable(c) <==> 33 <= c as int <= 126 && c !in ":,]}"
  {
  }

  lemma EndsStops(js: string, q: nat)
    requires q <= |js|
    ensures Ends(js, q) <==> Stops(js, q)
  {
  }

  lemma {:induction false} CharsAt(js: string, p: nat, q: nat)
    requires p <= |js| && ScanPrimitive(js, p) == Found(q)
    ensures p <= q <= |js| && Stops(js, q) && forall i :: p <= i < q ==> !Delimiter(js[i]) && Printable(js[i])
    decreases |js| - p
  {
    if !Stops(js, p) { CharsAt(js, p + 1, q); }
  }

  /** A primitive ends at q if and only if its characters are printable ones other than the delimiters, and one of
      these or the end of the text follows. */
  lemma PrimitiveExactly(js: string, p: nat, q: nat)
    requires p < q && p < |js| && js[p] !in "{[\""
    ensures ScanPrimitive(js, p) == Found(q) <==> q <= |js| && OkPrimitive(js[p..q]) && Ends(js, q)
  {
    if ScanPrimitive(js, p) == Found(q) {
      CharsAt(js, p, q);
      EndsStops(js, q);
      forall c | c in js[p..q] ensures 33 <= c as int <= 126 && c !in ":,]}" { PrimitiveChar(c); }
    }
    if q <= |js| && OkPrimitive(js[p..q]) && Ends(js, q) {
      EndsStops(js, q);
      forall c | c in js[p..q] ensures Printable(c) && !Delimiter(c) { PrimitiveChar(c); }
      ScanText(js, p, js[p..q]);
    }
  }
}
