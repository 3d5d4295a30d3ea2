# Six state machines of the firmware tree, modelled and proved in Dafny

This project models six pieces of the firmware tree that keep real state in arrays, lists or rings, and proves what
each of them is for. `dafny verify dfyconfig.toml` checks everything.

Where the C code changes something step by step, there is a method or a class that does so too, and its contract
equates the new state with a function of the old one. What the code promises is then proved about these functions
by lemmas, over every input and every run.

* **The TLS sniffer of CyaSSL** (`Reassembly`, `RecordLayer`, `Stream`, `Session`, `SessionTable`). Captured TCP
  segments of one direction arrive in any order. Early ones are kept in a linked list of disjoint runs of bytes
  (`Reassembly`), in-order ones go to an input buffer that is cut into TLS records across packet boundaries
  (`RecordLayer`, section 6.2.1 of RFC 5246). `Stream` is the whole pipeline as a function of one direction's state
  and proves that exactly the sent stream comes out; `Session` runs it on an array, a cursor and the list.
  `SessionTable` is the chained hash table that finds a connection from a packet of either direction.
* **jsmn** (`JsmnModel`, `JsmnTree`, `JsmnLexical`, `JsmnRuns`, `JsmnModes`, `JsmnInvariants`, `JsmnLinks`, `JsmnBuilds`,
  `JsmnParts`, `Jsmn`). The one-pass tokenizer whose token array doubles as the stack of open brackets, in the build with
  a backward scan and in the build with parent links, in its counting mode, on texts that are cut short, and when it is
  restarted after running out of tokens.
* **nxjson** (`NxText`, `NxSpelling`, `NxModel`, `NxComments`, `NxArena`, `NxParser`, `NxRoundTrip`, `NxReadBack`). The
  recursive-descent parser
  that unescapes strings in the buffer it is reading. `NxModel` is a parser on the original, immutable text; `NxParser`
  is the in-place one, proved to build the records of the same tree; `NxReadBack` reads a written tree back through
  `nx_json_item` and `nx_json_get`.
* **CRC-32** (`CrcTable`, `CrcPoly`, `CrcBits`, `Crc32`). The table-driven loop, division of polynomials over GF(2)
  as it is written out on paper, and a machine word seen as a polynomial.
* **The 802.15.4 MAC transmit machine of nanostack** (`MacModel`, `MacRuns`, `MacFrames`, `MacAcks`, `MacLive`,
  `MacTx`). A ring of three buffers, one
  frame on air, a timer that waits for a channel check or an acknowledgement, and two retry counters (section
  7.5.6.4.3 of IEEE 802.15.4-2006), in the ad-hoc build.
* **The broadcast filter of nanostack** (`Flooding`). A table of originators and their last sequence numbers with
  round-robin replacement.

## Conventions

* Formats are spelled out where a theorem states them, in literal octets and characters (`RecordLayer.Spelled`,
  `JsmnTree.OkValue`, `NxSpelling.Written`, `NxComments.BlockComment`, `MacFrames.DataFrame`,
  `Flooding.SameSender`), apart from the functions of the model that read or build them.
* Characters and `byte` values stand for C bytes. Integers are unbounded; where the width matters it is written out:
  the product in `SessionHash` is taken modulo 2^32, sequence numbers of the MAC and the filter wrap at eight bits,
  a buffer window is set back by a length kept in eight bits, the CRC works on 32-bit vectors. Stream positions stay
  below 2^32, because `CreateBuffer` asserts that a run's first position is not above its last (sniffer.c:2249).
* The records of nxjson live in one sequence, in allocation order; a pointer is an index, NULL is -1. In jsmn the
  model records a token's parent in both builds; only the parent-link build reads it.
* MAC buffers are values with an identity. Calls into the radio, the timers and the clock are inputs: what `rf_write`
  returns, when the timer expires, the current time.

## Where the code and its promise part

* `AdjustSequence` computes a relative sequence number that is one less than the modular distance once the sequence
  number has rolled over (sniffer.c:2384-2385). `Stream.RelativeIsDistance` states exactly when it is right;
  `Stream.RolloverDropsByte` says what follows: the first in-order segment behind the rollover loses its first byte.
* `AdjustSequence` mixes inclusive and exclusive ends when a segment overlaps queued data: it adds one byte from behind
  the segment, and an exactly in-order segment is not trimmed against the list (sniffer.c:2399-2417, 2431).
  `Stream.ScopeIsExact` proves that the stream survives a segment if and only if a condition holds that a caller can
  check before the call, and the run theorems carry that condition. Out of scope an overlapping duplicate hands out a
  byte that is not the stream's (`Stream.OverlapForges`), and an in-order segment overtakes the front of the list,
  after which nothing on the list is ever used (`Stream.OverrunIsStale`, `Stream.StaleForEver`). `Stream.ByteLost` is a
  run in which every byte arrives and the only record is never handed out.
* The parent-link build of jsmn passes over a closing bracket while none is open, once a token has been seen
  (jsmn.c:193-206). `JsmnInvariants.ParentLinksAcceptUnmatched` gives the text, `JsmnLinks.LinksSucceedExactly` says
  for all texts when that build succeeds.
* Behind a comma outside every bracket the two builds can count a token in different superior tokens, although both
  succeed: `JsmnBuilds.SizesDiffer` is such a text, `JsmnBuilds.SpansAgree` says what they agree on for every text.
* A comma makes jsmn read `tokens[-1]` while toksuper is -1 (jsmn.c:244). When that is depends on the text and on the
  number of tokens only, and differently in the two builds: `JsmnInvariants.UndefinedExactly` and
  `JsmnLinks.LinksUndefinedExactly` say exactly when. A comma inside a bracket never does it. Outside, a key and a colon
  in front make the comma defined, but a bracket closed in between takes the superior token away without parent links
  (`JsmnLinks.BuildsDifferAtComma`), and a first comma takes it away with them.
* `check_broadcast_id` returns 2 for a repeat with the same hop count, which its comment does not mention
  (cIPv6.c:904-905, 936). `cipv6_init` does not reset `flood_indexs`; `Flooding.KeptLongEnough` says exactly for which
  entries the table then forgets early, and `Flooding.ClearedTableForgetsEarly` shows a run that does.
* `ack_handle` clears the MAC's timer before the frame on air is released (mac_15_4.c:1488-1493). A transmit event that
  is handled in between overwrites the frame: it is then nowhere, and the acknowledgement is credited to the next
  buffer. `MacAcks.AcknowledgesExactly` says for every state when an acknowledgement releases the right frame;
  `MacRuns.StepKeeps` shows that overwriting is the only step that loses a buffer, and the run theorems exclude that
  step; `MacLive.LateBuffer` is a run that comes to it.
* The event queue has 20 places, and both interrupts ignore what `xQueueSendFromISR` returns (mac_15_4.c:1491, 1638).
  When the timer's event is dropped, the frame on air and all buffers behind it are stuck for good, whatever comes
  (`MacLive.StuckForEver`, with a run in `MacLive.DroppedExpiry`). When the event of an acknowledgement is dropped, the
  acknowledged frame never leaves: it stays until a transmit event overwrites it, which is the only step that moves it,
  and then the buffers behind it go on, though with its retries counted against the next one
  (`MacLive.OverwritingRevives`, `MacLive.OthersGoOn`, with a run in `MacLive.DroppedAcknowledgement`).
  `MacLive.LiveExactly` proves that a dropped event is the only way to get there, and `MacLive.EveryBufferLeaves` that
  otherwise every buffer leaves.
* A broken-link buffer gets its payload window back only if the payload is shorter than 256 bytes, because
  `lowpan_compressed` has eight bits (mac_15_4.c:774, 829, 1529); `MacRuns.PayloadRestored` is an equivalence.

## Model

| member | source | states |
|---|---|---|
| Reassembly.CreateBuffer | cyassl-3.3.0/src/sniffer.c:2243-2270 | a new unlinked node holds exactly the bytes from begin to end, and the caller's position moves behind them |
| Reassembly.ReassemblyList.Add | cyassl-3.3.0/src/sniffer.c:2274-2351 | walking and relinking the list in place leaves it linked, acyclic and consistent, and its contents are the old runs filled with the segment's missing bytes |
| Reassembly.ReassemblyList.Advance | cyassl-3.3.0/src/sniffer.c:2316-2320 | the inner walk ends at the last run that starts at or before the position |
| Reassembly.ReassemblyList.FindGap | cyassl-3.3.0/src/sniffer.c:2316-2328 | bytes held by the run before the gap are dropped, the rest starts in the gap or behind the list |
| Reassembly.ReassemblyList.FillNextGap | cyassl-3.3.0/src/sniffer.c:2314-2349 | one round fills one gap and comes closer to the end of the list, so the outer loop terminates |
| Reassembly.FillByteMap | cyassl-3.3.0/src/sniffer.c:2274-2351 | the map from sequence numbers to bytes is the old one extended by the segment; old bytes win, nothing is lost or invented |
| Reassembly.FillWellFormed | cyassl-3.3.0/src/sniffer.c:2274-2351 | the list stays sorted, disjoint and non-empty per node |
| Reassembly.WellFormedPairwise | cyassl-3.3.0/src/sniffer.c:2262-2351 | sorted neighbours mean that any two runs are disjoint and in order |
| RecordLayer.FrameIsChunkingIndependent | cyassl-3.3.0/src/sniffer.c:2649-2686 | parsing a first piece and then its leftover with the next piece is parsing both at once |
| RecordLayer.AnyChunking | cyassl-3.3.0/src/sniffer.c:2649-2686 | however the stream is cut, the records handed out and the leftover are those of the whole stream |
| RecordLayer.LeftoverIsIncomplete | cyassl-3.3.0/src/sniffer.c:2661-2686 | what is kept is never a complete record and stays below one record's size |
| RecordLayer.FrameUndoesEncode | cyassl-3.3.0/src/sniffer.c:1266-1275 | any list of well-formed records with an incomplete tail is cut back into those records and that tail; what the bytes of a record are is said by SpelledRecordsComeBack |
| RecordLayer.SpelledRecordsComeBack | cyassl-3.3.0/src/sniffer.c:2649-2686 | for every list of types 20 to 23, versions and fragments of at most 16454 bytes, written as type, version, length in two bytes and fragment, followed by a proper prefix of one more: exactly these types and fragments are handed out, and the prefix is kept |
| RecordLayer.OthersAreFatal | cyassl-3.3.0/src/sniffer.c:1266-1275 | a record of another type, or one that is longer, is fatal, and what comes in front of it is handed out |
| RecordLayer.EncodeUndoesFrame | cyassl-3.3.0/src/sniffer.c:2790-2817 | the records handed out and the leftover are the stream's bytes, none lost, added or moved |
| Stream.RelativeIsDistance | cyassl-3.3.0/src/sniffer.c:2376-2390 | the relative position is the modular distance if and only if the sequence number has not rolled over |
| Stream.RolloverDropsByte | cyassl-3.3.0/src/sniffer.c:2384-2397 | the first in-order segment behind the rollover looks one byte old: exactly its first byte is dropped, and the next segment looks in order again |
| Stream.AdjustEarly | cyassl-3.3.0/src/sniffer.c:2422-2426 | an early segment is queued; the list stays the stream's and nothing is passed on |
| Stream.AdjustInOrder | cyassl-3.3.0/src/sniffer.c:2372-2436 | an in-order segment in scope is passed on whole and leaves the list in front of the next byte |
| Stream.AdjustOverlap | cyassl-3.3.0/src/sniffer.c:2389-2418 | a partly old segment in scope passes on exactly the stream's next bytes |
| Stream.AdjustKeeps | cyassl-3.3.0/src/sniffer.c:2372-2436 | every branch keeps the state tracking the stream |
| Stream.ScopeIsExact | cyassl-3.3.0/src/sniffer.c:2389-2431 | the list is still the stream's and not behind the expected position after a segment, whatever byte lies behind it, if and only if the segment is in scope, a condition on positions and one byte that can be checked before the call |
| Stream.OverrunIsStale | cyassl-3.3.0/src/sniffer.c:2431-2431 | an in-order segment out of scope leaves the front of the list behind the expected position |
| Stream.StaleForEver | cyassl-3.3.0/src/sniffer.c:2422-2628 | from then on, over every run, the front stays and every byte passed on has to arrive again in order |
| Stream.OverlapForges | cyassl-3.3.0/src/sniffer.c:2399-2417 | after an overlapping duplicate out of scope, what is handed out is another stream, which has the byte of memory behind the duplicate in the place of the stream's own |
| Stream.ByteLost | cyassl-3.3.0/src/sniffer.c:2372-2628 | four segments that carry every byte of a stream with one record, after which the record has not been handed out and its last byte is behind a stale front |
| Stream.DrainKeeps | cyassl-3.3.0/src/sniffer.c:2573-2628 | draining moves the stream's next bytes only, and leaves the list empty or strictly behind the expected position |
| Stream.ProcessKeeps | cyassl-3.3.0/src/sniffer.c:2634-2817 | cutting records and draining in turns keeps everything |
| Stream.RoomForNext | cyassl-3.3.0/src/sniffer.c:2529-2544 | with the given buffer one more segment always fits, so the buffer is never enlarged |
| Stream.RunIsSafe | cyassl-3.3.0/src/sniffer.c:2372-2628 | over any run of segments cut from one stream, each as long as the buffer can take behind an incomplete record, in any order, with duplicates and overlaps in scope, the records handed out and the leftover are those of the stream's prefix up to the expected position |
| Stream.RunIsComplete | cyassl-3.3.0/src/sniffer.c:2372-2628 | once every byte has arrived in some segment, the whole stream has been handed out |
| Stream.RunDeliversRecords | cyassl-3.3.0/src/sniffer.c:2372-2817 | so, once every byte of records spelled out in this way has arrived, in any order in scope, exactly these types and fragments have been handed out |
| Session.Half.HaveMoreInput | cyassl-3.3.0/src/sniffer.c:2573-2628 | copying front runs into the buffer and unlinking their nodes is the drain of the stream model |
| Session.Half.ProcessMessage | cyassl-3.3.0/src/sniffer.c:2634-2817 | the loop over the cursor, the buffer and the list hands out the records of the stream model |
| Session.Half.AdjustSequence | cyassl-3.3.0/src/sniffer.c:2372-2436 | the three branches, with the list changed in place, are the adjustment of the stream model |
| Session.Half.CheckPreRecord | cyassl-3.3.0/src/sniffer.c:2529-2544 | the record layer sees what is buffered followed by the new bytes |
| Session.Half.DecodeSegment | cyassl-3.3.0/src/sniffer.c:2372-2817 | one captured segment changes the session as the stream model says |
| SessionTable.HashIsSymmetric | cyassl-3.3.0/src/sniffer.c:939-945 | both directions of a connection hash to the same row |
| SessionTable.MatchingPacketsShareRow | cyassl-3.3.0/src/sniffer.c:939-968 | a session's packets in either direction hash to the row that holds it |
| SessionTable.RowLookupIsGlobal | cyassl-3.3.0/src/sniffer.c:949-971 | searching one row finds what searching the flat newest-first list finds |
| SessionTable.NewestIsFirstMatch | cyassl-3.3.0/src/sniffer.c:959-971 | the session found is the newest with these endpoints, or there is none |
| SessionTable.MatchesBothWays | cyassl-3.3.0/src/sniffer.c:959-971 | a session matches a packet if and only if the packet's endpoints are the session's client and server, or its server and client |
| SessionTable.NewestOfCreated | cyassl-3.3.0/src/sniffer.c:949-971 | a session in front is found by its own endpoints and by their reverse; every other packet finds what it would find without it |
| SessionTable.CreateThenFind | cyassl-3.3.0/src/sniffer.c:949-2066 | over the table, after a session has been created the client's and the server's packets both find it |
| SessionTable.WithoutByRow | cyassl-3.3.0/src/sniffer.c:1933-1970 | deleting from the flat list deletes from each row and keeps the order |
| SessionTable.Table.GetSnifferSession | cyassl-3.3.0/src/sniffer.c:949-988 | the lookup returns the newest matching session and refreshes only that one |
| SessionTable.Table.CreateSession | cyassl-3.3.0/src/sniffer.c:1994-2066 | a new session becomes the newest, every HASH_SIZE creations the stale ones are gone, and none that was used within 900 seconds is |
| SessionTable.Table.RemoveSession | cyassl-3.3.0/src/sniffer.c:1933-1970 | exactly this session is unlinked from its row, all others stay in order |
| SessionTable.Table.RemoveStaleSessions | cyassl-3.3.0/src/sniffer.c:1974-1990 | exactly the sessions unused for 900 seconds are removed, the rest stays in order |
| JsmnRuns.ParseListsTheTree | jsmn/jsmn.c:153-300 | for every value tree, every placement of blanks, tabs and line ends and enough tokens, either build returns the number of nodes and leaves the tree's preorder listing with exact types, spans and sizes |
| JsmnRuns.BuildsAgree | jsmn/jsmn.c:188-258 | on every document the two builds produce the same tokens and the same result |
| JsmnBuilds.SpansAgree | jsmn/jsmn.c:160-299 | on every text on which both builds succeed they return the same number, and their tokens agree in type, start and end |
| JsmnBuilds.SizesDiffer | jsmn/jsmn.c:239-258 | a text on which both succeed and the sizes differ |
| JsmnTree.ListingFinished | jsmn/jsmn.c:160-300 | the listing's tokens are closed, nested under their root and leave the walk up the links where it was before |
| JsmnLexical.StringExactly | jsmn/jsmn.c:93-144 | a string ends at a position if and only if what is before it consists of plain characters, the eight escapes and \u with four hexadecimal digits, and a quote stands there |
| JsmnLexical.PrimitiveExactly | jsmn/jsmn.c:44-63 | a primitive ends at a position if and only if its characters are codes 33 to 126 other than colon, comma and closing brackets, and the end of the text, white space or one of these follows |
| JsmnParts.PartExactly | jsmn/jsmn.c:292-299 | on any text without NUL, in either build, with room for a token per character: the call succeeds or returns JSMN_ERROR_PART (jsmn.h:30-31) if and only if the text has a continuation that is accepted |
| JsmnParts.CompletedFrom | jsmn/jsmn.c:292-299 | the continuation: the rest of a string that is cut off, and the missing closing brackets; it takes at most one more token |
| JsmnParts.PrefixFrom | jsmn/jsmn.c:160-299 | a prefix of an accepted text is never refused, with the same number of tokens |
| JsmnParts.TruncatedIsPart | jsmn/jsmn.c:292-299 | every document that is an array, object or string and is cut off anywhere inside returns JSMN_ERROR_PART, in either build |
| JsmnModes.CountingAgrees | jsmn/jsmn.c:166-186 | whenever the full call succeeds, the counting call returns the same number |
| JsmnModes.CountedIsEnough | jsmn/jsmn.c:66-102 | an array of the counted size never runs out of tokens |
| JsmnModes.CountThenParse | jsmn/jsmn.c:153-300 | counting and then parsing into that many tokens is parsing into any larger array |
| JsmnModes.NoMemIsPrefix | jsmn/jsmn.c:70-74 | a call that ran out of tokens stopped in a state that the call with more tokens goes through |
| JsmnModes.RestartContinues | jsmn/jsmn.c:166-183 | after running out of tokens, a second call with a larger array ends with the parser and tokens of one call, and returns the number of new tokens |
| JsmnInvariants.OpenTokensAreUnmatchedBrackets | jsmn/jsmn.c:160-228 | at every loop head the open tokens in index order are exactly the unmatched brackets outside strings and primitives |
| JsmnInvariants.SucceedsExactly | jsmn/jsmn.c:160-299 | on any text, the call succeeds if and only if no comma comes without a superior token, the text is lexically right, its brackets balance by type, and there are enough tokens |
| JsmnInvariants.SizesCountChildren | jsmn/jsmn.c:172-181 | wherever a call stops, the sizes add up to the number of tokens that had a parent |
| JsmnInvariants.SpansAreNested | jsmn/jsmn.c:160-299 | after success all spans are finished, nested or apart, and their starts increase strictly |
| JsmnInvariants.UndefinedExactly | jsmn/jsmn.c:230-258 | on any text and with any number of tokens, the build without parent links reads tokens[-1] if and only if, before it stops for another reason, it comes to a comma while the text so far leaves no superior token |
| JsmnInvariants.CommasInsideAreDefined | jsmn/jsmn.c:239-258 | in particular it never does if every comma stands inside a bracket |
| JsmnInvariants.ParentLinksAcceptUnmatched | jsmn/jsmn.c:194-211 | a text that one build rejects for an unmatched bracket and the other accepts |
| JsmnLinks.LedAppend | jsmn/jsmn.c:166-183 | a token appended under toksuper keeps the links leading from every open bracket to the one around it |
| JsmnLinks.LedClose | jsmn/jsmn.c:194-211 | closing the innermost bracket keeps that, and the links lead to the bracket around it |
| JsmnLinks.LinkRound | jsmn/jsmn.c:160-299 | in the parent-link build the walk up the links finds the bracket the backward scan finds, in every round on any text |
| JsmnLinks.LinkedOpenTokensAreUnmatchedBrackets | jsmn/jsmn.c:160-228 | the open tokens are the unmatched brackets in this build, too |
| JsmnLinks.LinkedSpansAreNested | jsmn/jsmn.c:160-299 | success leaves finished, nested spans with strictly increasing starts in this build, too |
| JsmnLinks.LinksUndefinedExactly | jsmn/jsmn.c:188-258 | the same for the build with parent links, where a closing bracket gives back the superior token that its opening one took |
| JsmnLinks.LinkedCommasInsideAreDefined | jsmn/jsmn.c:239-258 | in particular this build never does if every comma stands inside a bracket |
| JsmnLinks.BuildsDifferAtComma | jsmn/jsmn.c:194-258 | a key, a colon, an empty array and a comma: one build reads tokens[-1], the other does not |
| JsmnLinks.LinksSucceedExactly | jsmn/jsmn.c:188-299 | this build succeeds if and only if no comma comes without a superior token, the text is right except for closing brackets while none is open behind the first token, and there are enough tokens |
| Jsmn.Parser.Parse | jsmn/jsmn.c:153-300 | the loop on the token array, in either build, leaves the fields and tokens of the model's run and returns its result |
| Jsmn.Parser.CountTokens | jsmn/jsmn.c:153-300 | the call without tokens walks the same positions and returns the model's count |
| Jsmn.Parser.ParseString | jsmn/jsmn.c:86-148 | scans a string, allocates and fills its token, or restores the position |
| Jsmn.Parser.ParsePrimitive | jsmn/jsmn.c:37-81 | scans a primitive, allocates and fills its token, or restores the position |
| Jsmn.Parser.CloseToken | jsmn/jsmn.c:188-228 | finds the bracket to close by scan or by links, and the new superior token |
| Jsmn.Parser.CommaToken | jsmn/jsmn.c:239-258 | finds the superior token behind a comma by scan or by link |
| NxText.UnescapeShrinks | nxjson/nxjson.c:100-176 | an unescaped string is shorter than the text it was read from |
| NxText.DecodeOneInverts | nxjson/nxjson.c:79-89 | a strict decoder reads back every scalar value from its UTF-8 bytes (section 3 of RFC 3629) |
| NxSpelling.SpellingsDecode | nxjson/nxjson.c:100-176 | for every sequence of code points, each written as its bytes, as a backslash and a letter, or as \u escapes with digits in any case and surrogate pairs from U+10000 on: the string unescapes to UTF-8 that decodes to this sequence (section 7 of RFC 8259) |
| NxSpelling.EscapeSpells | nxjson/nxjson.c:132-163 | a \u escape is accepted if and only if it spells a code point in this way |
| NxSpelling.StrayBackslash | nxjson/nxjson.c:132-170 | a backslash in front of any other character, or of u without an encoder, is kept, and so is what follows |
| NxText.SurrogatesPairUp | nxjson/nxjson.c:144-161 | a \u escape is refused exactly when it is a lone low surrogate or a high one without a low one behind it |
| NxText.OutputIsUtf8 | nxjson/nxjson.c:100-176 | if the text between the quotes is well-formed UTF-8, what it unescapes to is, too, whatever its escapes |
| NxComments.CommentExactly | nxjson/nxjson.c:178-233 | at a slash the parser goes on at a position if and only if the text up to there is a line comment with its line end, or a block comment with its first closing mark |
| NxArena.CreateAddsLast | nxjson/nxjson.c:52-66 | create_json adds a childless record as its parent's last child, linked in order, and disturbs no other record |
| NxArena.ContainerLast | nxjson/nxjson.c:52-66 | the records of a container with one more child are those before it followed by the child's |
| NxArena.OwnRecord | nxjson/nxjson.h:38-48 | a record's length is the number of its children and its child pointer the first of them |
| NxArena.SiblingStands | nxjson/nxjson.c:373-380 | following next pointers reaches the children in text order |
| NxParser.Parser.UnescapeInPlace | nxjson/nxjson.c:100-176 | unescaping in the buffer yields the value the original text stands for, never writes at or behind the read cursor, and leaves everything in front and the unread rest intact |
| NxParser.Parser.ReadKey | nxjson/nxjson.c:195-239 | the in-place key parser finds the key and position of the parser on the original text |
| NxParser.Parser.SkipBlockComment | nxjson/nxjson.c:178-193 | the search ends where the parser on the original text says, and never passes the terminator |
| NxParser.Parser.CreateJson | nxjson/nxjson.c:52-66 | the new record is linked behind the parent's last child |
| NxParser.Parser.ReadValue | nxjson/nxjson.c:241-349 | the recursive in-place parser ends where the parser on the original text ends, fails when it fails, adds exactly the records of its trees, and keeps every key and text value already stored |
| NxParser.Parser.Parse | nxjson/nxjson.c:355-362 | the whole in-place parse builds the records of the tree that the original text stands for |
| NxParser.HeldStays | nxjson/nxjson.c:195-349 | later writes touch no key or text value that has been returned |
| NxParser.Parser.Item | nxjson/nxjson.c:373-380 | nx_json_item(i) is the i-th child in text order, or the dummy |
| NxParser.Parser.Get | nxjson/nxjson.c:364-371 | nx_json_get is the first child whose key is the given C string, or the dummy |
| NxParser.Lookup | nxjson/nxjson.c:364-371 | the member found has the key, and none before it has |
| NxRoundTrip.QuotedReads | nxjson/nxjson.c:100-176 | unescaping a string's quoted form gives the string back |
| NxRoundTrip.ItemsTrees | nxjson/nxjson.c:264-271 | the elements of a written array come back in order, whatever white space and comments are between them |
| NxRoundTrip.MembersTrees | nxjson/nxjson.c:253-263 | the members of a written object come back in order with their keys |
| NxRoundTrip.TextReadsBack | nxjson/nxjson.c:241-362 | parsing the text of any JSON tree, with white space and comments anywhere between the tokens except for comments between a key and its colon, gives that tree back; of a number's text it is required that strtoll and strtod take it whole |
| NxReadBack.ReadItem | nxjson/nxjson.c:355-380 | parsing a written tree in place and asking for item i gives a record with the tree's type and length, and the record of the i-th element or member written, with its key, or the dummy |
| NxReadBack.ReadMember | nxjson/nxjson.c:355-371 | parsing a written object in place and asking for a name gives the record of the first member written with it, or the dummy |
| CrcTable.TableIsBitSteps | mkimage/crc32.c:4-49 | each of the 256 table entries is eight bit steps of its index |
| Crc32.Crc32 | mkimage/crc32.c:51-65 | the loop over the buffer computes the CRC function of its first size bytes |
| Crc32.Composes | mkimage/crc32.c:51-65 | the CRC of a concatenation is the CRC of the second part started with the CRC of the first |
| Crc32.TableStepIsSteps | mkimage/crc32.c:61-61 | a table lookup is eight bit steps of the register with the byte added |
| Crc32.CrcIsBitAtATime | mkimage/crc32.c:51-65 | for every start value and buffer the result is that of the bit-at-a-time register with polynomial 0xEDB88320 |
| Crc32.CrcIsBitwise | mkimage/crc32.c:51-65 | the result's bits are the complement of the polynomial register after the message's bits |
| Crc32.CrcIsRemainder | mkimage/crc32.c:51-65 | the CRC is the complement of the remainder of the message times x^32, its first 32 bits added to the complemented start value, divided by the generator on paper (section 8 of RFC 1952) |
| CrcPoly.RunDivides | mkimage/crc32.c:59-62 | the shift register computes the remainder of the division on paper |
| CrcPoly.BurstShows | mkimage/crc32.c:59-62 | bit sequences that differ in a window of at most 32 bits have different remainders |
| CrcBits.LookupIsSteps | mkimage/crc32.c:61-61 | by linearity, the steps of the low byte and of the shifted rest add up to the steps of the word |
| Crc32.BurstDetected | mkimage/crc32.c:51-65 | messages that differ in a burst of at most 32 bits, at any bit position, have different CRCs |
| Crc32.WindowDetected | mkimage/crc32.c:51-65 | messages of one length that differ only inside four consecutive bytes have different CRCs |
| MacAcks.AcknowledgesExactly | nanostack/mac_15_4.c:1473-1497 | an acknowledgement that is taken releases exactly the frame on air if and only if its event finds room in the queue and no transmit event is ahead of it while a buffer waits; otherwise nobody is released, or the next buffer is |
| MacRuns.NothingLost | nanostack/mac_15_4.c:324-358 | over every run in scope each accepted buffer is in exactly one place, and they leave in the order they came |
| MacRuns.LimitsKept | nanostack/mac_15_4.c:766-885 | at most four transmissions of one and the same frame, at most ten failed channel checks in a row, at most 44 timer events per buffer, at most three buffers waiting; with nothing on air no counter or timer is left over |
| MacRuns.WhyBuffersLeave | nanostack/mac_15_4.c:716-896 | broadcasts are freed after one transmission, acknowledged buffers were sent, links are reported broken only after four unanswered transmissions or ten failed checks |
| MacRuns.BrokenLinksGiveBack | nanostack/mac_15_4.c:774-829 | over every run a broken-link buffer's window is its payload if and only if the payload is shorter than 256 bytes |
| MacRuns.PayloadRestored | nanostack/mac_15_4.c:1527-1532 | setting the window back undoes the header exactly for payloads shorter than 256 bytes |
| MacRuns.AcksNameTheFrame | nanostack/mac_15_4.c:1473-1497 | an acknowledgement is taken if and only if it carries the sequence number in the header of the frame on air |
| MacRuns.FrameIsHeaderAndPayload | nanostack/mac_15_4.c:1247-1372 | what goes over the air is the header followed by the payload |
| MacFrames.FramesAreData | nanostack/mac_15_4.c:1247-1372 | over every run in scope, whatever is sent for a buffer is octet by octet a data frame: type 1, the ack bit for everything but broadcasts, the intra-PAN bit as the destination says, the other bits clear, the modes, one sequence number, the addresses and the payload |
| MacFrames.NumbersFollowOrder | nanostack/mac_15_4.c:1354-1358 | over every run in scope the i-th accepted buffer is sent with the first sequence number plus i, modulo 256, retransmissions alike |
| MacRuns.AckSurvives | nanostack/mac_15_4.c:1533-1540 | on a retransmission the ack flag read back from the frame control field is the one the header was made with |
| MacRuns.StepKeeps | nanostack/mac_15_4.c:578-896 | every input keeps the invariant that relates accepted, waiting, on-air and departed buffers, the counters and the event queue, if and only if it does not overwrite the frame on air; if it does, one buffer is nowhere |
| MacLive.LiveExactly | nanostack/mac_15_4.c:1473-1497 | a step leaves the frame on air with a running timer or a waiting event if and only if it does not drop that event for lack of room |
| MacLive.OneLeaves | nanostack/mac_15_4.c:766-885 | whatever comes in between, the next buffer leaves within as many phases of twenty handled events and a timer interrupt as its budget of timer events has left, at most 46 |
| MacLive.EveryBufferLeaves | nanostack/mac_15_4.c:578-708 | from any run that drops no deciding event, 184 such phases see off every buffer accepted before |
| MacLive.StuckForEver | nanostack/mac_15_4.c:1632-1640 | once the timer's event has been dropped, no run of inputs, in scope or not, moves the frame on air or those behind it |
| MacLive.OverwritingRevives | nanostack/mac_15_4.c:1473-1497 | once the event of an acknowledgement has been dropped, a step moves the frame on air if and only if it overwrites it; the frame is then nowhere and the machine is live again |
| MacLive.OthersGoOn | nanostack/mac_15_4.c:602-620 | after that the buffers behind it go on as if it had never come, if and only if it had been sent once only |
| MacLive.DroppedExpiry | nanostack/mac_15_4.c:1632-1640 | twenty received frames before the timer expires lead there |
| MacLive.DroppedAcknowledgement | nanostack/mac_15_4.c:1488-1493 | a buffer that comes down and nineteen received frames before the acknowledgement lead to a dropped event and a turn that overwrites the acknowledged frame |
| MacLive.LateBuffer | nanostack/mac_15_4.c:458-493 | a buffer that comes down before the acknowledgement leads to a state in which the next turn overwrites the acknowledged frame |
| MacTx.Mac.TxAdd | nanostack/mac_15_4.c:337-358 | the ring takes a buffer behind the others unless three are waiting |
| MacTx.Mac.TxPull | nanostack/mac_15_4.c:324-335 | the oldest buffer leaves the ring |
| MacTx.Mac.Handle | nanostack/mac_15_4.c:458-493 | a buffer going down is queued and the task is woken |
| MacTx.Mac.HeaderGenerate | nanostack/mac_15_4.c:1247-1372 | the header is written in front of the payload with the current sequence number, which then advances |
| MacTx.Mac.BufferOut | nanostack/mac_15_4.c:1521-1553 | the header is made once; a successful write puts the buffer on air and clears the channel check counter |
| MacTx.Mac.TimerCcaCase | nanostack/mac_15_4.c:788-888 | the channel check step of the model |
| MacTx.Mac.TimerAckCase | nanostack/mac_15_4.c:766-786 | the missing acknowledgement step of the model |
| MacTx.Mac.AckHandle | nanostack/mac_15_4.c:1473-1497 | the interrupt's part of taking an acknowledgement |
| MacTx.Mac.TimerCallback | nanostack/mac_15_4.c:1632-1640 | the timer's event is posted once |
| MacTx.Mac.TaskTurn | nanostack/mac_15_4.c:578-708 | one round of the task is one turn of the model |
| Flooding.Filter.CheckBroadcastId | nanostack/cIPv6.c:907-967 | the search and copy loops change the table as the model says and return its verdict |
| Flooding.Filter.Init | nanostack/cIPv6.c:104-121 | the table is cleared, the replacement index is left where it was |
| Flooding.Filter.UpdateSqn | nanostack/cIPv6.c:766-771 | the sender's own number advances |
| Flooding.CheckKeepsGood | nanostack/cIPv6.c:907-967 | the table never holds an originator twice |
| Flooding.AnswersExactly | nanostack/cIPv6.c:907-967 | the answer is 1 if and only if no slot holds the sender, two bytes of a short address and eight of a long one, with this number; else 2 if the hop count is the same and 0 if not |
| Flooding.NewIsHeld | nanostack/cIPv6.c:923-966 | after the answer 1 a slot holds the sender, the number and the hop count, and the others in use are unchanged |
| Flooding.Remembered | nanostack/cIPv6.c:907-967 | an entry keeps its originator and that originator's last number while fewer originators are inserted than it has left |
| Flooding.RepeatsAreRefused | nanostack/cIPv6.c:923-937 | while it does, a packet of that originator is reported new if and only if its number is another one |
| Flooding.ForgottenExactly | nanostack/cIPv6.c:941-955 | with nothing from its originator in between, a repeat is taken for new if and only if as many originators were inserted as its entry had left |
| Flooding.LeftWhenTaken | nanostack/cIPv6.c:941-966 | how many insertions a new entry survives, for every position of the replacement index |
| Flooding.KeptLongEnough | nanostack/cIPv6.c:104-121 | a new entry survives as many insertions as there are slots unless the replacement index was left standing at or before its place while the table fills |
| Flooding.NeverNewAgain | nanostack/cIPv6.c:907-967 | from program start, over every run, an originator's packet is new exactly when its number differs from the last one, as long as fewer originators were inserted since than there are slots |
| Flooding.ClearedTableForgetsEarly | nanostack/cIPv6.c:104-121 | for any three originators, a run, a second initialisation and another run after which a repeat is reported new after one insertion |
| Flooding.UnusedSlotMatches | nanostack/cIPv6.c:919-938 | a packet without an address type, which the only caller never passes (cIPv6.c:294, 299, 344), would match an unused slot with its address bytes: not inserted, and refused if the slot holds its number |
| Flooding.NeverHeardRefused | nanostack/cIPv6.c:919-938 | from program start, after any one broadcast, such a packet with number 0 would be taken for a repeat although it was never heard; the only caller sets a type just before the call |
| Flooding.NumbersCycle | nanostack/cIPv6.c:766-771 | the sender's numbers cycle through 1 to 255 and are never 0 |
| Flooding.NumbersDiffer | nanostack/cIPv6.c:766-771 | any two of 255 consecutive broadcasts carry different numbers |

## Left out

- TLS handshake, decryption, key files and certificates: a record's body is consumed whole by an opaque handler.
- FIN counting, ACK checking, `GrowInputBuffer`, mutexes, tracing and `malloc` failure in the sniffer; the input buffer has a fixed size that is proved large enough.
- The other direction of a sniffer session: one direction is an object of its own, the two share no field that is modelled.
- Stream.StaleForEver: runs that come to an overlapping duplicate while the front is overtaken, see the next line.
- Session.Half.DecodeSegment: the same input is left out.
- Session.Half.AdjustSequence: an overlapping duplicate that meets a list whose front has been overtaken is left out; the source then goes on with a negative number of bytes.
- Session.Half.CheckPreRecord: the session's end on FIN and RST, and the old-style client hello, whose branch acts only with `OLD_HELLO_ALLOWED` or `STARTTLS_ALLOWED`, which nothing in the tree defines (sniffer.c:2546-2566).
- SessionTable.Table.GetSnifferSession: the side of the packet, which is set behind the lookup.
- SessionTable.Table.CreateSession: the SSL objects of a session, their failures, and the side.
- Session.Half.ProcessMessage: the leftover is moved to the front of the buffer as `memmove` would; the source calls `memcpy` on ranges that may overlap.
- The build with zlib or with a hash longer than SHA-256: the record size limit is the one of the default build.
- `JSMN_STRICT`, and restarting jsmn in the middle of a primitive: the non-strict build takes a truncated primitive as complete.
- JsmnParts.PartExactly: a NUL inside the given length, at which jsmn stops as at the end of the text.
- JsmnRuns.BuildsAgree: stated for documents; on other texts sizes and parents can differ, see `JsmnBuilds`.
- Number conversion in nxjson (`strtoll`, `strtod`, `errno`): an arbitrary function that takes at least one character and stops before the terminator, or fails; which texts it takes for which numbers is not modelled. Error messages and `nx_json_free`.
- NxParser.Parser.ReadValue: records are indices in one sequence, so freeing them and reusing their memory is not captured.
- The encoder callback of nxjson returns its bytes, which are then written one by one; it is required to return at most six, what `\uXXXX` takes in the text.
- Energy scan, scan and coordinator modes, AES, channel changes, the receive ring and the radio driver of the MAC; a buffer too small for its header, which `mac_header_generate` frees while it is on air.
- MacTx.Mac.HeaderGenerate: the address fields are given bytes; how they follow from the PAN and the addresses is not modelled.
- MacLive.EveryBufferLeaves: the number of phases is a bound, not the least one; that the timer expires and the task runs is an assumption about the inputs.
- Interrupts and buffers coming down in the middle of a round of `mac_task`: they are taken between two rounds only.
- Aliasing of MAC buffers: a buffer is a value with an identity, so an upper layer that keeps writing to a buffer it has handed down is not captured.
- `ipv6_fcf` and the routing and neighbour tables of nanostack, which are searched and aged like the tables above; its ICMP, cUDP and SSI layers, which build and take apart packets in one pass; `io.c`, `crl.c` and `ocsp.c`, which call sockets and the certificate parser; the bootloader and the build settings, which drive hardware or are constants.
