# A model of the proxy and its proofs

The repository is a single-threaded HTTP proxy in C with its own hash tables, parsers, codecs and
relay state machines. This project models those parts in Dafny and proves what they are for. Run
`dafny verify dfyconfig.toml` to check everything.

| Part | Files | Main results |
|---|---|---|
| Hash index | `ProbeSequence`, `HashIndex`, `EntryArray`, `SlotTable`, `HashMap` | every probe loop ends; over all runs the table answers as a finite map |
| HTTP parser | `StringBuf`, `HttpSpec`, `HttpSplit`, `HttpFields`, `HttpChunked`, `HttpFraming`, `HttpParser` | the result does not depend on how the bytes were split; which lines are accepted and which body is read, from the first byte on; limits |
| Flat JSON | `CejsonSpec`, `CejsonShape`, `CejsonGrammar`, `CejsonScan`, `CejsonNumber`, `CejsonAccepted`, `CejsonSound`, `CejsonText`, `CejsonBuilt`, `CejsonSpaced`, `CejsonPieces`, `CejsonBuilder`, `CejsonParser`, `CejsonRoundTrip` | exactly which texts are accepted and with which array; reachable arrays are partial preorders; build, print and parse agree |
| Dictionaries | `Dict`, `BsonSpec`, `BsonFormat`, `BsonGrammar`, `BsonRoundTrip`, `Bson`, `DictJsonSpec`, `DictJsonGrammar`, `DictJsonRoundTrip`, `DictJson` | exactly which texts and documents are read and as what; exact buffer bounds; round trips |
| DNS | `DnsName`, `DnsMessage`, `Dns` | names round trip; an independent reader of RFC 1035 finds the right records |
| Relay | `RelaySpec`, `RelayInterest`, `Relay` | the request is first in, first out; exactly when the response is conserved; who is registered for what |
| Descriptors | `PoolSpec`, `PoolOutcome`, `Pool` | every open descriptor has one owner over all runs; nothing is closed twice |
| Connections | `ConnTable` | index and slots are inverses; counters are exact and within the limit |
| Balancing | `LoadBalance`, `BalanceStart` | exactly when round robin tries all targets; fairness |
| Header rewriting | `RewriteSpec`, `RewriteText`, `Rewrite` | status line, other lines in order, one Connection line, for any split |

`Text` and `ByteBuffer` hold what several of these share; `Numerals` says what digits, numerals, letters and blanks are, by tables and positions.
For each format there is a description by bytes and positions, in literals, that does not use the functions of the model: what is read and
written is stated against it.

Code that changes things in place is a class or a method on arrays, proved against functions
on values; the properties are lemmas about those functions. The operating system is an environment
that may do anything: a write takes any number of bytes, a new descriptor is any that is not open,
events come in any order. Byte strings are `string`.

Three things in the sources shape the model:

- The parser of the flat JSON arrays accepts a comma before a closing bracket and several values at the
  top level separated by commas, takes more numbers than RFC 8259 (`01`, `-.5`, `2.e5`), and keeps some number flags from one number to the next.
  The model does the same, and `CejsonGrammar` describes the language.
- In a chunk-size line everything from the first `;` on is ignored, so that a line beginning with `;` is
  a chunk of size 0. `strtoull` accepts signs; an empty Content-Length is 0.
- A comment in `include/http.h` says that extensions are not supported; the code skips them, and the model follows the code.

Nine properties one might expect do not hold; each is stated with a run or an input that shows it and with the exact
condition under which it does hold:

- Bytes kept for a slow client are overwritten if the client goes on sending and the upstream takes only part
  of it: the upstream is registered for reading again (`RelaySpec.BytesLost`). An event keeps the whole invariant, by
  which kept bytes mean an unregistered upstream, exactly when it is no such request data (`RelaySpec.StepConserves`);
  it keeps the equation between the bytes read and the bytes passed on exactly when it does not read the upstream while
  bytes are kept, but for bytes that commute with them (`RelaySpec.StepKeepsBytes`).
- The rest of the request is never sent once the upstream is not registered for writing and no such event is
  outstanding (`RelaySpec.StuckForever`). The registration is lost in two ways, and in no other: the upstream answers before it has taken the
  whole request and the client is slow (`RelaySpec.GetsStuck`), or bytes kept for the client are written out, and
  reading is resumed, while part of the request is still pending (`RelaySpec.GetsStuckResuming`);
  see `RelaySpec.StepWatched` and `RelaySpec.AlwaysWatched`.
- An upstream connection is forgotten if a client sends a request while its exchange is still open, as
  happens after a disconnect, and in no other way (`PoolSpec.LeaksUpstream`, `PoolSpec.StepOrphans`, `PoolSpec.NeverOrphans`).
- Round robin can miss a healthy target when its counter wraps around, unless the number of targets
  divides 2^32 (`LoadBalance.RoundRobinTriesAll`).
- Bytes kept for a slow client are written when it can take them, unless request data collides with them or the client was
  paused and is resumed: then it is not registered for writing any more (`RelayInterest.NotServed`, `RelayInterest.StepServed`, `RelayInterest.AlwaysServed`).
- A 64-bit integer does not come back from JSON text as such, nor a number that the C library does not read back
  (`DictJsonRoundTrip.IntegersChange`, `DictJsonRoundTrip.TextReread`, `DictJsonRoundTrip.RoundTripIff`).
- A client that is paused until the upstream has taken its bytes is read all the same if the upstream answers meanwhile
  and the client is slow, or if the last bytes kept for it are written (`RelayInterest.StepHeldBack`, `RelayInterest.ReadsPausedClient`).
- Blanks may stand between any two tokens of a flat JSON text but not between a key and its colon (`CejsonSpaced.BlankBeforeColon`, `CejsonSpaced.SpacedIff`, `CejsonSound.AcceptedIff`).
- Whether a header block longer than 16385 bytes is rewritten or passed on as it is depends on how it was
  split, unless rewriting changes nothing (`RewriteSpec.LongBlocksPass`, `RewriteSpec.SplitIndependentIff`).

## Model

| member | source | states |
|---|---|---|
| Numerals.PrintIntDenotes | include/dict.h:440-456 | a printed integer is the decimal numeral of the number, by the places of its digits, without leading zeros |
| Numerals.NumeralIff | include/http.h:366-376 | digits of a table, decimal or hexadecimal, are read as the number they denote by their places |
| Numerals.LowerIsAnyCase | include/http.h:302-303 | two names are the same in small letters exactly when they differ in capitals alone |
| ProbeSequence.ProbeReachesEverySlot | include/stb_ds.h:1249-1276 | within slot_count/8 rounds the steps 8, 16, 24, ... visit every bucket of a power-of-two table, from any start, and each bucket is scanned whole |
| ProbeSequence.ProbeDistinct | include/stb_ds.h:1272-1275 | no slot is visited twice in that time |
| ProbeSequence.NextRound | include/stb_ds.h:1272-1275 | the running position, updated by adding and masking, is the bucket of the closed triangular form |
| HashIndex.ThresholdsLeaveRoom | include/stb_ds.h:904-935 | for every table size the two thresholds together leave an empty slot |
| HashIndex.StoredHashIs | include/stb_ds.h:1242-1242 | the hashes that mark empty and deleted slots become 2 and 3, all others stay |
| HashIndex.ThresholdsAre | include/stb_ds.h:904-930 | they are three quarters, three sixteenths and one quarter of the slots |
| HashMap.HashMap.Bury | include/stb_ds.h:1488-1502 | in the middle of a deletion, with one tombstone more and one entry less, the counters are exact and still leave an empty slot |
| HashIndex.EmptySlotAhead | include/stb_ds.h:1246-1277 | with exact counters below the table size every probe sequence meets an empty slot, which ends the search |
| HashIndex.MissMeansAbsent | include/stb_ds.h:1250-1270 | a search that meets an empty slot without a hit proves that the key is not in the array |
| HashIndex.MissGivesSlot | include/stb_ds.h:1384-1432 | the slot a failed insertion search returns (first tombstone, else the empty slot) can be linked without cutting off any other key |
| HashIndex.InsertLinks | include/stb_ds.h:1429-1446 | after storing hash and index there, every key including the new one is reachable in exactly one slot |
| HashIndex.TombstoneUnlinks | include/stb_ds.h:1497-1502 | a tombstone removes one key and leaves the probe paths of all others intact |
| HashIndex.MoveLast | include/stb_ds.h:1508-1522 | redirecting the last entry's slot to the hole keeps slots and array positions in bijection |
| HashIndex.SecondLookup | include/stb_ds.h:1512-1521 | the second search of a deletion, made in the middle of it, finds the slot of the last entry |
| HashIndex.RebuildMoves | include/stb_ds.h:970-1003 | re-inserting one live slot of the old table keeps all entries moved so far linked |
| HashIndex.RebuildEnds | include/stb_ds.h:964-1007 | after the loop the new table links exactly the entries of the old one |
| EntryArray.ContentsSwapDelete | include/stb_ds.h:1503-1523 | moving the last entry into the hole removes one key from the map the array stands for and nothing else |
| SlotTable.SlotTable.Lookup | include/stb_ds.h:1232-1277 | the search ends; it returns the slot of the key, or the empty slot and the first tombstone on its path |
| SlotTable.SlotTable.FreeSlot | include/stb_ds.h:976-1002 | the unchecked loop of a rebuild ends in an empty slot on the probe path |
| SlotTable.Rebuild | include/stb_ds.h:884-1011 | a table of twice, half or the same size links the same entries, with exact counters and no tombstones |
| HashMap.HashMap.GetIndex | include/stb_ds.h:1281-1310 | the index of the entry with the key, negative exactly when the map has none |
| HashMap.HashMap.Get | include/stb_ds.h:1281-1326 | the value of the key, the default value if there is none |
| HashMap.HashMap.Put | include/stb_ds.h:1337-1459 | the contents become the old contents with this key and value; all table invariants are kept |
| HashMap.HashMap.Delete | include/stb_ds.h:1472-1538 | the contents lose exactly this key, the array is the swap-delete of the old one, also through shrinking and purging |
| HashMap.Run | include/stb_ds.h:1232-1538 | over every sequence of put, get and delete each answer is that of a plain map, and the final contents are that map |
| StringBuf.StringBuf.Reserve | include/stringbuf.h:114-131 | succeeds exactly when the doubled capacity is allowed, keeps the contents, states the new capacity |
| StringBuf.StringBuf.Append | include/stringbuf.h:133-146 | the contents grow by the piece exactly when room can be made; empty pieces fail |
| StringBuf.StringBuf.Consume | include/stringbuf.h:206-213 | the contents lose their first bytes, at most all of them |
| StringBuf.StringBuf.MemChr | include/stringbuf.h:241-246 | first occurrence of a byte at or after a position |
| StringBuf.StringBuf.Find | include/stringbuf.h:227-239 | first occurrence of a needle at or after a position |
| StringBuf.GrowthIs | include/stringbuf.h:114-131 | a buffer that must grow takes the largest of twice its capacity, the bytes needed and 128, and cannot exactly when that is not allowed |
| StringBuf.SmallAppendsFit | include/stringbuf.h:114-131 | below half of the maximal capacity no append can fail |
| HttpSplit.StepExtends | include/http.h:180-422 | a step of the parser that completes does the same when more input has already arrived |
| HttpSplit.RunSplit | include/http.h:180-422 | running on a part and then on the rest equals running on the whole |
| HttpSplit.FeedSplit | include/http.h:169-426 | feeding two pieces ends in the same state as feeding them at once |
| HttpSplit.SplitIndependence | include/http.h:169-426 | any two ways to cut the same bytes give the same code, phase, request line, headers, body and unread bytes |
| HttpSplit.ReachableWithinLimits | include/http.h:331-380 | in every reachable state the body is at most MAX_BODY_SIZE and the open chunk at most MAX_CHUNK_SIZE |
| HttpChunked.DecodesChunks | include/http.h:346-411 | section 4.1 of RFC 7230: for any chunks within the limits the body is their concatenation and the unread bytes begin after the last-chunk line |
| HttpFields.FieldParses | include/http.h:278-313 | section 3.2 of RFC 7230: a valid field line with optional blanks is taken apart into its lower-cased name and its value |
| HttpFields.HeadParses | include/http.h:182-313 | a well-formed request line and list of fields within the limits is taken apart, up to the decision at the empty line, which the rows of HttpFraming are about |
| HttpFraming.RequestLineIff | include/http.h:192-226 | exactly the lines of a method of 1 to 16 bytes, a target of 1 to 4096 and a version of 1 to 8, with one blank between them, are accepted, with these parts |
| HttpFraming.HeaderLineIff | include/http.h:278-313 | exactly the lines of a name of 1 to 256 bytes, a colon and a value of at most 4096, with any blanks around both, are accepted; the name in small letters |
| HttpFraming.LengthIff | include/http.h:251-254 | a length is read as exactly the number that its decimal digits, sign and blanks announce |
| HttpFraming.SizeLineIff | include/http.h:354-381 | a chunk of at most 2^20 bytes begins exactly behind a line shorter than 32 bytes of hexadecimal digits and perhaps an extension, if the body stays within 2^26 bytes |
| HttpFraming.HeadersRead | include/http.h:300-318 | of several fields whose names differ in capitals only the last one counts |
| HttpFraming.KnownLength | include/http.h:249-345 | a request whose last Content-Length announces n of at most 2^26 bytes is complete after exactly n bytes of body, with method, target, version and fields as sent and the rest unread |
| HttpFraming.LengthNotReached | include/http.h:325-345 | with fewer bytes the parser waits and has them as its body |
| HttpFraming.BadLength | include/http.h:251-255 | it is refused exactly when no number of at most 2^26 is announced |
| HttpFraming.ChunkedBody | include/http.h:259-411 | without a length and with Transfer-Encoding chunked, in any capitals, the body is the concatenation of the chunks, and what follows the line of the last one is unread |
| HttpFraming.NoBody | include/http.h:259-276 | with neither field the request is complete with an empty body |
| HttpFraming.RefusedRequestLine | include/http.h:187-221 | a request line longer than 8192 bytes or without one of its parts is refused |
| HttpFraming.RefusedHeaderLine | include/http.h:237-318 | so is a header line, and one with a name more than 128 |
| HttpParser.SizeSubWraps | include/http.h:210-219 | a length computed from positions beyond the line is huge after wrap-around and is refused |
| HttpParser.ScanIsParse | include/http.h:183-226 | searching the whole buffer for the two spaces accepts the same request lines, with the same parts, as parsing the line alone |
| HttpParser.ScanIsParseHeader | include/http.h:278-307 | the same for the colon of a header line |
| HttpParser.HttpParser.OnRequestLine | include/http.h:182-231 | one step of the automaton on the request line |
| HttpParser.HttpParser.OnHeaders | include/http.h:232-323 | one step on a header line or on the end of the headers |
| HttpParser.HttpParser.OnPlainBody | include/http.h:325-345 | one step on a body with a length |
| HttpParser.HttpParser.OnChunkSize | include/http.h:349-389 | one step on a chunk-size line |
| HttpParser.HttpParser.OnChunkData | include/http.h:390-409 | one step on chunk data |
| HttpParser.HttpParser.Feed | include/http.h:169-426 | the buffer, read with the length taken before the loop, ends in the state of the automaton; the stale length is never used after the buffer has moved |
| HttpParser.FeedAll | include/http.h:169-426 | fed any pieces the parser ends as if it had been fed once, or has rejected a piece that does not fit in the buffer; all pieces of a message below half of the limit fit |
| CejsonSpec.Step | jit_backend/cejson.h:212-501 | one byte keeps the stack consistent with the node array |
| CejsonSpec.FeedSplit | jit_backend/cejson.h:212-501 | feeding two pieces equals feeding their concatenation |
| CejsonShape.StepShape | jit_backend/cejson.h:221-501 | one byte keeps the array a partial preorder with the open containers on the stack |
| CejsonShape.ReachableIsPartialPreorder | jit_backend/cejson.h:212-501 | every reachable state is such a partial preorder |
| CejsonShape.AcceptedIsPreorder | jit_backend/cejson.h:503-539 | accepted input leaves a preorder in which every container has its exact child and descendant counts and objects alternate key leaf and value subtree |
| CejsonAccepted.DocumentAccepted | jit_backend/cejson.h:212-528 | a text of the language with no more nodes than fit is accepted; the array has for each token its type, offset, length, number of children and span, in preorder |
| CejsonSound.AcceptedIff | jit_backend/cejson.h:212-528 | a text is accepted exactly when it is values with commas and blanks (blank, tab, line feed, carriage return) between them, has no more nodes than the array takes and is nested no deeper than the stack |
| CejsonScan.StringFound | jit_backend/cejson.h:286-359 | a string of a text that is not rejected is plain bytes and the escapes of RFC 8259 up to a closing quote |
| CejsonNumber.NumberFound | jit_backend/cejson.h:361-416 | a number of such a text is sign, digits, fraction and exponent of the language, and ends where nothing continues it |
| CejsonSpaced.SpacedIff | jit_backend/cejson.h:184-501 | the tokens of a value with any number of the four blank bytes before, between and behind them are accepted exactly when every colon stands right behind its key, and the array agrees with the built one in type, child count, span and string slice |
| CejsonSpaced.BlankBeforeColon | jit_backend/cejson.h:228-239 | a text with a blank before a colon, which is not accepted |
| CejsonText.ReadEscaped | jit_backend/cejson.h:294-365 | an escaped string is read as one string of its exact length |
| CejsonText.ParseValue | jit_backend/cejson.h:212-501 | the text of a value adds its nodes, and one child to the open container |
| CejsonText.PrintedIsAccepted | jit_backend/cejson.h:212-528 | the compact text of any value is accepted, and its node array is known |
| CejsonBuilt.ValueSimilar | jit_backend/cejson.h:48-68 | the parsed and the built nodes of a value agree in type, child count and span, strings up to escaping |
| CejsonBuilt.RoundTrip | jit_backend/cejson.h:212-528 | build, print, parse: accepted, and similar to the built array node by node |
| CejsonBuilder.SpanOfBuilt | jit_backend/cejson.h:535-539 | the span read off the first node is the number of nodes of the subtree |
| CejsonBuilder.Builder.Create | jit_backend/cejson.h:1077-1168 | the next node is taken if there is one; the count is raised in any case |
| CejsonBuilder.Builder.ArrayAppend | jit_backend/cejson.h:1170-1177 | one child more and the span of the element added, in 28 bits; refused for anything but an array |
| CejsonBuilder.Builder.ObjectSet | jit_backend/cejson.h:1179-1192 | the same for a key and its value |
| CejsonBuilder.Builder.Build | jit_backend/jsonbuild.h:21-54 | building key before value appends exactly the preorder of the value |
| StringBuf.AddedText | jit_backend/stringbuf.h:73-106 | a sequence of appends whose results are ignored leaves the whole text exactly when every piece fits |
| StringBuf.SmallPiecesFit | jit_backend/stringbuf.h:73-106 | pieces not longer than the first capacity use the buffer up to its limit |
| CejsonPieces.PiecesText | jit_backend/cejson.h:738-973 | the pieces in which a value is dumped make up its compact text, with strings escaped run by run |
| CejsonBuilder.DumpEscape | jit_backend/cejson.h:738-783 | the fast path appends one piece, the slow path run by run, whether or not they fit |
| CejsonBuilder.Builder.DumpNode | jit_backend/cejson.h:881-973 | walking by index arithmetic appends the pieces of the value built there, whether or not they fit |
| CejsonBuilder.BuildAndPrint | jit_backend/jsonbuild.cy:78-92 | a value built and dumped gives its text exactly when every append fits, as it does below half of the buffer limit |
| CejsonBuilder.SmallPiecesPrint | jit_backend/jsonbuild.cy:78-92 | and up to the limit if no piece is longer than 256 bytes |
| CejsonParser.JsonParser.Feed | jit_backend/cejson.h:212-501 | on its fixed arrays the parser is in the state of the automaton, for any pieces |
| CejsonParser.JsonParser.Finish | jit_backend/cejson.h:503-528 | accepts exactly when the automaton does |
| CejsonParser.JsonParser.PushFrame | jit_backend/cejson.h:475-481 | the key flag is written before the depth is checked, so the flag array needs one spare element |
| CejsonRoundTrip.BuildPrintParse | jit_backend/cejson.h:212-528 | built, printed, cut anywhere and parsed in place, a value whose text fits in the buffer is accepted with a similar array |
| Dict.SetThenGet | include/dict.h:265-313 | setting a field changes the value of its key only and adds an entry only for a new key; empty and long keys are refused |
| Dict.SetByPosition | include/dict.h:265-313 | the value of the first entry with the key is replaced in its place, a new key comes last; a key is refused exactly when it is empty or has 65536 bytes or more |
| BsonFormat.DocumentWritten | include/dict.h:1220-1276 | a document as it is written: its size, for each entry the type number, the key (of an element its position in decimal digits) and the value, numbers as sums of bytes times powers of 256, a zero byte |
| BsonFormat.ValueWritten | include/dict.h:1279-1333 | the same for a value of each type |
| BsonGrammar.DecodeIff | include/dict.h:1339-1467 | a buffer is read exactly when it is one document by sizes, type numbers, keys up to a zero byte and values, and as this object |
| BsonSpec.LittleEndianUnsigned | include/dict.h:1189-1213 | a number in range is read back from its bytes |
| BsonRoundTrip.ValueDecodes | include/dict.h:1366-1414 | a value is read back wherever it stands, and exactly its bytes are consumed |
| BsonRoundTrip.RoundTrip | include/dict.h:1449-1467 | a storable object is read back as the same ordered tree |
| BsonRoundTrip.RoundTripIff | include/dict.h:1449-1467 | the round trip holds exactly for storable trees: distinct keys, nothing empty or too long, numbers in range |
| BsonRoundTrip.DocumentStorable | include/dict.h:1339-1446 | whatever the bytes, a tree that is read is storable |
| BsonRoundTrip.ReadCanBeWritten | include/dict.h:1458-1467 | every tree read from any bytes survives writing and reading |
| Bson.SerializeValue | include/dict.h:1279-1333 | succeeds exactly when the encoding fits, writes exactly it and nothing outside |
| Bson.SerializeDocument | include/dict.h:1220-1276 | the same for a document or array, with its own length in front |
| Bson.SerializeEntry | include/dict.h:1226-1268 | type, key and value of one entry; fails only if even the whole document could not fit |
| Bson.DeserializeDocument | include/dict.h:1339-1446 | reads as specified within the given bytes |
| Bson.DeserializeItems | include/dict.h:1350-1441 | the loop over the entries, with its early end at a zero byte |
| Bson.StoreAndLoad | include/dict.h:1449-1467 | a storable tree is stored exactly when the buffer is large enough and then loaded unchanged |
| DictJsonGrammar.SkipIff | include/dict.h:689-716 | exactly blanks, line comments and block comments are skipped, an open comment up to the last byte |
| DictJsonGrammar.StringIff | include/dict.h:731-851 | exactly strings of plain bytes, escapes of one letter and codes of four digits, of either case, are read, everything outside ASCII as a question mark |
| DictJsonGrammar.NumberIff | include/dict.h:856-893 | section 6 of RFC 8259: a number ends exactly where its sign, whole part, fraction and exponent end and nothing continues them |
| DictJsonGrammar.NumberRead | include/dict.h:856-893 | a number shorter than 64 bytes, followed by anything that cannot continue it, is what the C library reads in all of its bytes |
| DictJsonGrammar.ParseIff | include/dict.h:689-1174 | a text is parsed as a value exactly when it is the text of this value by sections 2 to 7 of RFC 8259, with blanks and comments anywhere between its tokens, and the limits of strings, keys and numbers |
| DictJsonRoundTrip.CharParses | include/dict.h:731-851 | section 7 of RFC 8259: every byte but zero is read back from its escape |
| DictJsonRoundTrip.ValueParses | include/dict.h:918-1138 | a printed value is parsed back, wherever it stands and however indented, up to its numbers |
| DictJsonRoundTrip.TextReread | include/dict.h:414-1174 | compact or indented text of a storable tree is parsed as that tree with every number read again by the C library, and integers beyond 2^53 - 1 as strings of their digits |
| DictJsonRoundTrip.RoundTrip | include/dict.h:515-1174 | so it is parsed as that tree if the C library reads back what it prints |
| DictJsonRoundTrip.RoundTripIff | include/dict.h:515-1174 | a tree is parsed back from its text exactly when keys and strings are within the limits, keys distinct, there is no 64-bit integer and the C library reads back each number it prints |
| DictJsonRoundTrip.IntegersChange | include/dict.h:439-456 | a 64-bit integer becomes the number that the C library reads, or a string of its digits beyond 2^53 - 1 |
| DictJsonRoundTrip.LayoutIs | include/dict.h:414-427 | a new line and two blanks a level, nothing in compact text |
| DictJsonRoundTrip.Sample | include/dict.h:455-510 | a nested array as it is laid out |
| DictJsonRoundTrip.ValueHeld | include/dict.h:918-1138 | whatever is parsed has distinct keys, and no key or string is empty or too long |
| DictJson.AppendQuoted | include/dict.h:377-409 | succeeds exactly when the quoted text and a terminator fit |
| DictJson.Serialize | include/dict.h:414-510 | the same for a value at any depth, with the text written at the cursor |
| DictJson.SerializeJson | include/dict.h:515-532 | succeeds exactly when the buffer is longer than the text, and terminates it; an empty string otherwise |
| DictJson.JsonReader.SkipBlanks | include/dict.h:689-716 | blanks and both kinds of comments, with the quirk of one that does not end |
| DictJson.JsonReader.ReadChars | include/dict.h:731-851 | a string with escapes as specified, or failure |
| DictJson.JsonReader.ScanNumber | include/dict.h:856-893 | the end of a number by the grammar, or failure |
| DictJson.JsonReader.ReadValue | include/dict.h:918-950 | the recursive parser on its position does what is specified |
| DictJson.JsonReader.ReadBracketed | include/dict.h:953-1138 | the loops over elements and fields |
| DictJson.DeserializeJson | include/dict.h:1142-1174 | the value of the text by that grammar, and nothing if there is none |
| DictJson.StoreAndLoad | include/dict.h:515-1174 | a tree is stored exactly when its text is shorter than the buffer, and then loaded with its numbers read again |
| DnsName.EncodeName | include/dns.h:69-85 | the labels of the name, or -1 exactly when a label is bad or the space too small; nothing written outside |
| DnsName.DecodeName | include/dns.h:34-65 | ends on every packet (jumps left, then bytes left), reads inside it and writes inside the output; the name as specified |
| DnsName.WalkReads | include/dns.h:34-65 | section 4.1.4 of RFC 1035: labels and pointers are followed to the name they make up, in small letters, cut to the space, unless more than 64 pointers are met; the size is that in the first place |
| DnsName.NameReadIff | include/dns.h:34-65 | a name is read exactly when labels and at most 64 pointers make it up and it has an end where it begins |
| DnsName.AskedNameIs | include/dns.h:119-142 | what is looked up are the labels with dots between them in small letters, up to 255 bytes or a zero byte |
| DnsName.LabelsDecode | include/dns.h:34-65 | encoded labels decode to their lower-cased dotted form and exactly their bytes are consumed |
| DnsName.HostnameRoundTrip | include/config.h:166-187 | a valid host name without a final dot comes back in lower case |
| DnsName.EncodeDecode | include/dns.h:34-85 | the same in place, with equal byte counts |
| DnsMessage.ReplyRead | include/dns.h:108-267 | an independent reader by RFC 1035 (sections 3.1 to 3.3, 4.1.1 to 4.1.4) finds the identifier and question of the query, an authoritative response with recursion desired as asked, code 5, 3 or 0, and of the first entry with the name exactly the records that are asked for, in order, with the data of their types |
| DnsMessage.NoReply | include/dns.h:112-125 | there is no reply exactly to a query without a whole header, a question, a name with an end, or room for its type and class |
| DnsMessage.FlagsRead | include/dns.h:127-151 | the bits of the reply's flags |
| DnsMessage.NoSuchName | include/dns.h:134-145 | the answer is NXDOMAIN exactly when no entry has the lower-cased name |
| DnsMessage.SelectedMember | include/dns.h:175-178 | a record is chosen exactly when its type number is asked for, type 255 is, or it is a CNAME |
| DnsMessage.SelectedPicks | include/dns.h:171-178 | the chosen records stand in the order of the entry, each once |
| DnsMessage.ContentRead | include/dns.h:200-253 | the data of every record type is read back |
| DnsMessage.AnswersRead | include/dns.h:179-260 | a list of records is read back one by one to its end |
| Dns.EmitRecord | include/dns.h:188-259 | a record with its length filled in afterwards is the specified bytes |
| Dns.EmitTexts | include/dns.h:230-243 | text in pieces of at most 255 bytes |
| Dns.BuildResponse | include/dns.h:108-267 | the buffer holds the specified reply; 0 for a query that cannot be read or a buffer below 512 bytes |
| RelaySpec.StepFifo | include/request.h:2117-2175 | each event keeps: bytes written upstream, then those pending, are the header block and all body pieces in order |
| RelaySpec.RequestIsFifo | include/request.h:1124-1198 | so over every run and every partial write |
| RelaySpec.StepConserves | include/request.h:1399-1456 | an event keeps the conservation invariant (bytes, and kept bytes mean an unregistered upstream) exactly when it is not request data that the upstream takes only in part while bytes are kept for the client |
| RelaySpec.StepKeepsBytes | include/request.h:1421-1445 | an event keeps the byte equation alone exactly when it does not read the upstream while bytes are kept, or what it reads is passed on whole and commutes with them |
| RelaySpec.ResponseIsConserved | include/request.h:2181-2220 | without such an event, bytes written to the client and those kept for it are the bytes read, a kept byte implies an unregistered upstream, and a run that ends with the upstream closing has delivered everything |
| RelaySpec.SilentClientNeverClashes | include/request.h:2117-2175 | a client that sends nothing more causes no such event |
| RelaySpec.BytesLost | include/request.h:2159-2175 | a run that loses response bytes |
| RelaySpec.StepWatched | include/request.h:1439-1456 | an event keeps the upstream registered for the unsent request exactly when the upstream neither answers early to a slow client nor is resumed early |
| RelaySpec.AlwaysWatched | include/request.h:2181-2220 | over every run with neither event it stays registered |
| RelaySpec.StuckForever | include/request.h:2207-2219 | once it is not registered and no write event is outstanding no run sends the rest |
| RelaySpec.GetsStuck | include/request.h:1399-1456 | a run that gets there by an early answer |
| RelaySpec.GetsStuckResuming | include/request.h:2159-2215 | a run that gets there without one |
| RelayInterest.AlwaysAttended | include/request.h:1181-1197 | over every run the upstream is read unless bytes are kept for the client, which then counts as paused; a paused client waits for unsent bytes, any other is read; nobody waits to write without something to write |
| RelayInterest.StepServed | include/request.h:2181-2220 | an event keeps the client registered for the bytes kept for it exactly when it is neither colliding request data nor the end of a pause of that client |
| RelayInterest.AlwaysServed | include/request.h:2181-2220 | over every run without such data it stays registered |
| RelayInterest.NotServed | include/request.h:2159-2175 | a run in which it does not |
| RelayInterest.StepHeldBack | include/request.h:2159-2175 | an event keeps a paused client from being read exactly when it neither keeps response bytes for it nor writes the last of them |
| RelayInterest.ReadsPausedClient | include/request.h:1439-1445 | a run that reads a paused client |
| RelayInterest.StepEnds | include/request.h:1137-1197 | an exchange ends exactly with a failed connection or write, the end of the upstream or a failed read |
| RelayInterest.StepHistory | include/request.h:1407-1437 | what is read and written by an event |
| RelayInterest.AnythingMayHappen | include/socket_server.h:1030-1083 | the environment: any registered event may be reported, with any result of the system calls |
| Relay.Exchange.UpstreamWrite | include/request.h:1124-1198 | the handler on its buffers and flags |
| Relay.Exchange.UpstreamRead | include/request.h:1399-1456 | the handler on its buffers and flags |
| Relay.Exchange.BodyData | include/request.h:2117-2175 | the handler on its buffers and flags |
| Relay.Exchange.ClientWrite | include/request.h:2181-2220 | the handler on its buffers and flags |
| Relay.Run | include/socket_server.h:1030-1083 | whole exchanges in place: order of the request, conservation of the response, registration |
| PoolSpec.StepOwned | include/request.h:974-1027 | each event keeps: an open descriptor belongs to exactly one of clients, upstreams in use and idle pools, and the upstream of an exchange leads back to its client |
| PoolSpec.AlwaysOwned | include/request.h:1477-1544 | so over every run, and nothing that is not open is ever closed |
| PoolSpec.PoolsBounded | include/request.h:991-1008 | a pool grows only when an exchange ends, by one and not past the size of its route |
| PoolSpec.StepOrphans | include/request.h:2002-2003 | every upstream in use stays with an exchange exactly when no client's open exchange is superseded |
| PoolSpec.NeverOrphans | include/request.h:1477-1544 | so over every run in which none is superseded |
| PoolSpec.LeaksUpstream | include/socket_server.h:371-409 | a run that leaves an upstream without an exchange |
| PoolOutcome.RequestOutcome | include/request.h:1908-1960 | the idle connection last put in under the key of the route is reused exactly when it is alive, and closed if it is dead; otherwise a new connection is used, and without one nothing is served |
| PoolOutcome.FinishOutcome | include/request.h:1477-1544 | the upstream comes last into the pool of its route, with the time and that route's timeout, or is closed; when the client is closed |
| PoolOutcome.SweepOutcome | include/request.h:1012-1027 | exactly the connections idle for longer than their timeout, if they have one, are closed, the others stay in order |
| PoolOutcome.AlwaysAllowed | include/request.h:1299-1301 | over every run an upstream may go to a pool only if its route keeps connections |
| PoolOutcome.AnythingMayHappen | include/socket_server.h:655-742 | the environment: any event that the system calls allow may happen |
| Pool.ProxyTables.PoolTake | include/request.h:974-987 | the newest idle connection, removed, or -1 |
| Pool.ProxyTables.PoolPut | include/request.h:991-1008 | kept, or closed if the pool is full |
| Pool.ProxyTables.SweepAll | include/request.h:1012-1027 | exactly the expired connections are closed, each once, the others stay in order |
| Pool.ProxyTables.OnRequest | include/request.h:1898-2003 | reuse, stale discard or a new connection, and the two table entries |
| Pool.ProxyTables.Finish | include/request.h:1477-1544 | cleanup: upstream pooled or closed, client kept or closed, entries removed |
| Pool.Run | include/request.h:974-1544 | whole runs on the tables |
| ConnTable.OccupiedUpdate | include/socket_server.h:388-402 | what changing one slot does to the number of occupied slots of an address |
| ConnTable.Vacate | include/socket_server.h:371-409 | giving a slot back and lowering the counter keeps both invariants |
| ConnTable.CountIn | include/socket_server.h:690-702 | counting a new connection keeps them, below the limit |
| ConnTable.Connections.ConnAdd | include/socket_server.h:328-369 | the first free slot, failing exactly if there is none or the descriptor is not positive |
| ConnTable.Connections.ConnDel | include/socket_server.h:371-409 | slot, index and counter are given back |
| ConnTable.Connections.Accept | include/socket_server.h:655-742 | stays exactly if there is a slot, the address is below the limit and nothing fails later; otherwise index and counters are as before |
| ConnTable.Run | include/socket_server.h:328-409 | over all accepts and closes: mutual inverses, exact counters within the limit |
| LoadBalance.RoundRobinTriesAll | include/request.h:1684-1691 | all targets are tried exactly when the counter does not wrap around on the way or their number divides 2^32 |
| LoadBalance.TurnsDiffer | include/request.h:1685-1688 | two of n consecutive turns never meet |
| LoadBalance.UpstreamPool.ScanFrom | include/request.h:1693-1730 | the first healthy target going round once, none only if no tried one is healthy |
| LoadBalance.UpstreamPool.FewestConnections | include/request.h:1732-1742 | the first healthy target with the fewest connections |
| LoadBalance.UpstreamPool.Resolve | include/request.h:1665-1746 | in every mode the first healthy target from where the mode begins (counter, random number, hash of address or descriptor), or one with the fewest connections; a healthy target whenever there is one |
| LoadBalance.UpstreamPool.IncConn | include/request.h:1749-1759 | one more connection for the first target of the address |
| LoadBalance.UpstreamPool.DecConn | include/request.h:1762-1773 | one less, never below zero |
| LoadBalance.UpstreamPool.MarkDown | include/request.h:1776-1791 | the first target of the address is left out, exactly until the retry time is over |
| BalanceStart.StartIs | include/request.h:1697-1729 | with hashing by address the beginning depends on the address alone, by connection on the descriptor alone, and on nothing else |
| BalanceStart.AddressHashIs | include/request.h:1704-1711 | 5381 and the bytes as digits in base 33, modulo 2^64 |
| BalanceStart.DescriptorHashIs | include/request.h:1719-1724 | folded by exclusive or, multiplied and folded, in 32 bits, by binary digits |
| BalanceStart.FirstHealthyIs | include/request.h:1684-1692 | the target found is the first that is up, going round once from the beginning; none exactly if none tried is |
| LoadBalance.OneRound | include/request.h:1684-1691 | n requests in turn go once to each of n healthy targets |
| LoadBalance.PlaceRequests | include/request.h:1732-1759 | placing by fewest connections keeps all counts within one of each other |
| RewriteSpec.RewrittenReads | include/request.h:1308-1333 | read line by line the block sent is the status line, every line that is not a Connection line in order, and one Connection line |
| RewriteText.RewrittenText | include/request.h:1308-1333 | instead of a block its status line is sent, the header lines not named Connection in any capitals, in order, and `Connection: keep-alive` or `Connection: close` |
| RewriteText.BlockParts | include/request.h:1266-1316 | every block consists of such lines |
| RewriteSpec.SplitIndependent | include/request.h:1255-1345 | however the bytes arrive, a block of at most 16385 bytes is sent so and what follows is unchanged |
| RewriteSpec.LongBlocksPass | include/request.h:1266-1278 | a longer block is passed on as it is for some split |
| RewriteSpec.SplitIndependentIff | include/request.h:1255-1345 | a stream is treated alike for all splits exactly when its header block has at most 16385 bytes (or, without a block end, it has at most 16384) or rewriting changes nothing |
| Rewrite.Rebuild | include/request.h:1300-1322 | the loop over the lines builds that block |
| Rewrite.HeaderRelay.OnRead | include/request.h:1257-1345 | one read on the header buffer of the relay |
| Rewrite.RelayAll | include/request.h:1255-1345 | all reads of a response |

## Left out

- Sockets, TLS, sendfile, compression, address resolution, logging, configuration loading, process spawning, static
  files: input and output or foreign calls. What they return is a parameter.
- Failing memory allocation.
- String-keyed hash tables; the header map is a map in which the last value wins.
- Hash functions: the hash index holds for any function; its buckets of eight are eight consecutive slots. The mixing of key hashes
  in the flat JSON parser is a parameter too.
- 64-bit overflow of positions and lengths beyond the widths that are stored (28- and 32-bit fields are modelled).
- HttpParser.FeedAll: streaming of request bodies is off, and the input has no zero byte, at which the C functions would cut a part.
- CejsonBuilder.BuildAndPrint: strings are built without their hash, as the builder does; trees have at most 2^28 nodes and texts less than
  2^32 bytes, the widths of the stored spans and lengths.
- Flat JSON: building of floating-point numbers, indented output, dumping of parsed arrays, lookup by key, error positions and line counts.
  `CejsonGrammar.Marked` leaves out the hashes of keys and of the values behind them.
- Lists and trees of the dictionaries are values; updating pairs in place, freeing and sharing are not modelled, nor removing and sorting keys.
- DictJsonRoundTrip.TextReread: how the C library prints and reads a number is a parameter; numbers it prints as words (infinite ones) are
  not covered. Error messages are left out as well.
- Dns.BuildResponse: requires that the reply fits in the buffer; truncated replies and compressed question names are left out.
- Relay: client bytes always go to the body handler, as they do once the body is streamed; on an exchange that does not stream they go
  to the parser, which may dispatch a second request.
- Relay: the error page after a failed connection, the countdown of the request body, access logs, timeouts,
  and keep-alive routes, on which an exchange is completed by counting bytes. Events are those of epoll.
- PoolSpec.StepOwned: does not say that the client of an exchange is still connected; closing a connection leaves its exchange in the table.
- PoolSpec: parsing of the target address and the choice of a reusable response are parameters.
- ConnTable: the limit is positive and does not change; datagram listeners, which store a peer address without counting it, are left out.
- Rewrite: the response has no zero byte, at which the C searches would stop; completion of a response by its length is left out;
  the decision to keep the connection is a function of the block.
- `http_should_keep_alive`, the raw forwarding relay, the WebSocket tunnel and the user interface.
