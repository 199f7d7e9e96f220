# Drivers for one JSON Lines protocol, verified

The repository has five drivers for the same line protocol: the client writes one JSON object per
line, the server answers each with one line. This project models the hand-written parts of the Rust
driver, and the Java and TypeScript parts that do the same work on their own, and proves that they
meet one specification. `dafny verify dfyconfig.toml` checks all of it.

**Codec.** `Encoding` has UTF-8 (RFC 3629 section 4) and UTF-16, with one form for both and for plain
code points. `ParserSpec` has the recursive descent of both parsers as functions over units of a form,
`Grammar` has derivation trees of RFC 8259 sections 2 to 7 with their text and meaning, and
`ParserComplete` and `ParserSound` prove that parsing and derivation are the same thing in both
directions. `JsonTheorems` concludes: which texts are accepted, with what result, and that Rust and
Java agree. `RustParser` and `JavaParser` are the parsers as classes with a cursor, `Writers` the two
writers as they append to a buffer; each is proved against those functions. `JsonWriter` has the round
trips, and `Literals` says, with characters written out, what the names and classes are that the parsers
and the grammar share. `Base64` has the codec of RFC 4648 section 4, `Values` the SQL values on the wire.

**Framing and readers.** `Framing.Pending` is the one specification of what a reader delivers: the
events (lines, then at most one end) of a buffer and of what the source's reads will give. The Rust
framer (`LineFramer`), the Java framer over a doubling array (`JavaLineFramer`), the reader thread with
its one-slot channel as a system of steps (`ThreadedReader`), the socket's inline reader
(`InlineReader`) and the TypeScript reader with its callbacks and waiting calls (`TsLineReader`) are all
proved against it; `Outcomes` has what the callers of any of them see. `Requests` joins codec and framing.

**Session.** `Session` has construction, calls, close and drop as a state machine and as a class that
refines it. The peer is any that says a hello line and then one line for each complete line it gets;
what writes and reads do is a parameter at every step, failed and partial writes included.
`SessionReader` puts a session on a reader: the reader's lines are the peer's, in every chunking and
interleaving, so the theorems about the state machine hold of it. `DirectClose` has the staged end of a
child process and what becomes of the reader thread.

Foreign things are parameters: the chunks a source gives (an empty read is `AtEof`, so chunks are not
empty where that matters), the interleaving, the clock, the failures of writes, the child's reactions,
and the printing and parsing of floats (`Values.FloatStd`). A read that would wait for ever on a peer
that says nothing is a call that `Blocks` in `InlineReader`, and a timeout in `Session`.

Where the code and its own comments differ, the model follows the code:

- rust/src/transport/mod.rs:56-59 calls a line over the cap an error; a line over the cap is accepted
  when its line feed comes with the chunk that crosses the cap (`Framing.OverlongLine`,
  `Framing.ChunkingIff`).
- rust/src/codec/base64.rs:4-10 calls decoding strict; unused trailing bits may be non-zero
  (`Base64.CanonicalIff`).
- rust/src/transport/reader.rs:127-146 says that the close response is never read; the session reads it
  (rust/src/session.rs:180-189, `Session.CloseDrains`).
- typescript/src/transport.ts:26-30 speaks of one slot; the queue holds as many lines as one chunk
  completes, and only then is the source paused.
- rust/src/session.rs:62-81 relies on order alone; a write that failed after the peer got the line
  breaks it (`Session.StaleResponse`), and `Session.OwnResponseIff` says exactly when it holds.

## Model

| member | source | states |
|---|---|---|
| JsonTheorems.RustParserExact | rust/src/codec/json.rs:137-147 | `parse` accepts exactly the UTF-8 texts that RFC 8259 derives with every surrogate escape paired high-then-low, and what it returns is what such a derivation denotes; for every byte sequence |
| JsonTheorems.RustParserComplete | rust/src/codec/json.rs:251-463 | on the bytes of any derivation the answer is the value it denotes, and failure means an unpaired surrogate escape, no more and no less |
| ParserComplete.DocumentComplete | rust/src/codec/json.rs:257-463 | for every derivation tree, in UTF-8 and in UTF-16 units, the recursive descent reads the whole text and gives the tree's value: maximal munch of numbers, white space, escapes and nesting included |
| ParserSound.DocumentSound | rust/src/codec/json.rs:257-463 | from an accepted text a derivation tree can be rebuilt whose units are the text and whose value is the answer; its characters are scalar values in well-formed text, and any 16-bit units in a Java string |
| ParserComplete.NumComplete | rust/src/codec/json.rs:286-326 | a number token of RFC 8259 section 6 is read to its last character and no further when what follows cannot continue it |
| ParserSound.NumSound | rust/src/codec/json.rs:286-326 | what the number scanner accepts is a number of RFC 8259 section 6, cut exactly where it stopped |
| Grammar.DenoteIffPaired | rust/src/codec/json.rs:366-388 | a derivation denotes a Rust tree if and only if each high surrogate escape is followed by a low one and each low one preceded by a high one |
| JsonTheorems.ParsersAgree | java/src/main/java/io/github/amisonnet8/sandbox/internal/codec/JsonParser.java:38-298 | on every Unicode text Rust answers with Java's tree after decoding its strings from UTF-16, and rejects exactly what Java rejects or reads with a lone surrogate |
| JsonTheorems.JavaParserComplete | java/src/main/java/io/github/amisonnet8/sandbox/internal/codec/JsonParser.java:38-298 | the Java parser accepts every derivation over 16-bit units, lone surrogate escapes and raw surrogate units included, with the value it denotes, and each denotes one |
| JsonTheorems.JavaParserSound | java/src/main/java/io/github/amisonnet8/sandbox/internal/codec/JsonParser.java:38-298 | every sequence of 16-bit units that the Java parser accepts is derivable with the value returned |
| JsonTheorems.JavaParserExact | java/src/main/java/io/github/amisonnet8/sandbox/internal/codec/JsonParser.java:38-298 | on every Java string, unpaired surrogates included, the parser accepts exactly what the grammar derives over 16-bit units, and returns what every such derivation denotes |
| Literals.HexEscapes | rust/src/codec/json.rs:395-410 | in both parsers a quoted `\u` escape parses to the code that its four digits spell, a digit's value being its place in 0123456789abcdef or 0123456789ABCDEF, and any other four characters are refused; Rust refuses a surrogate that is alone |
| Literals.PairEscapes | rust/src/codec/json.rs:366-380 | two such escapes, the first a high surrogate: one character above U+FFFF in Rust if and only if the second is a low one, and two units in Java |
| Literals.ShortEscapes | rust/src/codec/json.rs:358-366 | a backslash and one of eight characters stands for the character listed, `\/` included; any other is refused |
| Literals.WhiteSpace | rust/src/codec/json.rs:250-255 | exactly space, tab, line feed and carriage return may stand before and after a value |
| Literals.NumberBegins | rust/src/codec/json.rs:286-299 | exactly a minus sign or a digit from 1 to 9 may stand before a last digit |
| Literals.NumberGoesOn | rust/src/codec/json.rs:300-312 | exactly a point, `e`, `E` or a digit may stand between two digits |
| Literals.ExponentBegins | rust/src/codec/json.rs:309-320 | exactly a sign or a digit may stand between an `e` and a last digit |
| Literals.Words | rust/src/codec/json.rs:262-284 | null, true and false, letter by letter |
| Literals.Structure | rust/src/codec/json.rs:412-463 | an object with nested arrays and objects, character by character, written and read |
| Literals.WrittenCharacter | rust/src/codec/json.rs:193-211 | how each character is written: seven with a letter, the other control characters with four lower-case digits, all others as they are |
| Literals.EncodedExamples | rust/src/codec/json.rs:137-138 | the encodings of RFC 3629 and RFC 2781 on one character of each length |
| Encoding.SurrogatePairs | rust/src/codec/json.rs:366-380 | the surrogate arithmetic is a bijection between pairs and U+10000 to U+10FFFF |
| Encoding.DecodeEnc | rust/src/codec/json.rs:337-351 | decoding one encoded scalar value, in UTF-8 or UTF-16, gives the value and its length |
| Encoding.EncDecode | rust/src/codec/json.rs:337-351 | only encodings are decoded: no overlong form, no encoded surrogate, nothing above U+10FFFF |
| Encoding.WellFormedIffEncoded | rust/src/codec/json.rs:137-138 | well-formed units are exactly the encodings of scalar sequences, each of exactly one |
| Encoding.EncAllInjective | rust/src/codec/json.rs:152-156 | two texts with the same bytes are the same text |
| Json.LookupIsFirst | rust/src/codec/json.rs:46-51 | `get` answers with the first of the members that share a key, and with none exactly when no member has it |
| JsonWriter.RustRoundTrip | rust/src/codec/json.rs:137-211 | `parse(write(v)) == v` for every tree whose number tokens are JSON numbers: nesting, member order and repeated keys kept |
| JsonWriter.JavaRoundTrip | java/src/main/java/io/github/amisonnet8/sandbox/internal/codec/JsonWriter.java:24-85 | the same for the Java writer and parser, for strings of any 16-bit units |
| JsonWriter.ParsedWritable | rust/src/codec/json.rs:137-211 | every tree the parser returns is one the round trip applies to |
| JsonWriter.WriteAfterParse | rust/src/codec/json.rs:137-211 | for every accepted text, writing its tree gives a text that parses to the same tree and is written back unchanged |
| JsonWriter.NoLineFeed | rust/src/codec/json.rs:152-211 | written text has no line feed, whatever the strings in it |
| RustParser.Parse | rust/src/codec/json.rs:137-147 | is `ParseRust`, the function the grammar theorems are about; rejects bytes that are not UTF-8 and trailing data |
| RustParser.Parser.BumpByte | rust/src/codec/json.rs:236-242 | returns the byte under the cursor and advances by it, or stays at the end |
| RustParser.Parser.ExpectByte | rust/src/codec/json.rs:244-249 | succeeds exactly on the wanted byte |
| RustParser.Parser.SkipWs | rust/src/codec/json.rs:251-255 | stops at the first byte that is not white space, on a character boundary |
| RustParser.Parser.ParseValue | rust/src/codec/json.rs:257-270 | from a character boundary: the tree and the end that the specification gives, or failure when it fails; terminates by remaining bytes and method rank |
| RustParser.Parser.ParseLiteral | rust/src/codec/json.rs:277-284 | accepts exactly when the text goes on with the literal |
| RustParser.Parser.ParseNumber | rust/src/codec/json.rs:286-326 | the token and the end of the specification; the sliced text is ASCII |
| RustParser.Parser.ParseString | rust/src/codec/json.rs:328-355 | the decoded string and the end of the specification; the back-up to a multi-byte character always finds a whole one |
| RustParser.Parser.ParseEscape | rust/src/codec/json.rs:357-394 | the escape of the specification appended; no surrogate is ever turned into a character |
| RustParser.Parser.ParseHex4 | rust/src/codec/json.rs:395-410 | the value of four hexadecimal digits, within 16 bits at every step |
| RustParser.Parser.ParseArray | rust/src/codec/json.rs:412-432 | the array and the end of the specification, cursor on a boundary |
| RustParser.Parser.ParseObject | rust/src/codec/json.rs:434-463 | the object, repeated keys kept in order, and the end of the specification |
| JavaParser.Parse | java/src/main/java/io/github/amisonnet8/sandbox/internal/codec/JsonParser.java:38-47 | is `ParseJava`, the function the agreement theorem is about |
| JavaParser.JsonParser.SkipWhitespace | java/src/main/java/io/github/amisonnet8/sandbox/internal/codec/JsonParser.java:53-62 | stops at the first unit that is not white space |
| JavaParser.JsonParser.ParseValue | java/src/main/java/io/github/amisonnet8/sandbox/internal/codec/JsonParser.java:64-91 | the tree and the end of the specification, or failure when it fails |
| JavaParser.JsonParser.ExpectLiteral | java/src/main/java/io/github/amisonnet8/sandbox/internal/codec/JsonParser.java:93-98 | accepts exactly when the text goes on with the literal |
| JavaParser.JsonParser.ParseObject | java/src/main/java/io/github/amisonnet8/sandbox/internal/codec/JsonParser.java:100-137 | the object and the end of the specification |
| JavaParser.JsonParser.ParseArray | java/src/main/java/io/github/amisonnet8/sandbox/internal/codec/JsonParser.java:139-165 | the array and the end of the specification |
| JavaParser.JsonParser.ParseString | java/src/main/java/io/github/amisonnet8/sandbox/internal/codec/JsonParser.java:167-232 | the 16-bit units of the string, escapes replaced one unit at a time, and the end |
| JavaParser.JsonParser.ParseHex4 | java/src/main/java/io/github/amisonnet8/sandbox/internal/codec/JsonParser.java:234-255 | the value of four hexadecimal digits, or failure without moving |
| JavaParser.JsonParser.ParseNumber | java/src/main/java/io/github/amisonnet8/sandbox/internal/codec/JsonParser.java:257-298 | the token and the end of the specification |
| Writers.WriteValue | rust/src/codec/json.rs:158-188 | appends exactly the text that the round trip is proved for |
| Writers.PutString | rust/src/codec/json.rs:193-211 | appends the quoted string, escaped as the specification says |
| Writers.JavaWriteValue | java/src/main/java/io/github/amisonnet8/sandbox/internal/codec/JsonWriter.java:30-64 | the same text, with the `first` flag |
| Base64.EncodeChunks | rust/src/codec/base64.rs:29-49 | the loop computes `Encode` |
| Base64.DecodeChunks | rust/src/codec/base64.rs:53-100 | the loop computes `Decode`, each error included |
| Base64.ScanGroup | rust/src/codec/base64.rs:67-86 | accepts a group exactly when its padding is allowed there, and fills in its sextets |
| Base64.DecodeEncode | rust/src/codec/base64.rs:29-100 | `decode(encode(d)) == d` for every byte sequence |
| Base64.DecodesIffStrict | rust/src/codec/base64.rs:53-114 | decoding succeeds exactly on strictly padded text over the standard alphabet of RFC 4648 section 4 |
| Base64.EncodeDecode | rust/src/codec/base64.rs:29-100 | what decodes encodes back to itself with its unused trailing bits cleared |
| Base64.CanonicalIff | rust/src/codec/base64.rs:87-97 | so a text survives the trip if and only if those bits were zero (RFC 4648 section 3.5) |
| Base64.EncodedText | rust/src/codec/base64.rs:29-49 | every encoding, character by character: the sextet at each place selects its character in the table of RFC 4648 section 4, written out, and the padding is = |
| Base64.DecodesIffText | rust/src/codec/base64.rs:53-86 | decoding succeeds if and only if the text is a multiple of four characters of that table with at most two = at the end |
| Base64.DecodedText | rust/src/codec/base64.rs:87-100 | every decoding, byte by byte, from the places of its characters in that table; one byte less for each = |
| Base64.CanonicalText | rust/src/codec/base64.rs:87-97 | what is decoded encodes to the same text if and only if the last letter's place is a multiple of 4 before one =, of 16 before two |
| Base64.CharText | rust/src/codec/base64.rs:102-114 | `decode_char` gives the place of a character in that table, and fails on all others |
| Base64.NotCanonical | rust/src/codec/base64.rs:87-97 | a text on which it fails: QR== decodes to one byte, which encodes to QQ== |
| Base64.LetterOfChar | rust/src/codec/base64.rs:102-114 | `decode_char` inverts the alphabet on every character it accepts |
| Values.IntRoundTrip | rust/src/codec/json.rs:109-112 | every i64 prints as an INTEGER token that parses back to it, the least value included |
| Values.PrintedInt | rust/src/codec/encode.rs:31-46 | an integer is written in decimal, digit by digit, with a minus sign before a negative one |
| Values.IntegerTokens | rust/src/codec/decode.rs:110-127 | an INTEGER token of JSON is a printed integer or -0; it is read as that integer if it is within 64 bits, and refused otherwise |
| Values.RealText | rust/src/codec/json.rs:103-107 | a token is REAL exactly when it has a `.`, `e` or `E`; a REAL printed without any gets .0 |
| Values.WrittenValues | rust/src/codec/encode.rs:31-46 | the text of every value on the wire: null, digits, a quoted text, or an array of one Base64 text |
| Values.DecodedValues | rust/src/codec/decode.rs:110-153 | what each JSON value decodes to: bools, objects and arrays of anything but one text of strict Base64 are refused |
| Values.RealToken | rust/src/codec/encode.rs:20-26 | the token of a REAL always has a point or an exponent |
| Values.ValueRoundTrip | rust/src/codec/encode.rs:31-46 | `decode_value(encode_value(v)) == v` for NULL, every i64, every text and blob, and finite reals given that std prints and parses floats inversely |
| Values.WireRoundTrip | rust/src/codec/decode.rs:110-153 | the same through the writer, the bytes and the parser; encoding fails exactly on reals that are not finite |
| Values.ClassKept | rust/src/codec/json.rs:103-107 | an INTEGER is never encoded as a REAL token and a REAL never as an INTEGER token |
| Values.EncodeParams | rust/src/codec/encode.rs:51-64 | all the encoded params, no field for none of them, or the index of the first that fails |
| Values.DecodeRow | rust/src/codec/decode.rs:160-171 | a row exactly when every cell decodes, cell by cell in order |
| Values.DecodeRows | rust/src/codec/decode.rs:155-174 | all rows in order, or the index of the first bad one |
| Values.RowRoundTrip | rust/src/codec/decode.rs:155-174 | a list of values that was encoded, sent and parsed decodes as a row to that list and to no other |
| Values.AnswerOfLine | rust/src/codec/decode.rs:86-108 | the same for every line that can come: a line that is not JSON, or not an object, is malformed |
| Values.AnswerOfWritten | rust/src/codec/decode.rs:86-108 | a response object the peer wrote, its keys spelt out, is read as its fields if and only if ok is true, as a code and message if and only if it is not and the error carries these two as texts, and is malformed if and only if neither; the first of repeated keys decides |
| Framing.SplitJoins | rust/src/transport/mod.rs:60-75 | lines each followed by a line feed, and then the rest, are the bytes; no line has a line feed |
| Framing.SplitUnique | rust/src/transport/mod.rs:60-75 | and that is the only way to cut the bytes |
| Framing.SplitResumes | rust/src/transport/mod.rs:52-75 | cutting can stop anywhere and be resumed from the rest |
| Framing.ChunksFit | rust/src/transport/mod.rs:44-75 | if every line fits the cap, the events depend on the concatenated bytes only, whatever the chunks |
| Framing.ChunkingIff | rust/src/transport/mod.rs:60-75 | every line fits the cap if and only if no chunking changes what is delivered |
| Framing.OverlongLine | rust/src/transport/mod.rs:61-73 | a line over the cap is accepted when its line feed is in the chunk that crosses the cap, and an error when the chunk ends before it |
| Framing.LineFeedAndCap | rust/src/transport/mod.rs:22-75 | a line ends at byte 10 and at no other, and an open line is too long exactly above 2097152 bytes |
| Framing.EndIsLast | rust/src/transport/reader.rs:46-78 | a terminal event is the last event |
| Framing.PendingResumes | rust/src/transport/mod.rs:52-75 | the events of an input are those of its first part, then those of the second from the buffer left behind; after an end, none |
| LineFramer.LineFramer.Push | rust/src/transport/mod.rs:52-54 | the chunk is appended, and nothing is scanned or emitted |
| LineFramer.LineFramer.TakeLine | rust/src/transport/mod.rs:60-75 | the first line, more, or overflow, as specified; bytes pushed stay the lines taken and the buffer; bytes examined stay the bytes gone and `scanned`, so none is examined twice |
| LineFramer.TakenAreLines | rust/src/transport/mod.rs:44-75 | after any pushes and takes, the lines taken are the first lines of all the bytes pushed, and the buffer splits into the others |
| LineFramer.Drain | rust/src/transport/reader.rs:56-70 | draining takes every line and leaves the rest, and reports overflow exactly when the rest is over the cap |
| JavaLineFramer.LineFramer.Push | java/src/main/java/io/github/amisonnet8/sandbox/internal/transport/LineFramer.java:22-26 | the array's contents become the old contents and the chunk's bytes |
| JavaLineFramer.LineFramer.EnsureCapacity | java/src/main/java/io/github/amisonnet8/sandbox/internal/transport/LineFramer.java:32-41 | contents kept, room for what is needed, the capacity 256 times a power of two and less than twice the need, and never less than before; for every need that the doubling can reach |
| JavaLineFramer.LineFramer.TakeLine | java/src/main/java/io/github/amisonnet8/sandbox/internal/transport/LineFramer.java:51-69 | the same answer as the Rust framer, with the rest shifted to the front in place |
| JavaLineFramer.DoublingEndsIff | java/src/main/java/io/github/amisonnet8/sandbox/internal/transport/LineFramer.java:36-39 | with the wrap-around of a 32-bit int the doubling loop reaches the need if and only if that is at most 2^30 |
| JavaLineFramer.PutLines | java/src/main/java/io/github/amisonnet8/sandbox/internal/transport/ReaderThread.java:87-101 | the inner loop queues the lines of the buffer, and the end when the open line is too long |
| JavaLineFramer.RunLoop | java/src/main/java/io/github/amisonnet8/sandbox/internal/transport/ReaderThread.java:67-103 | what the read loop queues is what the specification says for its reads; its buffer stays within the cap and one read, in an array, which never shrinks, of at most 4 MiB |
| JavaLineFramer.CapacityBound | java/src/main/java/io/github/amisonnet8/sandbox/internal/transport/LineFramer.java:32-41 | with at most one read more than the cap in it, the array has at most 4 MiB |
| ThreadedReader.EveryRun | rust/src/transport/reader.rs:38-125 | for every source and every interleaving of thread and caller with any timeouts: received, slot, blocked send and what is to come make up the events of the source in order; the terminal error is last and absorbing; "reader gone" is never reported |
| ThreadedReader.NoDeadlock | rust/src/transport/reader.rs:42-78 | in every run, while the caller waits there is an item to receive, or the thread can go on, or the source has nothing to give and all its events were received |
| ThreadedReader.RunReads | rust/src/transport/reader.rs:86-125 | in every interleaving its calls are those of a reader of the source's events: each delivers the next one, times out without a change, or repeats the end |
| ThreadedReader.RunGoesOn | rust/src/transport/reader.rs:46-78 | with a source that ends and a receiver that is kept, the thread is still on its way to an end, in every run |
| ThreadedReader.CallsAnswered | rust/src/transport/reader.rs:86-125 | in every run each call has returned exactly once, but for the one that waits |
| ThreadedReader.CallReturns | rust/src/transport/reader.rs:86-125 | in every run a call can be made while no other waits: after the end it returns the source's last event again; before, it waits, and then returns the item in the slot or its timeout |
| ThreadedReader.EverythingArrives | rust/src/transport/reader.rs:38-125 | from every state of a run with its receiver, thread and caller can go on so that all the events of the source are received |
| ThreadedReader.RunReports | rust/src/transport/reader.rs:86-125 | the calls that did not time out returned a beginning of the events, or all of them and then the same error again and again |
| ThreadedReader.StepConserves | rust/src/transport/reader.rs:46-125 | each step of either party loses, repeats and reorders nothing |
| ThreadedReader.StepEnds | rust/src/transport/reader.rs:46-125 | each step keeps: the thread never leaves without an end in the slot or received, and an end is remembered once received |
| ThreadedReader.StepReports | rust/src/transport/reader.rs:86-125 | each step keeps what the calls reported equal to what was received and then the remembered error |
| ThreadedReader.ThreadProgress | rust/src/transport/reader.rs:46-78 | each step the thread can take brings it nearer its exit |
| ThreadedReader.ExitsAfterDrop | rust/src/transport/reader.rs:60-62 | once the receiver is gone the thread leaves within a bounded number of its own steps, if its source ends |
| ThreadedReader.ExitsAlone | rust/src/transport/reader.rs:147-160 | with an empty slot and one event left the thread leaves without the caller |
| ThreadedReader.BufferBounded | rust/src/transport/reader.rs:46-70 | in every run the buffer stays within the cap and one chunk |
| Outcomes.ReadsReport | rust/src/transport/reader.rs:86-125 | any reader whose calls each deliver the next event, time out without a change, or repeat its memo, reports the events in order, and what it returned and what is to come is everything |
| InlineReader.SocketTransport.ReadLine | rust/src/transport/socket.rs:119-164 | each call delivers the next event, or times out and changes nothing; never with a whole line in its buffer, never before the deadline; apart from interrupted reads it reads no more once it saw the deadline pass; a buffered line is returned without reading |
| InlineReader.SocketTransport.TakeOrTerminal | rust/src/transport/socket.rs:179-187 | a line, more, or the remembered overflow |
| InlineReader.SocketTransport.Close | rust/src/transport/socket.rs:173-175 | every later read says closed |
| InlineReader.ReadAll | rust/src/transport/socket.rs:119-164 | any number of calls with any time limits is a run of the reader contract, within a buffer of the cap and one read |
| InlineReader.ReadersAgree | rust/src/transport/socket.rs:119-188 | threaded and inline reader give the same results, for every interleaving, time limits and cut-short reads, on sources where no read is cut short before the end |
| InlineReader.RetriedIff | rust/src/transport/socket.rs:149-157 | and the two event sequences are equal if and only if no read of the source is cut short before an end of file, another error or a line over the cap |
| InlineReader.EndsWellIff | rust/src/transport/reader.rs:72-76 | the threaded reader ends with a cut-short read if and only if one comes before any other end |
| InlineReader.PlainSource | rust/src/transport/socket.rs:125-147 | they agree on every source of chunks and an end of file, the cap violated or not |
| InlineReader.RetriedKinds | rust/src/transport/socket.rs:149-157 | exactly WouldBlock, TimedOut and Interrupted are retried; any other kind ends the reader |
| InlineReader.InterruptedDiffers | rust/src/transport/socket.rs:156-157 | a source on which they differ: an interrupted read ends the threaded reader and is retried by the inline one |
| TsLineReader.LineReader.OnData | typescript/src/transport.ts:54-91 | keeps the invariant: queue and waiters never both non-empty, a source is paused exactly while a line is queued, answers and queue and end are the events of what the source gave, each call ended at most once, answered calls in call order; only answers are added |
| TsLineReader.LineReader.Deliver | typescript/src/transport.ts:93-101 | the line goes to the call that waits longest or to the end of the queue |
| TsLineReader.LineReader.Terminate | typescript/src/transport.ts:103-117 | the first end counts; every waiting call is told it; queued lines stay |
| TsLineReader.LineReader.OnEnd | typescript/src/transport.ts:45-52 | the stream's end or error becomes the terminal unless there is one |
| TsLineReader.LineReader.ReadLine | typescript/src/transport.ts:130-138 | a queued line first, then the end, then an aborted signal; else the call waits |
| TsLineReader.LineReader.Leave | typescript/src/transport.ts:144-168 | a timer or a signal ends only the call that waits and consumes no line |
| TsLineReader.Run | typescript/src/transport.ts:36-172 | over any sequence of callbacks, calls, timers and signals: the answered calls, in call order, were told the events of the source in order and then the end; every call waits or has ended exactly once, timed out only by its timer and aborted only by its signal |
| TsLineReader.ToldReports | typescript/src/transport.ts:130-136 | what is told is a beginning of the events, or all of them and then the end |
| TsLineReader.FirstAnswered | typescript/src/transport.ts:93-98 | answering the first waiter keeps the order and the exactly-once account |
| TsLineReader.LeavesWaiting | typescript/src/transport.ts:146-152 | taking any one waiter out keeps them too |
| Requests.EncodeRequestLine | rust/src/codec/encode.rs:70-80 | the bytes are the request's text and one line feed |
| Requests.OneLine | rust/src/codec/encode.rs:70-80 | a request line is the UTF-8 text of the object and one line feed at its end, and parsing it gives the request object |
| Requests.EndToEnd | rust/src/transport/mod.rs:52-75 | every request fits the cap if and only if, in every chunking of the concatenated request lines, exactly one line per request comes out, in order; and each line parses to its request |
| Requests.WireInjective | rust/src/codec/encode.rs:70-80 | different request lists are different bytes |
| Session.ClosedOnce | rust/src/session.rs:35-59 | in every life of a session (opened or not, any calls, closed or not, dropped) the transport is closed exactly once and nothing is written after that |
| Session.ClosedForever | rust/src/session.rs:82-95 | once closed, by a timeout or otherwise, no call gets anything but the error and no line is read any more |
| Session.OpensIff | rust/src/session.rs:35-52 | for every first line of a peer: a session is opened if and only if it is an object whose protocol is the INTEGER token 1 and whose version and product are texts, the keys spelt out |
| Session.OpensForWritten | rust/src/codec/decode.rs:70-82 | the same for the hello object a peer writes; of repeated keys the first counts |
| Session.CloseLine | rust/src/session.rs:175-178 | the close request, byte by byte |
| Session.LateWritesCount | rust/src/session.rs:170-192 | the counts that the statements on closing use: every close, and every write after one |
| Session.WhichResponse | rust/src/session.rs:82-106 | in every run, a response is the peer's answer to the request as many places back as failed writes reached the peer whole, and it is for the call's own request exactly when none did and no part of one is left on the wire |
| Session.OwnResponseIff | rust/src/session.rs:86-105 | the same condition in terms of the outcomes of the writes before |
| Session.OwnResponses | rust/src/session.rs:82-106 | if failed writes send nothing, every response returned in every run is the answer to its own request |
| Session.StaleResponse | rust/src/session.rs:86-96 | without that assumption it is false: a failed write that reached the peer makes the next call return the stale response |
| Session.WhyTimeoutCloses | rust/src/session.rs:89-93 | a timeout closes the session; if it stayed open, the next call would be given the response that came too late |
| Session.RunInStep | rust/src/session.rs:82-106 | in every run, while the session can read, unread lines are as many as such writes |
| SessionReader.ReadMatches | rust/src/session.rs:87-95 | the line that a reader of the peer's bytes delivers next is the line the session's transport would give |
| SessionReader.OnReader | rust/src/session.rs:35-106 | in every run a session on a reader of what the peer says does what the session's state machine does |
| SessionReader.SpokenEvents | rust/src/transport/mod.rs:44-75 | however the bytes of a peer whose lines fit the cap are cut into chunks, a reader of them has those lines to deliver, and then the end |
| SessionReader.OwnResponsesOverBytes | rust/src/session.rs:82-106 | on any reader that delivers the events of the peer's bytes, in any chunking: if failed writes send nothing, every response is the answer to its own request |
| SessionReader.OwnResponsesThreaded | rust/src/transport/reader.rs:38-125 | the same on the threaded reader's own steps, for every interleaving of its thread and its calls, and all timeouts |
| SessionReader.OneCall | rust/src/session.rs:82-98 | the shortest run on a reader: after the hello, one call returns the answer to its request |
| SessionReader.CloseReadsAll | rust/src/session.rs:180-191 | when a session on a reader closes itself in order, the reader has nothing left but the end |
| Session.CloseDrains | rust/src/session.rs:180-191 | closing reads the response to the close request, and no line is left unread |
| Session.Session.New | rust/src/session.rs:35-59 | an open session exactly after a hello of protocol 1; otherwise the transport is closed |
| Session.Session.Call | rust/src/session.rs:82-106 | one step of the state machine that the run theorems are about, result included |
| Session.Session.Close | rust/src/session.rs:170-202 | one closing step of that machine; idempotent |
| Session.Live | rust/src/session.rs:35-202 | the whole life, imperatively: ends in the state the machine gives, closed exactly once, nothing written late |
| DirectClose.DirectTransport.WaitBounded | rust/src/transport/direct.rs:119-132 | terminates; answers exactly when the child is gone, and gives up only past the deadline |
| DirectClose.DirectTransport.Close | rust/src/transport/direct.rs:156-191 | the child is gone and its code known, minus the signal for one that was killed; SIGTERM only if it outlived closed stdin by the timeout, SIGKILL only if it outlived SIGTERM by another; a second call changes nothing; the reader thread, its reader dropped, leaves within a bounded number of its own steps |
| DirectClose.DirectTransport.EndChild | rust/src/transport/direct.rs:165-181 | how the child was ended and when: by its closed stdin, else after the timeout by SIGTERM, else after another by SIGKILL; it is gone |
| DirectClose.StagedSignals | rust/src/transport/direct.rs:165-183 | a child that goes when stdin is closed gets no signal; one that goes for SIGTERM only gets that; one that goes for neither is killed by signal 9 |
| DirectClose.ExitsIff | rust/src/transport/reader.rs:147-160 | in every reachable state with nobody reading any more, the thread leaves by itself if and only if at most one event is not received |
| DirectClose.ClosedSessionLeaves | rust/src/session.rs:180-191 | after a session closed itself in order, the reader thread leaves without the caller |
| DirectClose.ClosedOnReaderLeaves | rust/src/session.rs:180-191 | the same for a session on the threaded reader itself, whatever the interleaving and the chunks |

## Left out

- JavaLineFramer.LineFramer.Push: asks that the contents stay within 2^30 bytes, beyond which the source's doubling loop never ends (`JavaLineFramer.DoublingEndsIff`) and a sum of lengths over 2^31 wraps around; the read loop is proved to stay within 4 MiB.
- JavaLineFramer.LineFramer.EnsureCapacity: the same.
- DirectClose.DirectTransport.Close: the waits use an abstract clock on which a sleep lasts at least its time, so no upper bound on the whole is stated; `wait` and `try_wait` do not fail.
- Values.ValueRoundTrip: that std prints and parses finite floats inversely, as JSON numbers, is assumed by `Faithful`; IEEE 754 is not modelled, only the point and exponent that tell REAL from INTEGER.
- The text of error messages and their byte offsets; the error kinds are kept where the code branches on them or a caller can tell them apart.
- UTF-8 validation is defined, not taken apart: std's validator is the function `Encoding.WellFormed`.
- The parsers' depth: recursion is unbounded, as in the source, and the stack is not modelled.
- The loops of the reader thread and of `read_line` are the steps of one system, not methods: the two run at the same time, and the statements are about their interleavings.
- Number scanning and the reading of one member are their own methods in `RustParser` and `JavaParser`, so that each loop has a short proof.
- Buffers, strings and lists of Rust and TypeScript are sequences held in fields and reassigned; only Java's byte array is an array updated in place.
- The interruption of Java's queue `put`, and Java's and TypeScript's sessions.
- Starting processes, pipes, sockets, TLS, signals' delivery and the draining of stderr.
- The wrappers for single operations, the option builders and the decoders of single results, except the hello line: thin, one field after another.
- The Go and Python drivers, the Java Base64 and the TypeScript codec: they delegate to their libraries.
