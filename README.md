# beanstemc: the protocol layer of a beanstalkd client, in Dafny

beanstemc is a small Java client for the beanstalkd work-queue server. A
`Beanstemc` object holds one TCP connection. Each public method writes one
text command, such as `put 1024 0 120 5\r\n` followed by the job body. It then
reads the server's status line, such as `INSERTED 7`, and turns the reply into
a result or a `BeanstemcException`. Some replies are followed by a body. A job
body is returned as bytes. A YAML body becomes a map (`stats*`) or a list of
tube names (`list-tubes*`). A `Job` is an id paired with its bytes.

The model has three layers.

- **Values.**
  - `Framing.ReadLine` and `Framing.ReadBody` say what `readResponseLine` and
    `readData` return, and what is left of the incoming stream afterwards.
  - `Yaml.YamlMap` and `Yaml.YamlList` say what the two YAML parsers build.
  - `Protocol.Encode` gives the exact request bytes of every command.
  - `Protocol.PutReply`, `ExpectReply`, `CountReply`, `JobGate` and `YamlGate`
    are the status checks, with the exception messages each command builds.
- **The connection.** `Client.Connection` is a class. It holds the bytes still
  to be read, the read sizes the transport will deliver, and the bytes written
  so far. Its methods are imperative, as in the Java:
  - the byte-at-a-time line loop;
  - the bulk-read loop over an `array<byte>` buffer;
  - one method per public command and per overload.
  
  Each method is proved equal to the value-level functions. Each command
  method also states the exact bytes it appends to the output.
- **Properties.** These are lemmas about the value-level functions:
  - request and reply round trips through the framing;
  - `Long.valueOf` reads back the `%d` text of every long. The reverse does
    not hold, since `+7` and `007` also parse to 7 (`Protocol.LenientNumerals`);
  - Java's `String.split` and `BufferedReader.readLine` recover what was
    joined;
  - map and list parsing keep exactly the lines of the right shape, and
    nothing else;
  - the code's quirks, each pinned down by a lemma.

Java behaviour is modelled explicitly:
- `String.split` with a literal separator drops trailing empty strings. When
  there is no match it returns the whole string.
- `readLine` ends a line at `\n`, `\r` or `\r\n`.
- `Long.valueOf` and `Integer.valueOf` accept an optional sign and must fit
  their width.
- `long.intValue()` truncates modulo 2^32.
- A negative array size and a bad index are runtime exceptions. They are
  modelled as `Failure.Runtime`.
- Default values: priority 1024, delay 0, TTR 120, the initial values of the
  `DEFAULT_*` fields. `reserve()` sends a plain `reserve`.

### Where the code behaves differently from the protocol

The model follows the code in every case below.
- **Status-line stop rule** (`Beanstemc.java:100-108`). The line loop stops at
  any `\n`, or at the byte after any `\r`. It then drops the last two
  characters it read, whatever they are.
  - A line ended by a bare `\n` loses its last real character
    (`Framing.LineFeedAloneEndsLine`).
  - The byte after a `\r` is consumed even when it is not `\n`
    (`Framing.ByteAfterCarriageReturnEndsLine`).
  - A leading `\n` is a runtime exception (`Framing.LeadingLineFeedFails`).
  - At the end of the stream `read()` gives -1, and the loop appends it as the
    character 0xFFFF. So a `\r` as the last byte still ends the line, and the
    two dropped characters are the `\r` and that 0xFFFF
    (`Framing.CarriageReturnAtEnd`).
- **Partial reads overwrite** (`Beanstemc.java:127-135`). Every bulk read
  writes from index 0 of the buffer, so a body that arrives in several pieces
  comes back as the last piece over the tail of the earlier ones. It also
  reads past the body into the trailer (`Framing.PartialReadOverwrites`).
- **The trailer is unchecked** (`Beanstemc.java:138-139`). The two bytes after
  a body are skipped without looking at them.
- **pause-tube has no separator** (`Beanstemc.java:651`). The tube name and the
  delay run together into one word, so the server sees a different request
  from the documented `pause-tube <tube> <delay>` (`Protocol.PauseTubeRunsTogether`).
- **reserve-with-timeout only when the timeout is positive**
  (`Beanstemc.java:338-342`). The doc comment at lines 328-329 says a timeout
  of 0 returns at once. The code sends a plain, blocking `reserve` for 0 and
  for negative values (`Protocol.ReserveRequest`).
- **list-tube-used** (`Beanstemc.java:764`) expects an `OK <bytes>` YAML reply
  and returns element 0 of its list. An empty list is a runtime exception.
- **Error messages.** Every server error is one exception class carrying a
  message. The message is built per command, and `use` and `watch` add no
  detail. The model keeps the message (`Failure.Server`) rather than splitting
  errors into kinds.

## Model

| member | source | states |
|---|---|---|
| JavaNumbers.IntValue | src/dk/safl/beanstemc/Beanstemc.java:159 | `intValue()` keeps a value that fits in 32 bits; any value is congruent to the result modulo 2^32 |
| JavaNumbers.Digits | src/dk/safl/beanstemc/Beanstemc.java:249 | the `%d` digits of a natural number are nonempty, all decimal digits, and denote that number |
| JavaNumbers.Decimal | src/dk/safl/beanstemc/Beanstemc.java:249 | `%d` text is never empty |
| JavaNumbers.DecimalChars | src/dk/safl/beanstemc/Beanstemc.java:249 | `%d` text holds only a minus sign and digits |
| JavaNumbers.ParseLong | src/dk/safl/beanstemc/Beanstemc.java:158 | `Long.valueOf` succeeds exactly when the text is a signed integer in 64-bit range, with that value |
| JavaNumbers.ParseInt | src/dk/safl/beanstemc/Beanstemc.java:561 | `Integer.valueOf` succeeds exactly when the text is a signed integer in 32-bit range, with that value |
| JavaNumbers.DecimalRoundTrip | src/dk/safl/beanstemc/Beanstemc.java:249 | parsing the `%d` text of any integer gives that integer back |
| JavaNumbers.LongRoundTrip | src/dk/safl/beanstemc/Beanstemc.java:258 | `Long.valueOf` of a long written with `%d` is that long |
| JavaNumbers.IntRoundTrip | src/dk/safl/beanstemc/Beanstemc.java:561 | `Integer.valueOf` of an int written with `%d` is that int |
| JavaStrings.TextOfBytes | src/dk/safl/beanstemc/Beanstemc.java:696 | text of one byte per character survives `getBytes` and then `new String` |
| JavaStrings.BytesOfText | src/dk/safl/beanstemc/Beanstemc.java:696 | bytes survive `new String` and then `getBytes`, and the text has one byte per character |
| JavaStrings.FindFrom | src/dk/safl/beanstemc/Beanstemc.java:108 | the first position at or after i where the separator occurs, or the end when there is none |
| JavaStrings.SplitAll | src/dk/safl/beanstemc/Beanstemc.java:108 | splitting on a nonempty separator yields at least one piece |
| JavaStrings.SplitAllRejoins | src/dk/safl/beanstemc/Beanstemc.java:108 | joining the pieces with the separator between them gives the string back |
| JavaStrings.SplitAllPieces | src/dk/safl/beanstemc/Beanstemc.java:108 | no piece holds an occurrence of the separator |
| JavaStrings.Split | src/dk/safl/beanstemc/Beanstemc.java:108 | a string in which the separator does not occur splits into itself alone |
| JavaStrings.SplitTrims | src/dk/safl/beanstemc/Beanstemc.java:108 | `split` returns a prefix of all the pieces and drops only empty pieces after it |
| JavaStrings.SplitPieces | src/dk/safl/beanstemc/Beanstemc.java:108 | no piece `split` returns holds an occurrence of the separator |
| JavaStrings.PiecesWithout | src/dk/safl/beanstemc/Beanstemc.java:108 | pieces that never hold a one-character separator do not contain that character |
| JavaStrings.DropTrailingEmpty | src/dk/safl/beanstemc/Beanstemc.java:108 | `split` keeps a prefix of the pieces, ending in a nonempty one, and drops only empty ones |
| JavaStrings.FindFromIs | src/dk/safl/beanstemc/Beanstemc.java:108 | any position with no occurrence before it and one at it is the search result |
| JavaStrings.SplitAllJoin | src/dk/safl/beanstemc/Beanstemc.java:108 | splitting words joined by a character they do not contain gives the words back |
| JavaStrings.SplitJoin | src/dk/safl/beanstemc/Beanstemc.java:108 | the same for `split`, when the last word is nonempty |
| JavaStrings.SplitPair | src/dk/safl/beanstemc/Beanstemc.java:194-195 | `a + sep + b` splits into exactly `[a, b]` when sep occurs only there and b is nonempty |
| JavaStrings.BreakIndex | src/dk/safl/beanstemc/Beanstemc.java:192 | the first line break, with no break before it |
| JavaStrings.Lines | src/dk/safl/beanstemc/Beanstemc.java:191-192 | the lines `readLine` returns contain no line breaks |
| JavaStrings.LinesOfTerminated | src/dk/safl/beanstemc/Beanstemc.java:191-192 | reading back lines that were each ended with a line feed gives the same lines |
| Jobs.JobAccessors | src/dk/safl/beanstemc/Job.java:24-42 | `getId` and `getData` return what the job was built with, and a job is determined by the two |
| Framing.StopFrom | src/dk/safl/beanstemc/Beanstemc.java:100-106 | the first position at or after i where the line loop stops: a stop byte, or the read past the end right after a final `\r` |
| Framing.LineEnd | src/dk/safl/beanstemc/Beanstemc.java:100-106 | the position of the last read of the line loop: a stop, with none before it |
| Framing.StopTest | src/dk/safl/beanstemc/Beanstemc.java:100-106 | the loop's test on the previous and the current character, with -1 read as 0xFFFF, holds exactly at the position where the line ends |
| Framing.LineOfBuffer | src/dk/safl/beanstemc/Beanstemc.java:93-110 | a buffer holding the characters read up to the line end, with 0xFFFF for a read past the end, gives exactly `ReadLine`'s tokens and remaining stream |
| Framing.Tokenize | src/dk/safl/beanstemc/Beanstemc.java:108 | dropping the last two characters fails with a runtime exception exactly when fewer than two were read; otherwise no word of the split contains a space |
| Framing.ReadLine | src/dk/safl/beanstemc/Beanstemc.java:93-110 | consumes exactly the bytes up to and including the first stop (a `\n`, or any byte after a `\r`), or the whole stream when it ends in a `\r` with no stop before; leaves the read sizes alone, and fails with a runtime exception exactly when the first byte is `\n` |
| Framing.CarriageReturnAtEnd | src/dk/safl/beanstemc/Beanstemc.java:100-108 | a line of words ended by a `\r` and then the end of the stream reads as its words and consumes the whole stream |
| Framing.CarriageReturnAtEndExample | src/dk/safl/beanstemc/Beanstemc.java:100-108 | `OK\r` and then the end of the stream reads as `{"OK"}` |
| Framing.LineRoundTrip | src/dk/safl/beanstemc/Beanstemc.java:93-110 | a well-formed status line `w1 w2 … \r\n` reads back as its words and leaves exactly the bytes after it |
| Framing.WatchingExample | src/dk/safl/beanstemc/Beanstemc.java:90 | `WATCHING 10\r\n` reads as `{"WATCHING", "10"}` |
| Framing.LineFeedAloneEndsLine | src/dk/safl/beanstemc/Beanstemc.java:106-108 | a bare line feed ends the line and the character before it is lost |
| Framing.ByteAfterCarriageReturnEndsLine | src/dk/safl/beanstemc/Beanstemc.java:106-108 | any byte after a carriage return ends the line and is dropped |
| Framing.LeadingLineFeedFails | src/dk/safl/beanstemc/Beanstemc.java:106-108 | a line feed as the first byte is a runtime exception and consumes one byte |
| Framing.Chunk | src/dk/safl/beanstemc/Beanstemc.java:129 | one bulk read takes at least one byte and at most the buffer size and what is left |
| Framing.SkipTrailer | src/dk/safl/beanstemc/Beanstemc.java:138-139 | drops the next two bytes, or all that is left when fewer remain, and leaves the read sizes alone |
| Framing.Fill | src/dk/safl/beanstemc/Beanstemc.java:127-141 | the read loop succeeds exactly when the bytes already counted and the bytes left reach n, and then returns a buffer of n bytes; otherwise it is the premature-end IOException with the stream drained |
| Framing.AfterTake | src/dk/safl/beanstemc/Beanstemc.java:127-135 | one bulk read and then reads taking k bytes leave the same stream as reads taking the chunk plus k bytes, with one more burst used |
| Framing.FillLeaves | src/dk/safl/beanstemc/Beanstemc.java:127-141 | on success the loop leaves the stream after bulk reads that took at least the missing bytes (none when nothing was missing), one burst per read, and then the two skipped trailer bytes |
| Framing.FillWitness | src/dk/safl/beanstemc/Beanstemc.java:127-141 | the number of bytes and of reads that `Framing.FillLeaves` speaks of, computed read by read |
| Framing.ReadBody | src/dk/safl/beanstemc/Beanstemc.java:120-143 | a negative size is a runtime exception that reads nothing; otherwise `readData` succeeds exactly when n bytes are left, with n bytes, and is the premature-end IOException with the stream drained when they are not |
| Framing.BodyLeaves | src/dk/safl/beanstemc/Beanstemc.java:120-143 | a successful `readData` of n bytes leaves the stream after bulk reads that took at least n bytes (none for n = 0), one burst per read, and then the two trailer bytes |
| Framing.BodyRoundTrip | src/dk/safl/beanstemc/Beanstemc.java:120-143 | a body that arrives in one read comes back exactly, and the two trailer bytes are skipped unchecked |
| Framing.EmptyBody | src/dk/safl/beanstemc/Beanstemc.java:120-143 | a zero-length body reads nothing but still skips two bytes |
| Framing.PartialReadOverwrites | src/dk/safl/beanstemc/Beanstemc.java:127-135 | a 3-byte body delivered as 2 bytes and then the rest returns the second read over the first, including the carriage return |
| Yaml.ParseYamlMap | src/dk/safl/beanstemc/Beanstemc.java:186-203 | the loop builds the map of the `key: value` lines, a later key overriding an earlier one |
| Yaml.ParseYamlList | src/dk/safl/beanstemc/Beanstemc.java:205-221 | the loop builds, in order, the items of the lines that split on `- ` into two pieces |
| Yaml.YamlMap | src/dk/safl/beanstemc/Beanstemc.java:186-203 | a key is in the parsed map exactly when some line splits on `: ` into two pieces with that key |
| Yaml.KeysOfLines | src/dk/safl/beanstemc/Beanstemc.java:192-197 | the keys of the map built from the entries of the lines are exactly the keys of the entry lines |
| Yaml.YamlList | src/dk/safl/beanstemc/Beanstemc.java:205-221 | the parsed list has no more elements than there are lines |
| Yaml.KeysOfMap | src/dk/safl/beanstemc/Beanstemc.java:195-196 | a key is in the map exactly when some entry has it |
| Yaml.LastEntryWins | src/dk/safl/beanstemc/Beanstemc.java:196 | a key maps to the value of its last entry |
| Yaml.EntriesFromLines | src/dk/safl/beanstemc/Beanstemc.java:192-197 | every entry comes from some line that splits into a key and a value, and there are no more entries than lines |
| Yaml.LinesToEntries | src/dk/safl/beanstemc/Beanstemc.java:192-197 | every line that splits into a key and a value contributes its entry |
| Yaml.ListFromItems | src/dk/safl/beanstemc/Beanstemc.java:211-216 | every list element is the item of some line that splits on `- ` into two pieces |
| Yaml.ItemsToList | src/dk/safl/beanstemc/Beanstemc.java:211-216 | every line that splits on `- ` into two pieces contributes its item to the list |
| Yaml.NoOccurrence | src/dk/safl/beanstemc/Beanstemc.java:213 | a line without the separator splits into itself alone |
| Yaml.ItemLine | src/dk/safl/beanstemc/Beanstemc.java:213-215 | `- name` is an item line whose item is the name |
| Yaml.ItemLinesSnoc | src/dk/safl/beanstemc/Beanstemc.java:213-215 | the item lines of names end with the line of the last name |
| Yaml.MarkerIsNoItem | src/dk/safl/beanstemc/Beanstemc.java:213-214 | the document marker `---` is skipped |
| Yaml.YamlListSnoc | src/dk/safl/beanstemc/Beanstemc.java:214-215 | an item line appends its item to the list |
| Yaml.ItemLinesParse | src/dk/safl/beanstemc/Beanstemc.java:205-221 | a `---` line followed by one `- name` line per name parses back to the names, in order |
| Yaml.ListRoundTrip | src/dk/safl/beanstemc/Beanstemc.java:205-221 | the same for the body text, lines ended with line feeds |
| Yaml.ListExample | src/dk/safl/beanstemc/Beanstemc.java:205-221 | `---\n- x\n- y\n` is `["x", "y"]` |
| Yaml.EntryLine | src/dk/safl/beanstemc/Beanstemc.java:194-196 | `k: v` is an entry with key k and value v, when `: ` occurs only between them |
| Yaml.MapExample | src/dk/safl/beanstemc/Beanstemc.java:186-203 | `a: 1\nb: 2\n` parses to `{a: 1, b: 2}` |
| Protocol.Encode | src/dk/safl/beanstemc/Beanstemc.java:249-251 | every request ends with CR LF, and a `put` request's payload sits right before that final CR LF |
| Protocol.DecimalWord | src/dk/safl/beanstemc/Beanstemc.java:249 | a number's `%d` text is one nonempty word without spaces or line breaks |
| Protocol.VerbWord | src/dk/safl/beanstemc/Beanstemc.java:249-779 | every command name is one nonempty word |
| Protocol.ArgumentWords | src/dk/safl/beanstemc/Beanstemc.java:249-727 | with a well-formed tube name, every argument is one nonempty word |
| Protocol.GrammarWords | src/dk/safl/beanstemc/Beanstemc.java:249-779 | the words of every request form a well-formed line |
| Protocol.TextOfPut | src/dk/safl/beanstemc/Beanstemc.java:249 | the `put` format is its name and four numbers joined by single spaces |
| Protocol.TextOfRelease | src/dk/safl/beanstemc/Beanstemc.java:465 | the `release` format is its name and three numbers joined by single spaces |
| Protocol.TextOfBury | src/dk/safl/beanstemc/Beanstemc.java:525 | the `bury` format is its name and two numbers joined by single spaces |
| Protocol.TextOfIdCommands | src/dk/safl/beanstemc/Beanstemc.java:357-715 | `peek`, `delete`, `touch` and `stats-job` are their name, a space and the id |
| Protocol.TextOfTubeCommands | src/dk/safl/beanstemc/Beanstemc.java:300-727 | `use`, `watch`, `ignore` and `stats-tube` are their name, a space and the tube |
| Protocol.TextOfCountCommands | src/dk/safl/beanstemc/Beanstemc.java:336-606 | `kick` and `reserve` are their words joined by single spaces |
| Protocol.TextOfBareCommands | src/dk/safl/beanstemc/Beanstemc.java:373-779 | commands without arguments are their name alone |
| Protocol.TextAsWords | src/dk/safl/beanstemc/Beanstemc.java:249-779 | every request except `pause-tube` is its words joined by single spaces |
| Protocol.EncodeAsLine | src/dk/safl/beanstemc/Beanstemc.java:249-779 | every request except `pause-tube` is one status line of its words, followed by the body for `put` |
| Protocol.RequestRoundTrip | src/dk/safl/beanstemc/Beanstemc.java:249-779 | reading a request with the client's own line reader gives its words and leaves the `put` body and whatever follows |
| Protocol.PutFraming | src/dk/safl/beanstemc/Beanstemc.java:245-252 | a `put` request announces the body length, and the announced body reads back exactly |
| Protocol.PauseTubeLine | src/dk/safl/beanstemc/Beanstemc.java:651 | the `pause-tube` request is a two-word line, the tube and delay fused |
| Protocol.PauseTubeRunsTogether | src/dk/safl/beanstemc/Beanstemc.java:651 | the `pause-tube` request reads as `pause-tube` and one fused word, not as the three documented words |
| Protocol.ReserveRequest | src/dk/safl/beanstemc/Beanstemc.java:336-342 | `reserve-with-timeout t` is sent exactly when t > 0, otherwise a plain `reserve` |
| Protocol.PutReply | src/dk/safl/beanstemc/Beanstemc.java:254-265 | a two-word `INSERTED` reply gives its id exactly when `Long.valueOf` accepts it; a two-word `BURIED` reply fails with `BURIED` and the reparsed id; an unparsable id in either is a runtime exception; any other reply fails with its first word; an empty reply is a runtime exception; a read failure passes through |
| Protocol.ExpectReply | src/dk/safl/beanstemc/Beanstemc.java:305-308 | success exactly when the first word is the expected one; otherwise the message is that word plus the command's detail; an empty reply is a runtime exception; a read failure passes through |
| Protocol.CountReply | src/dk/safl/beanstemc/Beanstemc.java:559-564 | with the expected first word and a second word `Integer.valueOf` accepts, gives that count; with the expected word and no second word or an unparsable one, a runtime exception; another first word fails with that word plus the detail; an empty reply is a runtime exception; a read failure passes through |
| Protocol.JobGate | src/dk/safl/beanstemc/Beanstemc.java:154-165 | a three-word `RESERVED` or `FOUND` line whose two numbers `Long.valueOf` accepts passes, with the id and the size truncated by `intValue`; an unparsable number there is a runtime exception; any other line fails with its first word; an empty line is a runtime exception; a read failure passes through |
| Protocol.YamlGate | src/dk/safl/beanstemc/Beanstemc.java:172-181 | a two-word `OK` line whose size `Long.valueOf` accepts passes, with the size truncated by `intValue`; an unparsable size is a runtime exception; any other line fails with its first word; an empty line is a runtime exception; a read failure passes through |
| Protocol.FirstName | src/dk/safl/beanstemc/Beanstemc.java:764 | element 0 of a nonempty list; an empty list is a runtime exception, as `get(0)` throws |
| Protocol.ReadJobFrom | src/dk/safl/beanstemc/Beanstemc.java:152-168 | a failed gate is that failure with only the line consumed; a passing gate is followed by `readData` of the announced size, giving the job of the gate's id and those bytes, or the body's failure, and the stream `readData` leaves |
| Protocol.ReadYamlFrom | src/dk/safl/beanstemc/Beanstemc.java:170-184 | a failed gate is that failure with the line consumed; otherwise it is `readData` of the announced size |
| Protocol.JobReplyRoundTrip | src/dk/safl/beanstemc/Beanstemc.java:152-168 | `RESERVED`/`FOUND id n` followed by n bytes and a trailer reads as the job (id, bytes) and leaves the rest |
| Protocol.JobErrorReply | src/dk/safl/beanstemc/Beanstemc.java:163-165 | any other well-formed line fails with its first word, and reads no body |
| Protocol.YamlReplyRoundTrip | src/dk/safl/beanstemc/Beanstemc.java:170-184 | `OK n` followed by n bytes and a trailer reads as those bytes and leaves the rest |
| Protocol.YamlErrorReply | src/dk/safl/beanstemc/Beanstemc.java:179-181 | any other well-formed line fails with its first word, and reads no body |
| Protocol.PutReplies | src/dk/safl/beanstemc/Beanstemc.java:255-263 | `INSERTED id` gives id; `BURIED id` fails with the message `BURIED id` |
| Protocol.StatusReply | src/dk/safl/beanstemc/Beanstemc.java:305-308 | a well-formed reply is accepted exactly when its first word is the expected one, and consumes only its line |
| Protocol.LenientNumerals | src/dk/safl/beanstemc/Beanstemc.java:158-159 | numbers with a plus sign or leading zeros, such as `+7`, `007` and `03`, are accepted by `put`, `watch` and `readJob` as `Long.valueOf` and `Integer.valueOf` accept them |
| Protocol.CountReplyRoundTrip | src/dk/safl/beanstemc/Beanstemc.java:559-562 | `WORD n` with the expected word gives back n |
| Client.Connection.constructor | src/dk/safl/beanstemc/Beanstemc.java:66-72 | a new connection has the given incoming stream and has written nothing |
| Client.Connection.Write | src/dk/safl/beanstemc/Beanstemc.java:249-251 | appends the bytes to the output; the input is untouched |
| Client.Connection.ReadByte | src/dk/safl/beanstemc/Beanstemc.java:138-139 | the next byte and the stream without it, or -1 at end of stream |
| Client.Connection.ReadInto | src/dk/safl/beanstemc/Beanstemc.java:129 | a bulk read copies one chunk to the front of the buffer, keeps the rest of the buffer, and returns its size; -1 at end of stream, 0 for an empty buffer |
| Client.Connection.ReadResponseLine | src/dk/safl/beanstemc/Beanstemc.java:93-110 | the byte loop, with -1 at the end of the stream appended as 0xFFFF, returns `ReadLine` of the stream and leaves the stream after the line |
| Client.Connection.ReadData | src/dk/safl/beanstemc/Beanstemc.java:120-143 | the buffer loop returns `ReadBody` of the stream and leaves the stream it describes |
| Client.Connection.ReadJob | src/dk/safl/beanstemc/Beanstemc.java:152-168 | returns `ReadJobFrom` of the stream |
| Client.Connection.ReadYaml | src/dk/safl/beanstemc/Beanstemc.java:170-184 | returns `ReadYamlFrom` of the stream |
| Client.Connection.Put | src/dk/safl/beanstemc/Beanstemc.java:245-267 | writes the `put` line, the body and a CRLF, then returns `PutReply` of the reply line |
| Client.Connection.Use | src/dk/safl/beanstemc/Beanstemc.java:300-310 | writes `use tube`; succeeds on `USING`, otherwise fails with the first word |
| Client.Connection.Reserve | src/dk/safl/beanstemc/Beanstemc.java:336-347 | writes the reserve request for the timeout and reads a job |
| Client.Connection.Peek | src/dk/safl/beanstemc/Beanstemc.java:357-364 | writes `peek id` and reads a job |
| Client.Connection.PeekReady | src/dk/safl/beanstemc/Beanstemc.java:373-380 | writes `peek-ready` and reads a job |
| Client.Connection.PeekDelayed | src/dk/safl/beanstemc/Beanstemc.java:389-396 | writes `peek-delayed` and reads a job |
| Client.Connection.PeekBuried | src/dk/safl/beanstemc/Beanstemc.java:405-412 | writes `peek-buried` and reads a job |
| Client.Connection.Delete | src/dk/safl/beanstemc/Beanstemc.java:430-440 | writes `delete id`; succeeds on `DELETED`, otherwise fails with `WORD, JOBID=[id]` |
| Client.Connection.Release | src/dk/safl/beanstemc/Beanstemc.java:462-475 | writes `release id pri delay`; succeeds on `RELEASED`, otherwise fails with the word and the three values |
| Client.Connection.Bury | src/dk/safl/beanstemc/Beanstemc.java:523-533 | writes `bury id pri`; succeeds on `BURIED`, otherwise fails with the word, id and priority |
| Client.Connection.Watch | src/dk/safl/beanstemc/Beanstemc.java:554-566 | writes `watch tube`; `WATCHING n` gives n, otherwise fails with the first word |
| Client.Connection.Ignore | src/dk/safl/beanstemc/Beanstemc.java:576-588 | writes `ignore tube`; `WATCHING n` gives n, otherwise fails with `WORD [TUBE=tube]` |
| Client.Connection.Kick | src/dk/safl/beanstemc/Beanstemc.java:604-616 | writes `kick bound`; `KICKED n` gives n, otherwise fails with `WORD [BOUND=bound]` |
| Client.Connection.Touch | src/dk/safl/beanstemc/Beanstemc.java:629-639 | writes `touch id`; succeeds on `TOUCHED`, otherwise fails with `WORD [JOBID=id]` |
| Client.Connection.PauseTube | src/dk/safl/beanstemc/Beanstemc.java:649-659 | writes the fused `pause-tube` request; succeeds on `PAUSED`, otherwise fails with `WORD [TUBE=tube,DELAY=delay]` |
| Client.Connection.Quit | src/dk/safl/beanstemc/Beanstemc.java:668-674 | writes `quit` and reads nothing |
| Client.Connection.Stats | src/dk/safl/beanstemc/Beanstemc.java:691-698 | writes `stats` and returns the map parsed from the YAML body, or the body's failure |
| Client.Connection.StatsJob | src/dk/safl/beanstemc/Beanstemc.java:708-715 | writes `stats-job id` and returns the parsed map |
| Client.Connection.StatsTube | src/dk/safl/beanstemc/Beanstemc.java:725-732 | writes `stats-tube tube` and returns the parsed map |
| Client.Connection.ListTubes | src/dk/safl/beanstemc/Beanstemc.java:741-748 | writes `list-tubes` and returns the parsed list |
| Client.Connection.ListTubeUsed | src/dk/safl/beanstemc/Beanstemc.java:759-766 | writes `list-tube-used` and returns element 0 of the parsed list |
| Client.Connection.ListTubesWatched | src/dk/safl/beanstemc/Beanstemc.java:777-784 | writes `list-tubes-watched` and returns the parsed list |
| Client.Connection.ReadStatsBody | src/dk/safl/beanstemc/Beanstemc.java:696 | reads a YAML body and parses it as a map |
| Client.Connection.ReadListBody | src/dk/safl/beanstemc/Beanstemc.java:746 | reads a YAML body and parses it as a list |
| Client.Connection.PutWithDefaults | src/dk/safl/beanstemc/Beanstemc.java:272-274 | `put` with priority 1024, delay 0 and TTR 120 |
| Client.Connection.PutWithPriority | src/dk/safl/beanstemc/Beanstemc.java:279-281 | `put` with delay 0 and TTR 120 |
| Client.Connection.PutWithDelay | src/dk/safl/beanstemc/Beanstemc.java:286-288 | `put` with TTR 120 |
| Client.Connection.ReserveWaiting | src/dk/safl/beanstemc/Beanstemc.java:417-419 | `reserve()` sends the plain `reserve\r\n` and reads a job |
| Client.Connection.DeleteJob | src/dk/safl/beanstemc/Beanstemc.java:448-450 | deletes by the job's id |
| Client.Connection.ReleaseWithPriority | src/dk/safl/beanstemc/Beanstemc.java:480-482 | `release` with delay 0 |
| Client.Connection.ReleaseWithDefaults | src/dk/safl/beanstemc/Beanstemc.java:487-489 | `release` with priority 1024 and delay 0 |
| Client.Connection.ReleaseJob | src/dk/safl/beanstemc/Beanstemc.java:494-496 | releases by the job's id |
| Client.Connection.ReleaseJobWithPriority | src/dk/safl/beanstemc/Beanstemc.java:501-503 | releases by the job's id with delay 0 |
| Client.Connection.ReleaseJobWithDefaults | src/dk/safl/beanstemc/Beanstemc.java:508-510 | releases by the job's id with priority 1024 and delay 0 |
| Client.Connection.BuryWithDefaults | src/dk/safl/beanstemc/Beanstemc.java:538-540 | `bury` with priority 1024 |
| Client.Connection.Close | src/dk/safl/beanstemc/Beanstemc.java:680-682 | the same as `quit` |

## Left out

- Sockets: opening the connection (`Beanstemc.java:74-84`), `flush` and closing the socket are not modelled. The connection is a pair of byte sequences. The host-only constructor passes `DEFAULT_DELAY` (0) as the port (line 79); that is not modelled either.
- Client.Connection.ReadResponseLine: the end of the stream right after a `\r` is modelled, since the read of -1 that follows ends the line. The end of the stream anywhere else is not. There `read()` returns -1 on every pass, and `(char)-1` is neither `\r` nor `\n`, so the loop appends 0xFFFF to the StringBuilder until the JVM throws `OutOfMemoryError`. This method and every command that reads a status line require that the input has a line end, or ends in a `\r`.
- Character sets: `getBytes()` and `new String(byte[])` use the platform charset. The model writes each character as its low eight bits and reads each byte as the character with that code. For characters above 0x7F this matches no Java charset: ISO-8859-1 writes `?` for characters from 0x100 on, and UTF-8 writes two bytes for 0x80-0xFF. Status lines are built one character per byte, as the Java does.
- Locale: `%d` is taken to print ASCII digits.
- Exceptions: `IOException`, `BeanstemcException` and the runtime exceptions are three failure kinds, not Java classes. Out-of-memory on a large body size is not modelled.
- Client.Connection.ReadData: the Java counter `bytes_read` is a 32-bit int. The model does not show it overflowing, which needs bodies over 2^30 bytes.
- Jobs: `Job` is a value, so `getData()` returning the caller's own array (aliasing) is not modelled.
- `MAX_PRIORITY` (line 59) is never used by the code and is not modelled.
- The command-line tool (`BeanstemCli.java`), the tests and the server's own semantics (queues, timeouts, tube state) are not part of this model.
- Protocol.RequestRoundTrip: this round trip covers tube names that are one word of one-byte characters. The client sends any string it is given, and other names are outside this lemma.
- The `DEFAULT_PRIORITY`, `DEFAULT_DELAY` and `DEFAULT_TTR` fields (lines 55-57) are public, static and not final, and the overloads read them at each call. The model fixes them at their initial values 1024, 0 and 120, so a caller that assigns them is not modelled. The affected members are listed below.
- Client.Connection.PutWithDefaults: uses the initial values of all three fields (line 273).
- Client.Connection.PutWithPriority: uses the initial delay and TTR (line 280).
- Client.Connection.PutWithDelay: uses the initial TTR (line 287).
- Client.Connection.ReleaseWithPriority: uses the initial delay (line 481).
- Client.Connection.ReleaseWithDefaults: uses the initial priority and delay (line 488).
- Client.Connection.ReleaseJobWithPriority: uses the initial delay (line 502).
- Client.Connection.ReleaseJobWithDefaults: uses the initial priority and delay (line 509).
- Client.Connection.BuryWithDefaults: uses the initial priority (line 539).
