# fauxmy, verified

fauxmy poses as a MySQL server: it speaks the MySQL wire protocol to its clients and passes their SQL, rewritten
where MySQL and MSSQL differ, to an MSSQL server over ODBC. This project models the four parts of it that carry the
weight and proves what they keep.

| file | what it models |
|---|---|
| CStrings.dfy | zero-terminated strings, `isspace`/`tolower` of the C locale, memmove |
| Tokenizer.dfy | the tokenizer: the pointer loops, and a theory of tokenization (uniqueness, composition, cutting) |
| Search.dfy | case-insensitive compare and search |
| Clauses.dfy | where a token list has its LIMIT clause, where the program takes it to be, and moving it |
| LimitRewrite.dfy | `SELECT ... LIMIT n` to `SELECT TOP n ...` in place |
| LostText.dfy | why a rewrite that takes a wrong token or loses text does not come out right all the same |
| Query.dfy, QueryFacts.dfy | the branch chain of the query handler and its LIMIT gate, and exactly when both do what they are for |
| Counterexamples.dfy | queries on which the rewrite or the gate go wrong |
| Utf8.dfy | UTF-8 to 16-bit conversion |
| Encoding.dfy | little-endian and length-coded integers, result payloads |
| XferBuffer.dfy | the growing output buffer, the serializers, the readers |
| Framing.dfy, Connection.dfy | cutting payloads into packets, sending, receiving |
| Auth.dfy | the walk over the login packet |
| Session.dfy, Traces.dfy, SessionFacts.dfy | the worker from handshake to quit, its run told as a trace, and what every session has in common |
| SlotTable.dfy | the table of running connections |
| CharacterCodes.dfy | the tokenizer, the search and the branches of the query handler in character codes and plain texts |
| WireBytes.dfy | packets, integers, payloads, text and the login in byte values |
| Answers.dfy | what comes back for a login and for each command and query, down to a whole short session |
| Sentences.dfy, KnownQueries.dfy | text put together from words, and queries of the program's own tests |

## How to read the model

- Code that loops over pointers or changes fields is written as methods over arrays and classes. Each is proved
  against a function of the text or bytes it works on, and the theorems are about those functions.
- Text is a sequence of 16-bit units (`fxmy_char` of the Windows build). A buffer "holds" a string when the string
  stands at its front with a zero behind it. A null pointer is `None`.
- The character classes, keywords, command numbers and layouts have names in the model. CharacterCodes.dfy, WireBytes.dfy
  and Answers.dfy restate what they come to without these names, in numbers and plain texts.
- The code is modelled as written, with its assertions switched on. Where that differs from the evident intent, the
  exact condition under which both agree is proved.
- A call that C leaves undefined (a null pointer in a memmove, a read or write outside an allocation, a loop that
  never gets past a zero byte) ends in `Fault`, `Faults`, `Faulted` or `Stops`; the model does nothing after it. A
  failed `VERIFY`, an `abort` and a `__debugbreak` end the program in the same way.
- The socket is the bytes still to come and the bytes sent. The ODBC driver is an arbitrary function from the request
  number and the text it is given to a status. The done flags a sweep observes are an arbitrary set.

## What was found

- Any beginning of LIMIT or SELECT, in either case, counts as the keyword. `LimitedIsExact` says for every query and
  every buffer it stands in when the text executed has the tokens so found moved and nothing else changed. As long as
  the write ends inside the string, this is so exactly when a blank follows SELECT, the number is not an unclosed quote,
  and the text left in the wrong place or written over is blank. A write that runs over the terminator is right only if
  the text behind the terminator happens to have the tokens that were to be kept; with zeros there, only for a query
  that has nothing between SELECT and LIMIT and nothing behind the number (`RoomInZeros`). So `S abcd L 5` loses its
  column list (`AbbreviatedLimitLosesText`): its clause is shorter than what replaces it.
- The move is the one that is meant, with the first full LIMIT and the first full SELECT before it, exactly when the
  program finds these two and no beginning of them before (`MovesTheClause`, with one odd case in `ClauseFound`).
  `into s SELECT a LIMIT 5` is executed as `into s TOP 5 SELECT a` (`TableTakenForSelect`).
- If the number is not an unclosed quote, and the write stays in the string or runs into zeros, two errors do not make
  up for each other: what is executed is what is meant exactly when there is room and the keywords are the right ones
  (`LimitedDoesWhatIsMeant`; behind the gate `JudgeDoesWhatIsMeant`). In particular every such query in which a shorter
  token than LIMIT, such as a column or an alias called `l`, is taken for it comes out wrong. With an unclosed quote for
  a number they can: `S TOP ' SELECT  TOP ' SELECT LIMIT ' SELECT ` comes out right with neither room nor the right
  keywords (`ErrorsMakeUp`).
- The rewrite is undefined in C exactly without a SELECT before LIMIT or a token behind it, or when the write finds no
  zero left behind it (`LimitedFaults`, `FaultsInZeros`).
- The gate looks for `LIMIT` and a space anywhere in the text. A textbook query has its LIMIT moved exactly when the
  gate sees that (`GateDecides`), so `LIMIT<tab>5` slips through unrewritten (`TabSeparatorSlipsThrough`). A query is
  refused exactly when the gate sees it and no token is LIMIT or a beginning of it (`RefusedIff`), such as a query with
  a word ending in LIMIT (`LimitInsideAWordIsRefused`).
- Comments are not skipped: the scan over `--` is thrown away. The tokens are what they would be without comments
  exactly when none of them begins with two dashes (`CommentsAreKept`).
- The length-coded reader lacks its breaks. It agrees with the writer exactly up to 250; the login walk survives
  exactly for scrambles of up to 250 bytes or, by coincidence, 253 (`AuthRoundTrip`).
- Conversion undoes UTF-8 exactly for nonzero code points of at most 16 bits (`ConvertInvertsEncode`).
- A login that asks for a database is taken exactly when the text its packet begins with stops inside a three-byte
  sequence, so that the conversion steps over the terminator (`DatabaseLoginTaken`); never for valid UTF-8
  (`ValidNameIsRefused`).
- A query arrives whole only if its command fits one packet, that is, if its UTF-8 text is shorter than 2^24 - 1 bytes
  (`ArrivesWhole`). The parts of a longer one arrive as commands of their own (`ArrivesInChunks`, `LongQueryIsCut`).
- No session ever sends an error packet: failures go out in the OK layout (`NoErrorPackets`).
- The sweep of the slot table reads through a null pointer exactly when a free slot stands among the counted ones and
  the retirements before it do not pull the bound down to it (`SweepFaultsIff`). A dense table is left dense exactly
  when at most one connection in all but the last occupied slot is finished (`DenseCall`), and a series of calls keeps
  to that exactly when a call that finds nothing finished would be safe at every point of it (`GentleIffIdleSafe`).

## Where code and comments differ

The model follows the code.

- fxmy_conn.c:96-101 says that the number of a received packet is validated; any number is accepted.
- fxmy_query.c:389-392 says that an error means the bounds of the LIMIT clause were not found; it only means that no
  token abbreviates LIMIT. A missing number or a missing SELECT is not noticed (`Wild`).
- fxmy_string.c:55-59 looks like comments were skipped; they are not.

## Model

| member | source | states |
|---|---|---|
| Tokenizer.TokenizationIsTheOnlyCut | fxmy_string.c:44-102 | the spans of repeated tokenization are the one and only way to cut the text into maximal tokens with pure whitespace around them: nothing is lost, reordered or split elsewhere |
| CharacterCodes.TokensByCode | fxmy_string.c:44-102 | the same cut in character codes: a token that begins with 34 or 39 ends behind the first such code without 92 before it, any other in front of the first of 9-13, 32, 44 and 59 behind its first character, and only 9-13 and 32 stand between tokens |
| Sentences.TokensOfSentence | fxmy_string.c:44-87 | words put together with blanks, or a comma or semicolon, between them are taken apart into these words |
| KnownQueries.LimitTestTokens | fauxmy_test/fxmy_test_query.c:110-112 | the tokens the tests expect of a query with a comma, a quoted value and a semicolon |
| KnownQueries.QuoteTestTokens | fauxmy_test/fxmy_test_query.c:92-115 | the quote behind a backslash in the test's value does not close it |
| Tokenizer.QuoteEndIs | fxmy_string.c:89-102 | a quoted token ends just behind the first matching quote with no backslash right before it, or at the end of the string, and nowhere else |
| Tokenizer.TokensCompose | fxmy_string.c:44-87 | tokenizing two glued texts gives their tokens one after the other if and only if the join is a token boundary; otherwise the first text's tokens do not even begin the result |
| Tokenizer.EveryTokenAlone | fxmy_string.c:44-87 | each token, taken out of its string, tokenizes to itself |
| Tokenizer.PrefixUnseen | fxmy_string.c:52-66 | text put in front leaves the tokens alone if and only if it is blank |
| Tokenizer.LexKeepsInk | fxmy_string.c:44-87 | the tokens, read one after the other, have exactly the visible characters of the text in their order |
| Tokenizer.CommentsAreKept | fxmy_string.c:55-61 | the discarded comment scan: the tokens agree with those of a tokenizer that skips comments if and only if no token begins with two dashes |
| Tokenizer.ConsumeWhitespace | fxmy_string.c:242-251 | the loop stops at the first character that is not whitespace, inside the buffer |
| Tokenizer.FindEndOfString | fxmy_string.c:89-102 | the scan with its remembered previous character computes the end of the quoted token |
| Tokenizer.NextToken | fxmy_string.c:44-87 | start and end of the next token, two null pointers at the end or for a null argument, no read behind the terminator |
| Search.Strnicmp | fxmy_string.c:206-221 | zero exactly for a zero length or a case-insensitive prefix of the keyword; otherwise the difference at the first mismatch, without leaving either string |
| Search.Stristr | fxmy_string.c:8-42 | the least matching position, null exactly when there is none or an argument is null |
| Search.MatchPrefix | fxmy_string.c:19-38 | the inner comparison succeeds exactly when the needle stands at the position, up to case |
| CharacterCodes.OccursByCode | fxmy_string.c:8-42 | a text occurs when each character is the same or one of 65-90 and the other 32 more |
| LimitRewrite.FindLimit | fxmy_query.c:241-294 | the loop finishes with the first token that abbreviates LIMIT and the token after the first SELECT before it, or finds none |
| LimitRewrite.NoLimitMeansNoToken | fxmy_query.c:249-294 | the rewrite gives up (returns 1) exactly when no token is a nonempty case-insensitive prefix of LIMIT |
| LimitRewrite.MovesAreTheRewrite | fxmy_query.c:319-335 | the three overlapping moves leave SELECT, "TOP  ", the number, a space and the kept text, for every length of the clause |
| LimitRewrite.MoveBlocks | fxmy_query.c:319-335 | the moves on the array equal three overlays of the old contents |
| LimitRewrite.RearrangeLimit | fxmy_query.c:226-343 | the call's effect on the whole buffer, its result, and exactly when it is undefined in C |
| LimitRewrite.RewriteIsExact | fxmy_query.c:319-335 | the text is the intended one if and only if LIMIT and the gap behind it take six characters |
| Clauses.MovesTheClause | fxmy_query.c:249-294 | on every token list the move the program makes is the meant one, with the first whole LIMIT and the first whole SELECT before it, if and only if the tokens it takes for them are these (or in one odd case with TOP between two SELECTs) |
| QueryFacts.LimitedIsExact | fxmy_query.c:226-343 | for every query with tokens taken for LIMIT and SELECT and every buffer: the text left to be executed has these moved and the other tokens as they were if and only if there is room for the move |
| LostText.RightDisplacesBlank | fxmy_query.c:226-343 | for any token list and any text lost or left behind: if the outcome has the tokens of the query with its clause moved, then only blanks are lost or left behind |
| LostText.MeantIsHarmless | fxmy_query.c:226-343 | a rewrite inside the string, with a number that ends, has the meant tokens only if it is harmless |
| QueryFacts.LimitedDoesWhatIsMeant | fxmy_query.c:226-343 | the text left to be executed is the query with its LIMIT clause moved if and only if there is room and the keywords are the right ones: for every query whose number is not an unclosed quote, written inside the string or into zeros behind it, and for the others if one of the two is given |
| QueryFacts.LimitedFaults | fxmy_query.c:296-335 | the call, or the reading of what it leaves, is undefined if and only if SELECT or the number is missing or the write leaves no zero behind it |
| QueryFacts.FaultsInZeros | fxmy_query.c:296-335 | with zeros behind the string, if and only if SELECT or the number is missing or the write reaches the end of the buffer |
| QueryFacts.RoomInZeros | fxmy_query.c:319-335 | with zeros behind the string, a write over the terminator moves LIMIT n if and only if there is nothing to keep and one zero is left |
| LimitRewrite.TextbookQueryIsMoved | fxmy_query.c:221-225 | SELECT and LIMIT in full, one character, a number that ends, a blank behind SELECT: the rewrite fits and moves exactly the LIMIT clause |
| LimitRewrite.TextbookCall | fxmy_query.c:226-343 | the same for the buffer: success, same length and terminator, tokens moved, no cell outside the stretch from the token after SELECT to the end of the number changed |
| Sentences.LimitMovedInSentence | fxmy_query.c:221-343 | SELECT, words, LIMIT and a blank, a number, and more words become SELECT, TOP and two spaces, the number and a space, the words, and the rest, to the character |
| KnownQueries.LimitTestPasses | fauxmy_test/fxmy_test_query.c:151-159 | the query of the rewrite's test becomes what the test expects |
| LimitRewrite.TerminatorKept | fxmy_query.c:330-335 | the string keeps its terminator exactly when "TOP  n " ends inside it |
| LimitRewrite.RewrittenInBuffer | fxmy_query.c:319-335 | a rewrite that fits in the string does not touch what stands behind it |
| Query.JudgeQuery | fxmy_query.c:356-401 | the branch chain: which queries are acknowledged, described, refused or executed, and with which text |
| CharacterCodes.BranchesByText | fxmy_query.c:365-387 | in plain texts: which queries are acknowledged, abort, are described, list the tables, or are executed as they are |
| Query.GateSeesTextbook | fxmy_query.c:387 | a textbook query with a space behind LIMIT passes the gate |
| QueryFacts.GateDecides | fxmy_query.c:365-401 | a textbook query is never refused, is executed if and only if no earlier branch claims it, in its own length, and then with its LIMIT clause moved if and only if "LIMIT " occurs in it |
| QueryFacts.RefusedIff | fxmy_query.c:387-397 | a query is refused if and only if no earlier branch claims it, "LIMIT " occurs in it and no token abbreviates LIMIT |
| QueryFacts.JudgeIsExact | fxmy_query.c:356-401 | a query is executed with the tokens taken for LIMIT and SELECT moved if and only if no earlier branch claims it, "LIMIT " occurs in it and there is room for the move |
| QueryFacts.JudgeDoesWhatIsMeant | fxmy_query.c:356-401 | for the same queries: one that no earlier branch claims is executed as meant, its clause moved if it has one: if "LIMIT " occurs in it, exactly with room and the right keywords; if not, exactly without a clause |
| Counterexamples.AbbreviatedLimitLosesText | fxmy_query.c:261-285 | a query with abbreviated keywords on which the rewrite loses tokens |
| Counterexamples.TabSeparatorSlipsThrough | fxmy_query.c:387-401 | a textbook query with a tab that is executed with its LIMIT in place |
| Counterexamples.LimitInsideAWordIsRefused | fxmy_query.c:387-397 | a query without any LIMIT token that the gate refuses |
| Counterexamples.TableTakenForSelect | fxmy_query.c:261-294 | a query with a table called s before SELECT that is executed with TOP behind the table |
| Counterexamples.ErrorsMakeUp | fxmy_query.c:261-335 | a query with an unclosed quote for a number and the wrong SELECT that is executed as meant all the same |
| Utf8.Convert | fxmy_string.c:106-153 | the conversion never yields more units than there are bytes |
| Utf8.ConvertInvertsEncode | fxmy_string.c:106-153 | the conversion comes to an end on RFC 3629 text exactly when all code points are nonzero and below 2^16, and then gives them back |
| Utf8.DecodeSupplementary | fxmy_string.c:121-137 | a four-byte sequence is cut after three bytes and its last byte aborts the program |
| Utf8.ConvertOverZero | fxmy_string.c:106-153 | a conversion up to and with the first zero ends if and only if the last sequence before the zero is a three-byte one that takes the zero in |
| Utf8.StrFromChar | fxmy_string.c:141-153 | the loop stores the conversion at the front of the destination, zeros up to the given size and leaves the rest |
| Utf8.StrLenFromChar | fxmy_string.c:155-165 | the length is the number of units the conversion stores |
| WireBytes.EncodingsByValue | fxmy_string.c:106-139 | the bytes of four characters of one to four bytes |
| WireBytes.DecodeByValue | fxmy_string.c:106-139 | which first bytes stop the decoder, which fail an assertion, and how far the others go |
| WireBytes.LcbByValue | fxmy_write.c:22-67 | the bytes of a length-coded integer for each range of values |
| WireBytes.FallThroughByValue | fxmy_read.c:33-72 | the reader without breaks goes on by 17, 8, 4 or 1 and gives the first byte |
| WireBytes.OkBytes | fxmy_main.c:224-235 | the bytes of an OK response |
| WireBytes.ErrBytes | fxmy_main.c:236-246 | the bytes of an error response |
| Answers.ResultBytes | fxmy_main.c:224-246 | which of the two is sent for the result codes 0 and -1 |
| Encoding.LcbRoundTrip | fxmy_write.c:22-67 | every 64-bit value is read back by the protocol's reader, which stops where the writer did |
| Encoding.LcbIsSelfDelimiting | fxmy_write.c:22-67 | two byte strings that begin with length-coded integers are equal only if values and rests are |
| Encoding.FallThroughAgreesIff | fxmy_read.c:33-72 | the reader without breaks agrees with the writer on value and cursor if and only if the value is at most 250 |
| Encoding.OkRoundTrip | fxmy_main.c:229-234 | header, counters and message can all be told from the bytes of an OK payload |
| XferBuffers.XferBuffer.EnsureRoom | fxmy_write.c:8-20 | the room asked for is there, nothing written is lost, and the new size is the old one or that and the request in whole pages, at most cursor + 2 * largest request + 4095 |
| XferBuffers.XferBuffer.SerializeLcb | fxmy_write.c:22-67 | the length-coded bytes are appended to what was written before |
| XferBuffers.XferBuffer.LcbBytes | fxmy_write.c:30-66 | the shifted-out bytes are the protocol's encoding of the value |
| XferBuffers.XferBuffer.SerializeU16 | fxmy_write.c:69-81 | two little-endian bytes are appended |
| XferBuffers.XferBuffer.SerializeString | fxmy_write.c:110-123 | a C string is appended without terminator, nothing for a null pointer |
| XferBuffers.XferBuffer.SerializeTerminatedString | fxmy_write.c:96-108 | a C string is appended with its terminator, nothing for a null pointer |
| XferBuffers.XferBuffer.ReadU32 | fxmy_read.c:19-31 | four bytes, lowest first, with the check against the packet size |
| XferBuffers.XferBuffer.ReadLcb | fxmy_read.c:33-72 | value and cursor of the switch without breaks |
| XferBuffers.XferBuffer.SkipString | fxmy_read.c:103-109 | the cursor moves behind the first zero byte |
| XferBuffers.XferBuffer.SkipLcs | fxmy_read.c:111-116 | the cursor moves by the value the switch came up with |
| Auth.ParseAuth | fxmy_main.c:173-197 | the numbers and the final cursor of the login walk |
| Auth.AuthRoundTrip | fxmy_main.c:173-197 | on packets as clients build them the walk recovers the numbers and ends behind the scramble if and only if the scramble has at most 250 bytes or 253 |
| WireBytes.LoginIsRead | fxmy_main.c:173-197 | the walk over the bytes of a login packet finds the three numbers and ends behind the scramble |
| WireBytes.FrameBytes | fxmy_conn.c:48-60 | the bytes of a payload in one packet |
| WireBytes.LongFrameBytes | fxmy_conn.c:48-60 | a longer payload begins with a packet of 2^24 - 1 bytes |
| Framing.FrameLength | fxmy_conn.c:35-45 | the bytes on the wire are the payload and four per packet, with ceil(size / (2^24 - 1)) packets |
| Framing.ChunksMakeUpPayload | fxmy_conn.c:48-60 | the chunks concatenate to the payload, none is empty or too long, all but the last are full |
| Framing.HeaderRoundTrip | fxmy_conn.c:50-55 | the receiving arithmetic gives back the chunk length and the packet number from a header |
| Framing.FramingRoundTrip | fxmy_conn.c:21-135 | receiving until the wire is empty gives the chunks in order, all under the number they were sent with |
| Framing.OneReceive | fxmy_conn.c:114-135 | one receive takes a whole payload exactly when it fits one packet |
| Connections.Connection.CountPackets | fxmy_conn.c:35-39 | the sizing loop counts ceil(size / (2^24 - 1)) packets |
| Connections.Connection.FillPackets | fxmy_conn.c:48-60 | the copying loop fills the buffer with exactly the framed payload |
| Connections.Connection.BeginSend | fxmy_conn.c:21-61 | the packet number is used and counted up, more than 256 packets are refused, a buffer in use is left alone |
| Connections.Connection.Send | fxmy_conn.c:63-78 | the framed payload goes out and the buffer is empty again |
| Connections.Connection.Recv | fxmy_conn.c:80-135 | the next packet's payload with a zero behind it, the number to answer with, and the rest of the input |
| Session.SendResult | fxmy_main.c:217-257 | succeeds exactly for the OK and the error code with a payload of at most 256 packets, and then, and only then, the framed payload has been sent and the buffer is empty again |
| Session.HandleQuery | fxmy_query.c:345-413 | the status a query leaves, from its bytes to the driver's answer |
| Session.HandleCommand | fxmy_main.c:259-333 | reaction, status, database, option word and input after a command packet |
| Session.RecvAuth | fxmy_main.c:210-215 | the login is accepted exactly when the walk ends and a database name in it converts |
| Answers.OrdinaryLogin | fxmy_main.c:173-207 | a login without the flag 8 is taken |
| Answers.OrdinaryLoginAnswered | fxmy_main.c:356-365 | it is answered with OK under the next number, in bytes, and the commands behind it are served |
| Answers.CommandServed | fxmy_main.c:367-383 | a command in one packet gets the reaction its bytes call for, unless the response is longer than 256 full packets |
| Answers.DatabaseCommand | fxmy_main.c:281-286 | for command 2 the name behind it is put to the driver and the driver's status is the reply |
| Answers.DatabaseKept | fxmy_main.c:281-286 | the name is kept with zeros behind it |
| Answers.DatabaseAnswered | fxmy_main.c:281-286 | the packet that comes back has the driver's header and text, and the next command is served after it |
| Answers.OptionCommand | fxmy_main.c:317-322 | command 27 sets the option word, low byte first, and replies OK |
| Answers.ShortOptionCommand | fxmy_main.c:317-322 | with one byte behind command 27 the terminator is the high byte; without any the model stops, as the word would be read past the buffer |
| Answers.OptionAnswered | fxmy_main.c:317-322 | the packet that comes back for it |
| Answers.QuitEnds | fxmy_main.c:278-279 | command 1 ends the session, sends nothing and leaves the rest unread |
| Answers.OtherCommands | fxmy_main.c:272-333 | every other command stops the program, and changes neither database nor option word |
| Answers.VerdictAnswered | fxmy_query.c:365-410 | what each verdict on a query comes to: OK, a stop, the default error, or the driver's status |
| Answers.QueryAnswered | fxmy_query.c:345-413 | the same from the wire: a failed DESCRIBE is reported and a failed SHOW TABLES is not, a statement that fails is reported and one that succeeds stops the program |
| Answers.FailureAnswered | fxmy_query.c:403-410 | the packet that comes back for a statement that fails |
| Answers.SetNamesAnswered | fxmy_query.c:365-369 | SET NAMES utf8, in bytes, is answered with OK |
| Answers.ShortSession | fxmy_main.c:344-391 | a login, SET NAMES utf8 and a quit, in bytes: the client has got the handshake and two OKs, and the session has ended |
| Session.Worker | fxmy_main.c:344-391 | for every input and every driver: quits exactly when the run of the session does, leaves in that case the input the run leaves, has in every case sent exactly the bytes of the run, and never skips a send or overwrites a live buffer |
| Session.Serve | fxmy_main.c:367-383 | a round's reaction is the one the next packet calls for, or a stop when there is none or its response does not fit; the response goes out in full, and the round ends with an empty transfer buffer, zero counters and the OK status, so nothing is carried over |
| Session.CommandLoop | fxmy_main.c:367-383 | the loop quits exactly when the run on its input does, and has sent exactly the run's bytes |
| Traces.RunIsFaithful | fxmy_main.c:344-391 | every run is handshake, login, OK, then command and response in turn, with the reactions the packets and the driver call for, and accounts for all bytes received and sent; it quits exactly when its last event is a quit command |
| Traces.RunIsTheSession | fxmy_main.c:344-391 | a trace is in order on the input, true to packets and driver, ended by a quit and without a payload too long to send if and only if the run quits and has these events |
| SessionFacts.SocketToSocket | fxmy_main.c:344-391 | the packets a client reads off the socket are those of the handshake, the login's OK, and one response per command, computed from the packets that arrived, each under the arrived packet's number plus one modulo 256 |
| SessionFacts.ResponseToEach | fxmy_main.c:259-333 | when responses are one packet long, packet k back is the OK layout for the reaction to command k, and one comes back for every command up to the first without a response |
| SessionFacts.DatabaseLoginTaken | fxmy_main.c:199-205 | a login with the database flag is taken if and only if the text its packet begins with stops inside a three-byte sequence that takes the terminator in |
| SessionFacts.ValidNameIsRefused | fxmy_main.c:199-205 | so it is not taken when its packet begins with UTF-8 text |
| SessionFacts.ResponsesReadAsOk | fxmy_main.c:224-235 | a client reads every response as an OK packet with no rows, no id and the status message |
| SessionFacts.NoErrorPackets | fxmy_main.c:224-246 | the error layout is never sent, whatever status a command ends with |
| SessionFacts.ClientSeesTheTrace | fxmy_conn.c:63-78 | reading all bytes sent gives back the packets of the trace in order |
| Traces.SessionIsDetermined | fxmy_main.c:344-391 | input and driver leave room for one finished trace only |
| SessionFacts.ArrivesWhole | fxmy_conn.c:63-135 | the next packet off the wire is the whole payload sent if and only if that has at most 2^24 - 1 bytes; otherwise it is its first part and the rest is still to come |
| SessionFacts.QueryServed | fxmy_query.c:345-413 | a query framed as UTF-8 in one packet is served with the branch chain's verdict on the very text |
| SessionFacts.ArrivesInChunks | fxmy_conn.c:63-135 | the packets of a payload of any length arrive one after the other in front of whatever follows |
| SessionFacts.LongQueryIsCut | fxmy_main.c:259-333 | a longer one is served as its first part, and the next round begins with the rest of it |
| SessionFacts.TextbookOverTheWire | fxmy_query.c:345-413 | a textbook query on the wire, short enough for one packet, reaches the driver in the same length, with its LIMIT clause moved exactly if "LIMIT " occurs in it; the driver's failure is replied and its success stops the program |
| SessionFacts.QueryOverTheWire | fxmy_query.c:345-413 | a query on the wire, short enough for one packet, is judged in a zeroed buffer of its byte length: it reaches the driver with the tokens taken for LIMIT and SELECT moved exactly if no other branch claims it, the gate sees it and there is room; and if its number is not an unclosed quote, as meant exactly if the keywords are also the right ones |
| SlotTables.Pigeonhole | windows/main_win.c:111-124 | fewer connections than slots if and only if some slot is free |
| SlotTables.CallConserves | windows/main_win.c:79-122 | the new connection gets a free slot and is counted, and no connection that is not finished is dropped or moved |
| SlotTables.SweepFaultsIff | windows/main_win.c:79-90 | the sweep reads an empty slot if and only if one stands among the counted ones with fewer retirements before it than would pull the bound down to it |
| SlotTables.SweepRetiresAtMostOne | windows/main_win.c:79-90 | on occupied slots the sweep retires at most one connection if and only if at most one in all but the last of them is finished |
| SlotTables.DenseCall | windows/main_win.c:79-122 | on a dense table the sweep never reads an empty slot, and the table stays dense if and only if at most one connection in all but the last occupied slot is finished |
| SlotTables.IdleSweep | windows/main_win.c:79-90 | a sweep with nothing to retire reads an empty slot exactly when one stands among the counted ones |
| SlotTables.TwoRetiredThenFault | windows/main_win.c:79-90 | after a call that gets to two finished connections a call that finds nothing finished faults |
| SlotTables.GentleRunsAreSafe | windows/main_win.c:61-125 | from a dense table, the empty one included, a series of calls stays dense throughout if and only if no call finds two connections finished that its sweep can get to, and then none faults |
| SlotTables.GentleIffIdleSafe | windows/main_win.c:61-125 | a series of calls is of that kind if and only if at no point of it would a call that finds nothing finished fault |
| SlotTables.TakesNextSlot | windows/main_win.c:95-122 | a dense table with a free slot keeps its size, and the new connection gets the slot behind the others |
| SlotTables.GrowsByTen | windows/main_win.c:95-122 | a full table grows by ten slots and the new connection gets the first of them |
| SlotTables.SlotTable.AddNewConnection | windows/main_win.c:61-125 | sweep, growth and fill on the array; the final check is never reached |

## Left out

- QueryFacts.LimitedDoesWhatIsMeant: does not cover a query with neither room nor the right keywords whose number is an unclosed quote (it can come out right, `ErrorsMakeUp`), or whose write runs over the terminator into something other than zeros; nor do QueryFacts.JudgeDoesWhatIsMeant and SessionFacts.QueryOverTheWire.
- ODBC calls, diagnostics and handle lifetimes: the driver's answers are arbitrary.
- Sockets and threads: sending and receiving are complete transfers or the end of the program, and waiting for a thread is not modelled.
- The statements built by `fxmy_describe` and `fxmy_show_tables` (with their fixed buffer and missing-argument behaviour), and the row-returning branch of `fxmy_send_result`: they are unfinished in the source and stop at `__debugbreak`. What the driver answers to them is arbitrary.
- `fxmy_read_string` and `fxmy_read_lcs`: nothing calls them.
- `towlower` and `iswspace` outside the C locale: only the ASCII letters and blanks are told apart.
- Lengths of 2^31 and more: `shift_width` and `number_string_length` are taken as unbounded integers.
- Memory freed: allocations are modelled by what they hold, not by when they are released.
- The handshake bytes and the error table: the handshake is an arbitrary payload, and of the table only the OK row and the default error row are used.
- main.c: it uses connection fields that no longer exist.
- Tokenizer.FindEndOfString: does not cover a zero quote character, because the tokenizer only passes the two quotes.
- Search.Strnicmp: does not cover a counted part with a zero in it, because every caller passes a token or a zero length.
