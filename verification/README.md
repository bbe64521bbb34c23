# RealTouch firmware: models and proofs

This project models the protocol and data-handling code of the RealTouch board support package in Dafny and
proves what that code promises. Each part gives the code twice: as a class whose methods change fields and
arrays in place the way the C code does, and as functions on values that those methods are proved to compute.
What holds of all inputs, all runs or all interleavings is then proved about the functions. Where several agents
share data (threads, interrupts, DMA), a run is a sequence of states in which any agent takes the next step.

The parts:

* **The streaming JSON parser** (`Json*.dfy`). `JsonMachine` is the table-driven automaton with its mode stack and
  parse buffer, one byte at a time. `JsonGrammar` gives documents as trees with their printed text and event trace,
  `JsonPrefix` unfinished documents as zippers with a recursive reader. `JsonAgreement` and `JsonTheorems` show that
  the flat machine and the reader agree on every byte; `JsonPrinter` that the reader undoes the printer;
  `JsonInvariant` that no assertion can fail. `JsonUnicode` treats escapes, `JsonComments`, `JsonCommentLanguage` and
  `JsonCommentTheorems` the exact language with comments on, `JsonRfc` the exact distance to RFC 4627, `JsonDepth`
  parsers without a nesting limit, `JsonErrors` the error codes. `JsonParser` is the object itself.
* **The net buffer** (`Ring`, `NetProtocol`, `NetInvariant`, `NetTheorems`, `NetReads`, `NetBuffer`): reader, worker and
  application around one ring with watermarks, two semaphores and a four-valued status. An atomic step is: the
  occupancy test with its flag or status change, each copy with its index and length update, each semaphore
  operation, each message.
* **The PCM path** (`CodecQueue`, `CodecRuns`, `AudioPath`, `Mp3Decoder`): the five-node queue between the writer and
  the DMA interrupt, the two-block pool that feeds it, and the decoder loop that owns a block in between.
* **The Ethernet descriptor chains** (`EthChain`, `EthTx`, `EthRx`, `EthDriver`), for any number of descriptors. A DMA
  completion and its interrupt are separate steps; that the interrupt preempts the driver is the predicate
  `EthTx.Prompt`.
* **The serial driver** (`UartTx`, `UartRx`): the linked list of DMA nodes in the pool's memory, and the receive ring.
* **SHOUTcast metadata** (`Shoutcast`, with `Pieces` for moving bytes), **USB control transfers** (`UsbControl`) and the
  **Wi-Fi settings file** (`WifiConfig`).

Findings that the proofs make precise:

* The JSON table refuses a zero with an exponent and lets a bare point end a number; both exact conditions are in
  `JsonRfc`. With comments on, a slash completes a keyword that lacks its last letter: `[tru/**/]` is accepted
  (`JsonCommentTheorems.CutKeywordWitness`), and `AcceptsWithComments` says exactly what else is.
* A stop issued before the worker has picked its job up disables the net buffer for good
  (`NetTheorems.StopBeforePickup`, `LostForGood`); otherwise a waiting reader is always woken (`WokenInTime`). A stop
  during a fetch is overwritten if the ring is full (`StopIsKept`, `LostStopIsReached`).
* A read can return bytes of the job before, if a job is started between the end of its predecessor and the reset of
  the ring (`NetReads.StaleReadIsReached`, `PrefixExactlyWithoutEarlyReads`); a start is safe exactly when
  `net_buf_get_usage` is 0 (`StartIsSafeExactlyWhenEmpty`). A read can come back empty though its job goes on, exactly
  when the wake or the reset of the job before or a late notification overtakes it (`EmptyReadsInRuns`).
* A SHOUTcast read returns the right bytes under an exact condition on block and read lengths
  (`Shoutcast.RightExactlyWhenFits`); a read shorter than a pending block makes the length of a move negative
  (`NegativeMoveIsReached`), a longer one than fits returns a length byte (`LengthByteInAudio`). The pending length is
  one static variable: a session delivers the audio exactly when it is 0 as it is opened (`OpenedDeliversExactly`).
* A USB transfer ends by the standard except for device-to-host requests without data, where the status stage goes
  out instead of in (`UsbControl.EmptyInIsReached`). A stalled data-out stage never ends (`StalledIsReached`), other
  stages hang on the answers of `HangsExactly` or go round on NAK (`ComesBackExactly`), and a failed transfer
  starts over when its 8-bit count wraps.
* The Ethernet driver can sleep for ever when all frames are sent and served between its OWN test and its flag
  (`EthTx.SleepLosesExactly`, `LostWakeIsReached`). With late interrupts it fills a descriptor of the DMA's
  (`LateInterruptIsReached`), unless before every wake a frame was sent since its call (`FilledIsFreeExactly`).
* Loading settings overruns an array exactly when a line or a value is too long (`WifiConfig.OverrunExactlyUnlessFits`,
  `OverrunIsReached`), and does not restore names with a CR or LF (`BrokenNameIsLost`).
* The array of the JSON parser's mode stack is one element short for every depth from 128 on and without a limit
  (`JsonDepth.ModesFitExactly`).
* The DMA branch of the serial write returns 0, not the number of bytes.

Sequences of `int` stand for bytes. Inputs to the JSON parser are C ints: a negative one is refused, any other is
stored modulo 256, as the conversion to char does.

## Model

| member | source | states |
|---|---|---|
| JsonTheorems.ParserUndoesPrinter | software/realtouch/applications/JSON_parser.c:774-1106 | Every printed document (array or object at the root, blanks anywhere between tokens, numbers of the table's grammar) nested no deeper than the limit is accepted, comments on or off, and the callback events are exactly the tree's pre-order trace |
| JsonTheorems.AcceptedIsPrinted | software/realtouch/applications/JSON_parser.c:774-1106 | Comments off: an accepted text is blank and reports nothing, or is the text of one complete document within the depth and reports that document's trace |
| JsonTheorems.AcceptsExactly | software/realtouch/applications/JSON_parser.c:774-1106 | Comments off: accepted texts are exactly the blank ones and the texts of documents within the depth |
| JsonTheorems.EveryRunIsAPrefix | software/realtouch/applications/JSON_parser.c:774-1094 | After any calls that all returned true, the input is the text of an unfinished document, and that prefix determines state, modes, type, escape flag, buffer and events |
| JsonTheorems.RunAgrees | software/realtouch/applications/JSON_parser.c:774-1094 | From the state of any prefix the flat machine and the recursive reader go on alike over any input |
| JsonAgreement.StepAgrees | software/realtouch/applications/JSON_parser.c:774-1094 | The same for one character, for each of the 36 states |
| JsonTheorems.UniqueReading | software/realtouch/applications/JSON_parser.c:270-315 | The grammar is unambiguous: a text has at most one tree, blanks included |
| JsonTheorems.DepthIsExact | software/realtouch/applications/JSON_parser.c:371-404 | A document is refused for its nesting exactly when more than depth containers are open at once |
| JsonTheorems.OpeningIsRefusedAtDepth | software/realtouch/applications/JSON_parser.c:991-1013 | An opening bracket is refused, with the nesting error, exactly when depth containers are open already |
| JsonTheorems.BlankRun | software/realtouch/applications/JSON_parser.c:1096-1106 | A blank text leaves the initial state, reports nothing and is accepted |
| JsonDepth.ModesFitExactly | software/realtouch/applications/JSON_parser.c:488-511 | All modes of all runs find room in the stack's array if and only if the depth asked for is at most 127; with 128 and more, and without a limit, some text puts one more mode on it than it holds |
| JsonDepth.BracketsOverrun | software/realtouch/applications/JSON_parser.c:371-404 | That text: as many opening brackets as the array has elements |
| JsonDepth.UnlimitedAcceptsExactly | software/realtouch/applications/JSON_parser.c:371-404 | Without a limit and with comments off, the accepted texts are the blank ones and the texts of all documents, however deep |
| JsonDepth.UnlimitedUndoesPrinter | software/realtouch/applications/JSON_parser.c:371-404 | Without a limit every printed document is accepted, and the events are its trace |
| JsonDepth.RunUnlimited | software/realtouch/applications/JSON_parser.c:371-404 | A run that cannot reach its limit goes as without one |
| JsonErrors.StrayIsNamed | software/realtouch/applications/JSON_parser.c:326-367 | A character the table has no edge for is refused with the error of the place in the document where it stands: key, colon, keyword, number, unicode sequence, collection or any other |
| JsonErrors.BadEscapeIsNamed | software/realtouch/applications/JSON_parser.c:750-760 | Behind a backslash a printable character is refused as an invalid escape if and only if it is none of the nine escapes |
| JsonErrors.WrongBracketIsNamed | software/realtouch/applications/JSON_parser.c:407-419 | A closing bracket behind a value is refused as unbalanced if and only if it does not close the innermost container |
| JsonReader.AdvanceAllGrows | software/realtouch/applications/JSON_parser.c:774-1094 | Reading a text gives a well-formed prefix whose printed text is the text read |
| JsonPrinter.ReadDocument | software/realtouch/applications/JSON_parser.c:270-315 | The reader rebuilds a printed document, node for node |
| JsonUnicode.EscapesBecomeUtf8 | software/realtouch/applications/JSON_parser.c:633-700 | For every Unicode scalar value, its one or two unit escapes lead from ST back to ST and leave its RFC 3629 bytes in place of their text |
| JsonUnicode.SpelledIsUtf8 | software/realtouch/applications/JSON_parser.c:633-700 | A literal that spells one scalar value denotes bytes that a strict UTF-8 decoder reads back as that value |
| JsonUnicode.Utf8RoundTrip | software/realtouch/applications/JSON_parser.c:691-697 | Decoding the encoding of a scalar value gives the value |
| JsonUnicode.SurrogatesRoundTrip | software/realtouch/applications/JSON_parser.c:628-630 | The two units of a supplementary character are a surrogate pair, and pairing them gives the character |
| JsonUnicode.LoneLowIsRefused | software/realtouch/applications/JSON_parser.c:683-686 | A low surrogate without a high one before it is refused |
| JsonUnicode.LoneHighIsRefused | software/realtouch/applications/JSON_parser.c:665-673 | A high surrogate followed by anything but the escape of a low one is refused within six characters |
| JsonUnicode.LiteralPayload | software/realtouch/applications/JSON_parser.c:1015-1041 | The key or string event of a literal of any length carries the recursive unescape of its bytes, and the buffer is empty afterwards |
| JsonSteps.EncodeIsUtf8 | software/realtouch/applications/JSON_parser.c:691-697 | Lead bits and six-bit shifts give the UTF-8 bytes of the character |
| JsonSteps.UnitRange | software/realtouch/applications/JSON_parser.c:644-658 | Four hexadecimal digits of either case give a 16-bit unit |
| JsonInvariant.StepKeepsInv | software/realtouch/applications/JSON_parser.c:774-1094 | One inductive invariant over state, modes, type, escape and comment flags, surrogate and buffer is kept by every call, and under it no assertion of the parser can fail |
| JsonInvariant.ReachableInv | software/realtouch/applications/JSON_parser.c:774-1094 | The invariant holds after any accepted input, comments on or off |
| JsonInvariant.InitInv | software/realtouch/applications/JSON_parser.c:488-516 | It holds initially |
| JsonInvariant.EdgeShape | software/realtouch/applications/JSON_parser.c:279-314 | Which states and character classes lead to which action, and which plain edges there are, for the whole table |
| JsonComments.CommentTransparency | software/realtouch/applications/JSON_parser.c:907-945 | A comment inserted where the state is GO, OK, OB, KE, CO, VA or AR changes neither acceptance nor the final events, up to blanks behind a number |
| JsonComments.CommentRun | software/realtouch/applications/JSON_parser.c:907-945 | Reading a comment returns to the state before it, with a pending scalar already reported |
| JsonComments.EquivalentStep | software/realtouch/applications/JSON_parser.c:774-1094 | States that differ only in that stay equivalent under every character |
| JsonComments.StepSlash | software/realtouch/applications/JSON_parser.c:915-945 | The effect of the slash that opens a comment |
| JsonCommentTheorems.AcceptsWithComments | software/realtouch/applications/JSON_parser.c:774-1106 | Comments on: the accepted texts are exactly those that come from a text accepted without comments by putting comments where the document so far takes one, each for a blank, or for the last letter of a keyword and a blank |
| JsonCommentTheorems.AcceptedWithComments | software/realtouch/applications/JSON_parser.c:774-1106 | Comments on: apart from its comments an accepted text is blank, or the text of one document within the depth, and the events are that document's trace up to blanks behind numbers |
| JsonCommentTheorems.CommentedDocument | software/realtouch/applications/JSON_parser.c:907-945 | Every document with comments so placed is accepted as that document |
| JsonCommentTheorems.CommentedIsPlain | software/realtouch/applications/JSON_parser.c:907-945 | A text with comments and its plain text have the same verdict and events |
| JsonCommentTheorems.TakeApart | software/realtouch/applications/JSON_parser.c:907-945 | Every text the machine takes so far is a text with comments, and perhaps the beginning of another comment |
| JsonCommentTheorems.CutExactlyInKeywords | software/realtouch/applications/JSON_parser.c:301-308 | A comment stands for a letter exactly when its slash finds the machine in T3, F4 or N3 |
| JsonCommentTheorems.CutKeywordWitness | software/realtouch/applications/JSON_parser.c:301 | [tru/**/] is accepted and reported as an array with true in it |
| JsonCommentLanguage.SlashOpens | software/realtouch/applications/JSON_parser.c:915-945 | In every state with a slash edge the slash reports what is pending, a cut keyword as if whole, and opens a comment |
| JsonCommentLanguage.SlashBehindNumber | software/realtouch/applications/JSON_parser.c:293-312 | Behind a number that has been read so far, a slash is taken if and only if the number has no exponent and does not end in a point |
| JsonCommentLanguage.CommentIsBlank | software/realtouch/applications/JSON_parser.c:907-945 | Wherever a comment can stand it does what a blank does, after the missing letter of a keyword |
| JsonCommentLanguage.PlainRun | software/realtouch/applications/JSON_parser.c:774-1094 | Feeding a text with comments leads to the same verdict and an equivalent state as feeding its plain text |
| JsonCommentLanguage.StepAlike | software/realtouch/applications/JSON_parser.c:915-918 | Apart from the slash, comments on or off makes no difference to a step |
| JsonRfc.RfcConformance | software/realtouch/applications/JSON_parser.c:270-315 | An RFC 4627 text within the depth is accepted if and only if no number is a zero directly followed by an exponent and all surrogates are paired |
| JsonRfc.BeyondTheRfc | software/realtouch/applications/JSON_parser.c:312 | An accepted document is an RFC 4627 text if and only if no number ends in a bare decimal point |
| JsonRfc.ZeroExponentWitness | software/realtouch/applications/JSON_parser.c:293 | [0e1] is refused |
| JsonRfc.BarePointWitness | software/realtouch/applications/JSON_parser.c:312 | [1.] is accepted |
| JsonParser.Parse | software/realtouch/applications/JSON_parser.c:773-1106 | The object fed a whole text says yes exactly when the specification accepts, with the specified events |
| JsonParser.Parser.Char | software/realtouch/applications/JSON_parser.c:773-1094 | One call does what the specified step does, error field included, keeps the invariant and fails none of the assertions |
| JsonParser.Parser.Done | software/realtouch/applications/JSON_parser.c:1096-1106 | True exactly for a complete text, otherwise the unbalanced-collection error |
| JsonParser.Parser.constructor | software/realtouch/applications/JSON_parser.c:449-528 | The initial state; a requested depth of 0 means 1 |
| JsonParser.Parser.PushMode | software/realtouch/applications/JSON_parser.c:371-404 | Pushes, or refuses at the depth with the nesting error |
| JsonParser.Parser.PopMode | software/realtouch/applications/JSON_parser.c:407-419 | Pops the expected mode, or refuses and changes nothing |
| JsonParser.Parser.BufferClear | software/realtouch/applications/JSON_parser.c:422-426 | Empties the buffer |
| JsonParser.Parser.PopBackChar | software/realtouch/applications/JSON_parser.c:428-433 | Drops the last byte |
| JsonParser.Parser.PushBackChar | software/realtouch/applications/JSON_parser.c:570-575 | Appends a byte and the terminating zero |
| JsonParser.Parser.BufferGrow | software/realtouch/applications/JSON_parser.c:530-553 | Doubles the capacity and keeps the contents |
| JsonParser.Parser.BufferReserve | software/realtouch/applications/JSON_parser.c:555-565 | Makes room and keeps the contents |
| JsonParser.Parser.ReportPending | software/realtouch/applications/JSON_parser.c:587-626 | Reports the pending scalar, if any, and empties the buffer |
| JsonParser.Parser.UnitValue | software/realtouch/applications/JSON_parser.c:636-658 | The value of the last four digits |
| JsonParser.Parser.AppendEncoded | software/realtouch/applications/JSON_parser.c:691-697 | Appends the encoded bytes |
| JsonParser.Parser.DecodeUnitValue | software/realtouch/applications/JSON_parser.c:664-699 | A unit becomes its bytes, waits as a high surrogate, or is refused |
| JsonParser.Parser.DecodeUnicodeChar | software/realtouch/applications/JSON_parser.c:633-700 | The escape's six characters are replaced by that |
| JsonParser.Parser.AddEscapedChar | software/realtouch/applications/JSON_parser.c:702-743 | The backslash is replaced by what it escapes; other characters are refused |
| JsonParser.Parser.AddCharToBuffer | software/realtouch/applications/JSON_parser.c:745-764 | Which characters enter the buffer |
| JsonParser.Parser.OnUnit | software/realtouch/applications/JSON_parser.c:825-836 | UC |
| JsonParser.Parser.OnBegin | software/realtouch/applications/JSON_parser.c:838-904 | EX, MX, ZX, IX, DE, DF, SB, NU, FA, TR |
| JsonParser.Parser.OnCommentEnd | software/realtouch/applications/JSON_parser.c:907-912 | CE |
| JsonParser.Parser.OnCommentBegin | software/realtouch/applications/JSON_parser.c:915-945 | CB |
| JsonParser.Parser.OnEmptyObject | software/realtouch/applications/JSON_parser.c:947-956 | The empty object |
| JsonParser.Parser.OnClose | software/realtouch/applications/JSON_parser.c:958-989 | Closing an object or array |
| JsonParser.Parser.OnOpen | software/realtouch/applications/JSON_parser.c:991-1013 | Opening an object or array |
| JsonParser.Parser.OnStringEnd | software/realtouch/applications/JSON_parser.c:1015-1045 | The end of a key or a string |
| JsonParser.Parser.OnComma | software/realtouch/applications/JSON_parser.c:1047-1072 | Comma: from object to key mode, or the next array element |
| JsonParser.Parser.OnColon | software/realtouch/applications/JSON_parser.c:1074-1084 | Colon: from key to object mode |
| JsonParser.Parser.Dispatch | software/realtouch/applications/JSON_parser.c:823-1092 | The action chosen is the one performed |
| NetTheorems.NeverBothBlocked | software/realtouch/applications/netbuffer.c:77-325 | Ring of at least ten blocks: in every run, stops and restarts included, worker and reader are never both stuck on their semaphores |
| NetTheorems.WokenInTime | software/realtouch/applications/netbuffer.c:77-350 | Whatever the application does meanwhile, a waiting reader has its token by the time the worker has taken a bounded number of steps, unless a stop before the pickup has lost its job |
| NetTheorems.SomeoneCanMove | software/realtouch/applications/netbuffer.c:232-350 | While the reader is stuck and not lost, the worker can move, or the message of the job is about to be sent |
| NetTheorems.EachStepHelps | software/realtouch/applications/netbuffer.c:77-350 | No step of anyone raises that bound, and every step of the worker lowers it or wakes the reader; only a stop loses the job |
| NetTheorems.LostForGood | software/realtouch/applications/netbuffer.c:335-348 | A stop that comes before the worker has picked the job up leaves STOPPING for ever: every later start is refused and a stuck reader stays stuck |
| NetTheorems.StopBeforePickup | software/realtouch/applications/netbuffer.c:181-201 | That state can be reached from every initial state |
| NetTheorems.StopIsKept | software/realtouch/applications/netbuffer.c:266-271 | A stop during a job is kept until the job is marked stopped, except that a worker without room overwrites it with SUSPEND |
| NetTheorems.AtMostOneToken | software/realtouch/applications/netbuffer.c:77-350 | Each semaphore has at most one token; SUSPEND means at least resume_wm bytes to read |
| NetTheorems.DeliveredIsPrefix | software/realtouch/applications/netbuffer.c:100-130 | In every BUFFERING and SUSPEND state, with history since the start of the job: before the pickup nothing is fetched; after it there is no overflow, the save index is the read index plus the occupancy modulo size, and fetched is delivered since the pickup plus ring plus block in hand; without early bytes, delivered is a prefix of fetched |
| NetTheorems.CopyDelivers | software/realtouch/applications/netbuffer.c:100-145 | In every run, a read that copies after the pickup adds to the bytes delivered exactly the oldest in the ring, as many as were asked for or all there are; the others stay |
| NetTheorems.SaveAppends | software/realtouch/applications/netbuffer.c:276-305 | In every run, a block saved while the job is not being stopped goes behind the bytes in the ring, and the length saved is the new occupancy |
| NetTheorems.SuspendsExactlyWithoutRoom | software/realtouch/applications/netbuffer.c:256-270 | In every run, the worker suspends exactly when the bytes in the ring and its block together exceed the size |
| NetTheorems.NotifiesExactlyAtMark | software/realtouch/applications/netbuffer.c:309-321 | In every run, a save gives a waiting reader its token exactly when the status is BUFFERING and the length saved reaches 90 percent of the size |
| NetInvariant.ReadReturnsOldest | software/realtouch/applications/netbuffer.c:100-148 | One read: the oldest bytes, min(length, occupancy) of them, the others left; it sets BUFFERING and wakes the worker exactly when it takes a suspended ring below 80 percent |
| NetTheorems.LostStopIsReached | software/realtouch/applications/netbuffer.c:266-271 | From every initial state a run loses a stop that comes during a fetch into a full ring |
| NetTheorems.LeftoverIsLost | software/realtouch/applications/netbuffer.c:209-229 | When the source ends, what was fetched and not delivered is exactly the content of the ring, and the stop throws it away |
| NetReads.PrefixExactlyWithoutEarlyReads | software/realtouch/applications/netbuffer.c:163-173 | Since the start of a job, delivered was a prefix of fetched in every BUFFERING and SUSPEND state if and only if no byte was delivered before the worker picked the job up |
| NetReads.EarlyShows | software/realtouch/applications/netbuffer.c:214-226 | Bytes delivered early show in some state since the start as bytes that were never fetched |
| NetReads.EarlyStays | software/realtouch/applications/netbuffer.c:100-130 | Without a new start they stay on record |
| NetReads.StartIsSafeExactlyWhenEmpty | software/realtouch/applications/netbuffer.c:163-173 | A start lets some continuation read bytes of the job before, whatever reader and worker are about, if and only if net_buf_get_usage is not 0 then |
| NetReads.StartedWhenEmpty | software/realtouch/applications/netbuffer.c:203-207 | Over whole runs: a caller that starts jobs only while net_buf_get_usage is 0, or only while the worker waits for a job, never sees such bytes |
| NetReads.StaleReadIsReached | software/realtouch/applications/netbuffer.c:214-226 | From every initial state: after the end of a source and a new start, a read returns a byte of the job before |
| NetReads.EmptyReadsInRuns | software/realtouch/applications/netbuffer.c:214-226 | In every run, a read that begins while a job runs or waits to be picked up can come back empty, before that job is stopped or ends, if and only if a step still to come can overtake it: the wake for the job before, the reset after it if the read finds bytes and does not wait, or a notification on a length saved earlier if it waits |
| NetReads.EmptyExactlyWhenOvertaken | software/realtouch/applications/netbuffer.c:82-146 | The same for every state of the invariant |
| NetReads.ProvidedGets | software/realtouch/applications/netbuffer.c:82-146 | A reader that no such step can overtake gets bytes, whatever steps come between |
| NetTheorems.WithoutStop | software/realtouch/applications/netbuffer.c:77-325 | Without stops the ring is never over-full and the status never STOPPING |
| NetReads.ReadCanComeBackEmpty | software/realtouch/applications/netbuffer.c:309-320 | From every initial state a run without stops leads to an empty read in the middle of a job, behind a notification |
| NetReads.EmptyBeforePickupIsReached | software/realtouch/applications/netbuffer.c:214-222 | From every initial state a run without stops wakes the reader of a job not yet picked up for the end of the job before, and its read is empty |
| NetReads.ResetOvertakesRead | software/realtouch/applications/netbuffer.c:223-226 | From every initial state a run without stops has a read find bytes and return none, since the reset comes before its copy |
| NetTheorems.RunInv | software/realtouch/applications/netbuffer.c:77-350 | Every state of every run satisfies the invariant |
| NetInvariant.NextInv | software/realtouch/applications/netbuffer.c:77-350 | Every atomic step keeps the invariant |
| NetInvariant.NextFilling | software/realtouch/applications/netbuffer.c:309-320 | A waiting reader is never left behind a buffer that is ready |
| NetInvariant.ResumeLeavesRoom | software/realtouch/applications/netbuffer.c:366 | From five blocks on there is room for a whole block above resume_wm, in integer arithmetic |
| NetInvariant.ReadyLeavesRoom | software/realtouch/applications/netbuffer.c:365 | From ten blocks on there is room for a whole block above ready_wm |
| NetInvariant.InitInv | software/realtouch/applications/netbuffer.c:352-374 | The invariant holds initially |
| Ring.ReadTakesOldest | software/realtouch/applications/netbuffer.c:112-126 | A read copies out the oldest bytes, across the wrap |
| Ring.ReadLeavesRest | software/realtouch/applications/netbuffer.c:112-126 | The read index moves to where the other bytes begin |
| Ring.WriteIsFifo | software/realtouch/applications/netbuffer.c:282-301 | A write that fits appends its block, and the save index moves behind it |
| NetBuffer.NetBuffer.constructor | software/realtouch/applications/netbuffer.c:352-374 | Initial fields |
| NetBuffer.NetBuffer.TestReady | software/realtouch/applications/netbuffer.c:82-94 | Wait or go on |
| NetBuffer.NetBuffer.CopyPieces | software/realtouch/applications/netbuffer.c:111-126 | The copy out, in place |
| NetBuffer.NetBuffer.CopyOutTo | software/realtouch/applications/netbuffer.c:100-148 | Copy, index, length and resume decision as one step |
| NetBuffer.NetBuffer.StartJob | software/realtouch/applications/netbuffer.c:163-178 | Starts only from STOPPED |
| NetBuffer.NetBuffer.StopJob | software/realtouch/applications/netbuffer.c:181-201 | The three cases of a stop |
| NetBuffer.NetBuffer.TestRoomFor | software/realtouch/applications/netbuffer.c:258-270 | Suspend or go on |
| NetBuffer.NetBuffer.SaveWrapped | software/realtouch/applications/netbuffer.c:282-292 | The copy in across the end |
| NetBuffer.NetBuffer.SavePieces | software/realtouch/applications/netbuffer.c:282-301 | The copy in, in place |
| NetBuffer.NetBuffer.SaveFrom | software/realtouch/applications/netbuffer.c:281-306 | Copy, index and length as one step |
| NetBuffer.NetBuffer.NotifyReady | software/realtouch/applications/netbuffer.c:309-320 | When the reader is notified |
| NetBuffer.NetBuffer.WakeWaiting | software/realtouch/applications/netbuffer.c:217-222 | A stop wakes a waiting reader |
| NetBuffer.NetBuffer.Reset | software/realtouch/applications/netbuffer.c:223-226 | The reset |
| CodecRuns.QueueIsFifo | software/realtouch/drivers/codec_wm8978_i2c.c:418-664 | In every run of writer, interrupt and close: at most four buffers, queued in write order with the lengths written, MS set exactly when one is queued, DMA on the oldest, tx_complete once per accepted buffer in write order, a close drains exactly when one is queued and then completes all |
| CodecRuns.NextInv | software/realtouch/drivers/codec_wm8978_i2c.c:418-664 | Each action on the ring is the FIFO's action; a write is refused exactly when four are queued, also with the interrupt between test and update |
| CodecQueue.PutAppends | software/realtouch/drivers/codec_wm8978_i2c.c:512-544 | A write into a queue with room appends |
| CodecQueue.IsrPops | software/realtouch/drivers/codec_wm8978_i2c.c:596-664 | The interrupt completes the oldest and leaves the rest |
| CodecQueue.CloseCompletesAll | software/realtouch/drivers/codec_wm8978_i2c.c:421-452 | Closing completes everything queued, in order |
| CodecQueue.FullAtFour | software/realtouch/drivers/codec_wm8978_i2c.c:501-510 | The full test is true at four of the five nodes |
| CodecQueue.CodecDevice.constructor | software/realtouch/drivers/codec_wm8978_i2c.c:588-590 | Empty queue |
| CodecQueue.CodecDevice.HasRoom | software/realtouch/drivers/codec_wm8978_i2c.c:501-510 | The full test in place |
| CodecQueue.CodecDevice.Accept | software/realtouch/drivers/codec_wm8978_i2c.c:512-544 | The masked update in place |
| CodecQueue.CodecDevice.DmaInterrupt | software/realtouch/drivers/codec_wm8978_i2c.c:596-664 | The interrupt in place |
| CodecQueue.CodecDevice.Shutdown | software/realtouch/drivers/codec_wm8978_i2c.c:421-452 | The drain loop in place |
| AudioPath.BlocksAreConserved | software/realtouch/applications/mp3.c:176-262 | In every interleaving of decoder, interrupt and close each of the two blocks is in exactly one of pool, hand and queue; at most two are queued, no write is refused, every block taken is released once or still in use |
| AudioPath.CompletedInOrder | software/realtouch/drivers/codec_wm8978_i2c.c:418-664 | Across the whole path buffers complete in the order they were accepted, and are queued with the length that was tested |
| AudioPath.EmptyPoolRefills | software/realtouch/applications/netbuffer.c:23-37 | A decoder waiting on an empty pool is never stuck: the DMA runs and its interrupt frees a block |
| AudioPath.NextInv | software/realtouch/applications/mp3.c:38-44 | Each step keeps the conservation invariant |
| AudioPath.QueueHoldsTwo | software/realtouch/drivers/codec_wm8978_i2c.c:505-510 | Under it the codec queue is never full |
| Mp3Decoder.Decoder.Run | software/realtouch/applications/mp3.c:140-265 | While it returns 0 the window is the end of the stream fetched so far. From the place of the frame found, the decoder goes on by exactly the bytes the decoding took, by one byte more after an unknown error, and past the whole window after an underflow; a block taken is released, or written once with the decoded samples in both channels |
| Mp3Decoder.Decoder.Locate | software/realtouch/applications/mp3.c:148-173 | It refills exactly when fewer than 3880 bytes are left, and again exactly when fewer than 1024 are left behind the offset found; it moves on by just that offset, or past everything if there is none |
| Mp3Decoder.Decoder.Dispose | software/realtouch/applications/mp3.c:187-262 | The fate of the block on every path; a mono block goes through the stereo loop |
| Mp3Decoder.Decoder.FillBuffer | software/realtouch/applications/mp3.c:108-138 | A refill appends to the window and fails exactly when nothing is fetched |
| Mp3Decoder.Decoder.Refill | software/realtouch/applications/mp3.c:120-137 | Any answer of the fetch up to the request keeps that |
| Mp3Decoder.Decoder.Slide | software/realtouch/applications/mp3.c:114-118 | The move to the front keeps the window's bytes |
| Mp3Decoder.Decoder.constructor | software/realtouch/applications/mp3.c:46-57 | Empty window |
| Mp3Decoder.RequestIsPositive | software/realtouch/applications/mp3.c:120-124 | A refill asks for whole sectors of 512 bytes, for as many as fit behind the bytes left, and never for nothing |
| Mp3Decoder.StereoAt | software/realtouch/applications/mp3.c:247-251 | Both channels of frame i are mono sample i |
| Mp3Decoder.MonoToStereo | software/realtouch/applications/mp3.c:244-253 | The downward in-place loop computes that |
| Pieces.MoveDown | software/realtouch/applications/http.c:591 | memmove to a lower address in the same buffer |
| Pieces.FlattenConcat | software/realtouch/applications/http.c:570-585 | What the receive loop and the pbuf loop store is the concatenation of the pieces |
| EthTx.OwnedIsInterval | software/examples/drivers/stm32f4xx_eth.c:3533-3630 | For any number of descriptors, in every run, those the DMA owns are one cyclic interval that ends at DMATxDescToSet |
| EthTx.SentInOrder | software/examples/drivers/stm32f4xx_eth.c:3533-3630 | Frames leave in call order, once each, unchanged |
| EthTx.IsrServes | software/examples/drivers/stm32f4xx_eth.c:3304-3315 | In every run the interrupt is served once and gives the writer its token exactly when it asked for one |
| EthTx.FilledIsFree | software/examples/drivers/stm32f4xx_eth.c:3539-3552 | With prompt interrupts the descriptor filled belongs to the CPU, after a wake too, although OWN is not tested again; the OWN test and the flag are two steps |
| EthTx.WokenUnlessLost | software/examples/drivers/stm32f4xx_eth.c:3304-3315 | A sleeping writer can be woken if and only if a frame is left to send, an interrupt to serve or its token is there; otherwise no step of anyone is possible |
| EthTx.SleepLosesExactly | software/examples/drivers/stm32f4xx_eth.c:3539-3549 | The wake is lost exactly when everything was sent and served between the OWN test and the flag |
| EthTx.LostWakeIsReached | software/examples/drivers/stm32f4xx_eth.c:3539-3549 | From every initial state, for any number of descriptors, a run loses the wake |
| EthTx.FilledIsFreeExactly | software/examples/drivers/stm32f4xx_eth.c:3539-3552 | Interrupts as late as they like: in a run every descriptor filled is the CPU's if and only if before every wake a frame has been sent since the call that found the chain full |
| EthTx.WokenFreeExactly | software/examples/drivers/stm32f4xx_eth.c:3539-3552 | The same for one wake: its descriptor is free exactly when the DMA has sent a frame since that call; a stale interrupt alone does not free it |
| EthTx.LateInterruptIsReached | software/examples/drivers/stm32f4xx_eth.c:3539-3552 | Where interrupts come late, from every initial state a run gets the driver to fill a descriptor of the DMA's |
| EthTx.NextInv | software/examples/drivers/stm32f4xx_eth.c:3533-3630 | Each step keeps the invariant |
| EthRx.FramesInOrder | software/examples/drivers/stm32f4xx_eth.c:3633-3724 | Descriptors armed are exactly those not waiting for the driver; pbufs delivered are, in arrival order, the good frames among those taken, without their last four bytes |
| EthRx.PollTakesOldest | software/examples/drivers/stm32f4xx_eth.c:3641-3643 | A poll takes the oldest waiting frame, returns nothing exactly when there is none, and leaves the descriptor armed |
| EthRx.PollDelivers | software/examples/drivers/stm32f4xx_eth.c:3645-3668 | In every run a poll delivers the oldest waiting frame without its last four bytes, if the frame is good and the allocation succeeds, and nothing otherwise |
| EthRx.ReceiveInv | software/examples/drivers/stm32f4xx_eth.c:3633-3724 | A reception keeps the invariant |
| EthRx.PollInv | software/examples/drivers/stm32f4xx_eth.c:3633-3724 | A poll keeps the invariant |
| EthChain.LinkChain | software/examples/drivers/stm32f4xx_eth.c:1202-1223 | The linking loop makes a chain and sets every OWN bit as asked |
| EthChain.ChainIsCycle | software/examples/drivers/stm32f4xx_eth.c:1555-1578 | Following the chain visits every descriptor once and returns |
| EthDriver.CopyPbufs | software/examples/drivers/stm32f4xx_eth.c:3554-3563 | A frame is its pbufs one behind the other |
| EthDriver.TxChain.constructor | software/examples/drivers/stm32f4xx_eth.c:1194-1227 | All descriptors the CPU's |
| EthDriver.TxChain.TestOwn | software/examples/drivers/stm32f4xx_eth.c:3539 | The OWN test |
| EthDriver.TxChain.RaiseFlag | software/examples/drivers/stm32f4xx_eth.c:3544-3546 | The wait flag |
| EthDriver.TxChain.HandOver | software/examples/drivers/stm32f4xx_eth.c:3554-3629 | The pbufs are copied, a descriptor that was the CPU's goes to the DMA, the pointer to the next |
| EthDriver.TxChain.TransmitIsr | software/examples/drivers/stm32f4xx_eth.c:3304-3315 | The transmit interrupt |
| EthDriver.RxChain.constructor | software/examples/drivers/stm32f4xx_eth.c:1547-1582 | All descriptors the DMA's |
| EthDriver.RxChain.Poll | software/examples/drivers/stm32f4xx_eth.c:3633-3724 | One poll in place |
| UartTx.ListIsQueue | software/examples/drivers/serial.c:156-216 | In every interleaving: next from list_head walks the nodes in write order and ends at list_tail, head and tail are null together, buffers complete in write order, while any is left the DMA runs on the oldest with the length that was written, and free, held and listed nodes total the pool of four |
| UartTx.NodesComeBack | software/examples/drivers/serial.c:373-416 | When the pool has run out and no node is held, the completion interrupt is due and frees one |
| UartTx.AlwaysReady | software/examples/drivers/serial.c:382-384 | The interrupt always finds a head node |
| UartTx.NextInv | software/examples/drivers/serial.c:156-216 | Each step keeps the invariant |
| UartTx.InsertAppends | software/examples/drivers/serial.c:187-214 | A write appends its node to the linked list |
| UartTx.CompletePops | software/examples/drivers/serial.c:382-415 | The interrupt takes the first node off and leaves the others linked |
| UartTx.WalkIsList | software/examples/drivers/serial.c:176-214 | What the pointers say is what the list says |
| UartTx.TxList.constructor | software/examples/drivers/serial.c:45-55 | Empty list |
| UartTx.TxList.InsertNode | software/examples/drivers/serial.c:187-214 | In place; the DMA branch of the write returns 0 |
| UartTx.TxList.CompletionIsr | software/examples/drivers/serial.c:382-415 | In place |
| UartRx.BurstKeepsNewest | software/examples/drivers/serial.c:321-345 | A burst of any length leaves the newest 63 bytes, in order |
| UartRx.ReadsInOrder | software/examples/drivers/serial.c:76-119 | In every interleaving the ring holds the newest bytes received, and reads take received bytes in order, none twice |
| UartRx.NextInv | software/examples/drivers/serial.c:321-345 | Each step keeps that |
| UartRx.StoreKeepsNewest | software/examples/drivers/serial.c:328-340 | One byte stored |
| UartRx.TakeIsOldest | software/examples/drivers/serial.c:96-106 | One byte read |
| UartRx.RxRing.constructor | software/examples/drivers/serial.c:37-43 | Empty ring |
| UartRx.RxRing.StoreByte | software/examples/drivers/serial.c:328-340 | In place |
| UartRx.RxRing.TakeByte | software/examples/drivers/serial.c:96-106 | In place |
| UartRx.RxRing.Read | software/examples/drivers/serial.c:89-119 | A read returns the oldest bytes and stops early only on an empty ring |
| Shoutcast.RightExactlyWhenFits | software/realtouch/applications/http.c:587-638 | A read is defined and returns the right bytes if and only if the pending block is not longer than the read, a block that begins in the read ends in it, and at most one chunk follows |
| Shoutcast.SessionStrips | software/realtouch/applications/http.c:561-641 | Over any sequence of reads that fit, the outputs together are the input with every metadata block and length byte deleted |
| Shoutcast.FreshSessionDeliversAudio | software/realtouch/applications/http.c:561-641 | On a stream of periods a session opened with no block pending delivers exactly the audio |
| Shoutcast.OpenedDeliversExactly | software/realtouch/applications/http.c:566 | A session delivers the audio of every stream of periods, in reads that fit, if and only if the static variable first_meta_size is 0 as it is opened |
| Shoutcast.ClosedInsideBlock | software/realtouch/applications/http.c:600-611 | A session closed behind the length byte of a block leaves it at another value, so that the next session does not deliver the audio |
| Shoutcast.NegativeMoveIsReached | software/realtouch/applications/http.c:588-598 | A fresh session, a read that ends with its chunk and a next one shorter than the block announced: the length given to memmove is negative |
| Shoutcast.LengthByteInAudio | software/realtouch/applications/http.c:612-633 | A fresh session and a read of two whole periods: the second length byte is returned among the audio |
| Shoutcast.WithoutMetaintDamages | software/realtouch/applications/http.c:612-633 | If the server announces no metaint, no read of a byte or more returns its bytes |
| Shoutcast.StripDeletesMetadata | software/realtouch/applications/http.c:587-638 | The byte-by-byte reference deletes exactly length bytes and blocks |
| Shoutcast.StripPeriod | software/realtouch/applications/http.c:607 | A period whose block is 16 times its length byte leaves exactly its audio |
| Shoutcast.ReadStrips | software/realtouch/applications/http.c:587-638 | One read that fits does what the reference does, in all four branches |
| Shoutcast.ShoutcastSession.constructor | software/realtouch/applications/http.c:517-558 | Opening begins a chunk and leaves the static variable as it is |
| Shoutcast.ShoutcastSession.Receive | software/realtouch/applications/http.c:570-585 | The receive loop stores the pieces in order |
| Shoutcast.ShoutcastSession.SkipPending | software/realtouch/applications/http.c:588-598 | The pending-block branch in place |
| Shoutcast.ShoutcastSession.SkipInside | software/realtouch/applications/http.c:612-633 | The inner-block branch in place |
| Shoutcast.ShoutcastSession.StripMetadata | software/realtouch/applications/http.c:587-640 | All branches in place, whenever no length given to memmove is negative |
| Shoutcast.ShoutcastSession.ReadSession | software/realtouch/applications/http.c:561-641 | The whole read: receive, then strip |
| UsbControl.CompleteMeansAllStages | software/examples/drivers/stm32f4xx_hcd.c:46-292 | CTRL_COMPLETE is reached only when, since the last SETUP packet, exactly the SETUP, a data stage in the request's direction if and only if wLength is not zero, and an empty status stage opposite to the direction bit were acknowledged; the global state is what it was before the transfer |
| UsbControl.StandardExceptEmptyIn | software/examples/drivers/stm32f4xx_hcd.c:94-103 | A completed transfer follows section 8.5.3 of USB 2.0 if and only if it is not a device-to-host request without data |
| UsbControl.RestartsAreBounded | software/examples/drivers/stm32f4xx_hcd.c:274-285 | Before the first USBH_FAIL there are at most two restarts, over all transfers together |
| UsbControl.TimesOutExactly | software/examples/drivers/stm32f4xx_hcd.c:90-150 | In every run, a data-in or status-in stage without an answer is given up exactly when more than 5000 frames, or 50 for a request without data, have gone by since the SETUP was acknowledged, or the frame counter has wrapped |
| UsbControl.ResultTells | software/examples/drivers/stm32f4xx_hcd.c:208-288 | In every run: USBH_FAIL exactly with the restarts used up, USBH_NOT_SUPPORTED exactly for a status-in stage stalled in time; the global state is then that before the transfer; and which status each result goes with |
| UsbControl.TransferBegins | software/examples/drivers/stm32f4xx_hcd.c:46-64 | A transfer begins with its SETUP packet in HOST_CTRL_XFER; a disconnect sends it back there |
| UsbControl.FailedTransferRestarts | software/examples/drivers/stm32f4xx_hcd.c:274-285 | After a failure further calls fail until the 8-bit error count wraps, and exactly then the transfer starts over |
| UsbControl.CanCompleteExactly | software/examples/drivers/stm32f4xx_hcd.c:46-292 | From a state of the caller's loop, reached in any run, some behaviour of the device still completes the transfer if and only if the machine is not in CTRL_STALLED |
| UsbControl.EntersStalledExactly | software/examples/drivers/stm32f4xx_hcd.c:178-183 | A call enters CTRL_STALLED exactly on a stall of the data-out stage |
| UsbControl.StalledIsReached | software/examples/drivers/stm32f4xx_hcd.c:178-183 | From every initial state a run gets there with the caller in its loop |
| UsbControl.HangsExactly | software/examples/drivers/stm32f4xx_hcd.c:65-263 | For each state and each answer of the device: the call stays where it is at every frame number if and only if the table says so; a stalled data-in stage and a status-out stage have no time-out |
| UsbControl.HungForGood | software/examples/drivers/stm32f4xx_hcd.c:65-263 | A device that keeps giving such an answer holds the caller in its loop for ever |
| UsbControl.ComesBackExactly | software/examples/drivers/stm32f4xx_hcd.c:65-263 | Two calls with the same answer lead back to where they began, at all frame numbers, exactly if neither moves or the answer is NAK to a data-out or status-out stage |
| UsbControl.ResentForGood | software/examples/drivers/stm32f4xx_hcd.c:153-263 | A device that answers NAK for ever to such a stage is sent it for ever: no time-out, no error count, no completion |
| UsbControl.ResendingIsReached | software/examples/drivers/stm32f4xx_hcd.c:153-263 | From every initial state a run comes to such a stage |
| UsbControl.AcknowledgedEnds | software/examples/drivers/stm32f4xx_hcd.c:46-292 | A device that acknowledges everything ends the transfer within a bounded number of calls |
| UsbControl.EmptyInIsReached | software/examples/drivers/stm32f4xx_hcd.c:94-98 | From every initial state a device-to-host request without data completes with its status stage in the wrong direction |
| UsbControl.FailureIsReached | software/examples/drivers/stm32f4xx_hcd.c:274-285 | From every initial state a run uses up its restarts and then returns USBH_FAIL |
| UsbControl.TimeoutOnWrap | software/examples/drivers/stm32f4xx_hcd.c:146-150 | The timeout test also fires whenever the frame counter has wrapped |
| UsbControl.NextInv | software/examples/drivers/stm32f4xx_hcd.c:46-292 | Each call keeps the invariant |
| UsbControl.HostControl.constructor | software/examples/drivers/stm32f4xx_hcd.c:33 | The zero-filled static structure |
| UsbControl.HostControl.DeInit | software/examples/drivers/stm32f4xx_hcd.c:300-312 | USBH_DeInit, also from a disconnect during a transfer |
| UsbControl.HostControl.Prepare | software/examples/drivers/stm32f4xx_hcd.c:422-428 | The start of a transfer |
| UsbControl.HostControl.Await | software/examples/drivers/stm32f4xx_hcd.c:65-263 | The waiting states in place |
| UsbControl.HostControl.HandleControl | software/examples/drivers/stm32f4xx_hcd.c:46-292 | One call in place |
| WifiConfig.RestoredExactlyWhenOneLine | software/realtouch/applications/libwifi.c:26-165 | From blank settings, loading what was saved restores every field, the password only if there is security, if and only if the SSID and a password so saved hold no CR or LF |
| WifiConfig.BrokenNameIsLost | software/realtouch/applications/libwifi.c:26-165 | A name a, LF, b is read back as a; the other fields are restored |
| WifiConfig.SaveThenLoad | software/realtouch/applications/libwifi.c:26-165 | Whatever was there before: with security every field comes back, without it every field but the password, which comes back empty |
| WifiConfig.SavedFits | software/realtouch/applications/libwifi.c:74-136 | A saved file is read back without overrunning the line buffer or a field |
| WifiConfig.LinesFit | software/realtouch/applications/libwifi.c:35-64 | Every printed line fits its buffer |
| WifiConfig.LoadedIsOneLine | software/realtouch/applications/libwifi.c:79-96 | No load ever gives a string with a CR or LF |
| WifiConfig.GetLineGets | software/realtouch/applications/libwifi.c:74-96 | A line read back is the line written |
| WifiConfig.AtoiUndoesDecimal | software/realtouch/applications/libwifi.c:137-144 | atoi undoes %d |
| WifiConfig.AtoiReads | software/realtouch/applications/libwifi.c:137-144 | atoi skips a blank, takes a sign, and stops at the first character that is no digit |
| WifiConfig.DigitsPrinted | software/realtouch/applications/libwifi.c:49-61 | %02x prints two lower-case digits, %d the decimal ones |
| WifiConfig.DigitsRead | software/realtouch/applications/libwifi.c:104-113 | Digits of both cases are read, and everything else is -1 |
| WifiConfig.HexByteCuts | software/realtouch/applications/libwifi.c:154 | The byte is the shift and the or of the two digit values in two's complement, cut to eight bits |
| WifiConfig.LowerSsid | software/realtouch/applications/libwifi.c:98-102 | The keys are read in lower case |
| WifiConfig.UpperPassword | software/realtouch/applications/libwifi.c:98-102 | The keys are read in upper case |
| WifiConfig.OtherLinesIgnored | software/realtouch/applications/libwifi.c:129-158 | A line that begins with no key changes nothing |
| WifiConfig.LoadStopsAtEmptyLine | software/realtouch/applications/libwifi.c:126-127 | A load ends at the first empty line |
| WifiConfig.HexByteUndoesHex2 | software/realtouch/applications/libwifi.c:104-113 | The hexadecimal parser undoes %02x |
| WifiConfig.AddressReads | software/realtouch/applications/libwifi.c:145-157 | The address loop reads as many bytes as were printed, up to six, from every index on, and leaves the others |
| WifiConfig.ReadLine | software/realtouch/applications/libwifi.c:74-96 | The line loop in place |
| WifiConfig.OverrunExactlyUnlessFits | software/realtouch/applications/libwifi.c:115-165 | A load overruns none of its arrays if and only if every line up to the first empty one fits the line buffer and its value the field |
| WifiConfig.OverrunIsReached | software/realtouch/applications/libwifi.c:129-132 | A file with a name of 16 characters overruns the field |
| WifiConfig.StrCpy | software/realtouch/applications/libwifi.c:131-136 | The copy into a field, in place |
| WifiConfig.WlanNvm.constructor | software/realtouch/applications/libwifi.c:16-24 | Empty settings |
| WifiConfig.WlanNvm.ApplyLine | software/realtouch/applications/libwifi.c:129-157 | One line of the load loop, in place |
| WifiConfig.WlanNvm.LoadConfig | software/realtouch/applications/libwifi.c:115-165 | The load loop in place |

## Left out

- JsonParser.Parser.constructor: depths outside 0..127, for which `JsonDepth.ModesFitExactly` says that the array of
  modes is too small for some text, and failing allocations.
- JsonParser.Parser.Char: the callback is installed and never stops the parser; a false return ends the run. Events of
  a call that returns false are not specified.
- JsonParser.Parser.ReportPending: what `strtod` and `sscanf` make of a number. The event carries the number's text, to
  which blanks may be attached.
- `JSON_parser_is_legal_white_space_string`, error strings and configuration defaults: easy one-loop members.
- NetTheorems.WokenInTime: fairness of the scheduler. Semaphore operations always succeed, the ring is allocated, its
  size times 90 does not overflow, and no read asks for more than the ring holds.
- NetTheorems.NeverBothBlocked: steps finer than the atomic steps above, for instance between a copy and the update of
  its index. One application thread starts jobs.
- NetTheorems.DeliveredIsPrefix: bytes read in STOPPING and STOPPED; after a stop during SUSPEND one copy goes in
  unguarded before the reset.
- CodecRuns.QueueIsFifo: `tx_complete` is set, there is one writing thread, the codec is the I2S master; the slave-mode
  sample rate change in the interrupt and the register writes are not modelled.
- Mp3Decoder.Decoder.Run: the Helix decoder, whose answers are arbitrary choices in range, and the sample-rate
  control call.
- AudioPath.BlocksAreConserved: another thread that writes to the codec beside the decoder.
- EthTx.FilledIsFree: late interrupts, for which `EthTx.FilledIsFreeExactly` says when it holds.
- EthTx.SentInOrder: poll demands, checksum offload and the zeroing of the ICMP checksum in the buffer; one sending thread.
- EthRx.FramesInOrder: frames in more than one descriptor; a good frame is taken to hold at least its four CRC bytes.
- EthDriver.TxChain.HandOver: the pbufs are copied to a packet of the descriptor's size; that the descriptors' buffers
  lie side by side in one memory block is not modelled.
- UartTx.ListIsQueue: allocation order inside the memory pool; the `prev` pointer of the head, which is left pointing
  at a freed node and is never read.
- UartRx.RxRing.Read: interrupts between two bytes of one read are covered by `UartRx.ReadsInOrder`, not by this method.
- Shoutcast.ShoutcastSession.StripMetadata: reads for which the C code gives memmove a negative length.
- Shoutcast.ShoutcastSession.ReadSession: the same reads.
- Shoutcast.ShoutcastSession.SkipPending: the same reads, in the branch for a pending block.
- Shoutcast.ShoutcastSession.SkipInside: the same reads, in the branch for a block inside the read.
- Shoutcast.SessionStrips: streams without metadata (a metaint of 0), for which `Shoutcast.WithoutMetaintDamages` says
  what happens, and a failing receive of the single length byte.
- UsbControl.CompleteMeansAllStages: data toggles, the channel setup, and bulk transfers.
- WifiConfig.SaveThenLoad: file system errors; names and passwords of other lengths than the fixed arrays allow.
- WifiConfig.WlanNvm.ApplyLine: lines whose value overruns its field.
- WifiConfig.WlanNvm.LoadConfig: what memory a load that overruns an array would change.
- Peripheral set-up, LCD, touch and user interface code, sockets, DNS and HTTP headers, the SD card and USB device
  drivers: register and library plumbing without the kind of state these proofs are about.
