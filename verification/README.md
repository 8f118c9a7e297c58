# Document codecs and task lifetimes, verified

A Dafny model of two parts of the library, and proofs about them.

**The document codecs.** `Value` trees are printed and parsed as JSON (`src/io/Json.cpp`), packed and
unpacked in a tagged big-endian wire form (`src/Value.cpp`, `include/common/Value.h`,
`include/common/Serialize.hpp`), compared (`valueEqual`), and merged (`include/common/ValueJson.h`), all
over an insertion-ordered map (`include/common/FiFoMap.h`). Encoder, parser, archives and map are classes
with the fields the source has; each method is proved against a function, and the theorems are about those
functions. JSON also has a grammar of its own (`JsonGrammar`), written without any parser: the parser is
proved to accept exactly the texts that denote something, and to return what they denote.

**The task-lifetime protocols.** Each is a state machine whose steps are the blocks under a lock or the
single atomic operations of the source, interleaved over any number of threads: the teardown gate and the
owner's `RunAndWait` (`src/runtime/AppRuntime.cpp`), `Lifetime` (`include/common/Lifetime.h`),
`RunAndWait` on a `ThreadExecutor` (`src/SerialExecutor.cpp`, `src/ThreadExecutor.cpp`),
`CoordinatorThread` and `OwnerTasks` (`src/runtime/`). `ManualExecutor` (`src/ManualExecutor.cpp`) is
deterministic: its drains are functions that terminate by the number of program nodes not yet run, and its
class is proved to compute them. Beside the machines of the gate, Lifetime, ThreadExecutor, CoordinatorThread and
OwnerTasks stand classes with the blocks as methods, proved against the very functions the machines step by.
What such a shared function decides is stated once more without it, on the plain fields and over runs (`GateDecisions`,
`ManualOrder`, `ExecutorOrder`, `CoordinatorTurns`, `CoordinatorProgress`, `OwnerTasksStarts`); so are the tokens of JSON
(`JsonTokens`) and the bytes of the wire form (`WireLayout`, `WireGrammar`).

| files | what they hold |
|---|---|
| Bytes, Values, FiFoMap, DeepMerge, ValueEquality | bytes, trees, the map, merging, equality |
| Utf8, JsonWriter, JsonReading, JsonParser, JsonGrammar, JsonTokens, JsonRoundTrip | JSON: text as functions, encoder and parser classes, grammar, what escapes and digits stand for, theorems |
| WireFormat, WireArchive, WireCodec, WireLayout, WireGrammar, WireRoundTrip | the wire form: bytes as functions, archive and decoder classes, its layout and exactly which bytes are read, theorems |
| TeardownGate, GateProtocol, GateDecisions, GateAnswers | the gate's blocks, all their interleavings, what each decides, and what a quiesce call may be believed |
| Lifetime, LifetimeProtocol | bound calls, and all their interleavings |
| Sets | sizes of finite sets |
| Deadlines, ManualTime, ManualRuns, ManualOrder, ManualExecutor | the timer order, virtual time as functions, whole runs, when and in which order things run, the class |
| ThreadExecutor, ExecutorSleep, ExecutorOrder, RunAndWaitProtocol, OwnerRunAndWait | the executor's blocks, its thread's waits, what it runs next, and the two RunAndWait protocols |
| CoordinatorThread, CoordinatorProtocol, CoordinatorTurns, CoordinatorProgress | the coordinator's blocks, all their interleavings, the order of its posts and the turns of its timers, and that its steps lead to them |
| OwnerTasks, OwnerTasksProtocol, OwnerTasksStarts, OwnerTasksDrops | the operations, all their interleavings, which bodies may still start, and what dropping and closing stop |

Where the code does not keep a promise in general, the condition under which it does is part of the
theorem, and a lemma builds the case that fails:

- Keys that become equal when malformed UTF-8 is replaced are printed, and refused on re-parse
  (`JsonRoundTrip.CollidingKeys`; the exact condition is in `JsonRoundTrip.JsonRoundTrip`).
- JSON counts containers toward its limit of 128, the wire guard counts the leaf level too; both round
  trips state the exact bound.
- A second `QuiesceForTeardown` answers from `running` alone. Its yes means that no other thread has gated work in
  progress; that none starts before a reopen it means if and only if the gate is closed already, or no post is queued and
  the caller is not in gated work itself (`GateAnswers.SecondAnswer`).
- A reopen between a call leaving Open and its close may let that call close the next epoch, whose posts are then skipped
  (`GateAnswers.CrossedSkipsAPost`); when nobody does that, a drained quiesce skips nothing (`GateAnswers.PatientSkipsNothing`).
- A caller of `RunAndWait` may come to run its work beside what the executor's thread still runs, although
  `include/common/SerialExecutor.h` says that nothing runs there any more: if and only if its Post finds the executor stopped with
  something in hand. Before the call it is safe exactly on a stopped executor with nothing in hand, as after Stop returned
  (`RunAndWaitProtocol.OverlapAtPost`, `OverlapBeforeCall`, `NoOverlapAfterStop`).
- `AppRuntime::RunAndWait` runs work a second time if and only if it threw on the owner, or the owner came to run it after
  the caller had decided to; the latter needs a Manual owner and a second driver (`OwnerRunAndWait.RunsAtReturn`, `DrivenAloneRunsOnce`).
- After `DropPending` or `Close` a body bound before may start if and only if a delivery was on its way to it; on the owner
  none is (`OwnerTasksDrops.InvalidateIsExact`). After `Cancel` a timer's body may start if and only if it was claimed
  (`OwnerTasksProtocol.CancelIsExact`).
- `include/common/runtime/CoordinatorThread.h` says that scheduling returns 0 before Start; the code returns 0 only
  when stopped (or for an invalid interval), and the model follows the code (`CoordinatorProtocol.SchedulingIgnoresStart`).

`dafny verify dfyconfig.toml` checks the whole project.

## Model

| member | source | states |
|---|---|---|
| FiFoMaps.SetLaws | include/common/FiFoMap.h:40-59 | setting keeps keys distinct, an existing key keeps its position and a new one goes last; every lookup changes only at the key |
| FiFoMaps.EraseLaws | include/common/FiFoMap.h:93-107 | erasing removes one key from every lookup and keeps the relative order of the others |
| FiFoMaps.EraseInverse | include/common/FiFoMap.h:98-105 | decrementing the positions behind the erased one keeps the index exactly the inverse of the entry positions |
| FiFoMaps.FiFoMap.ValidIndex | include/common/FiFoMap.h:131-134 | whenever index and entries agree, the keys are distinct and the index answers as a linear search |
| FiFoMaps.FiFoMap.Set | include/common/FiFoMap.h:40-48 | index and entries still agree, and the entries are those of an assignment in a list |
| FiFoMaps.FiFoMap.Erase | include/common/FiFoMap.h:93-107 | index and entries still agree, the entry is gone, and the result says whether it was there |
| FiFoMaps.FiFoMap.Reindex | include/common/FiFoMap.h:101-105 | the loop lowers exactly the positions behind the erased one, each by one |
| FiFoMaps.FiFoMap.TryGet | include/common/FiFoMap.h:61-75 | the lookup through the index is a linear search |
| FiFoMaps.FiFoMap.Contains | include/common/FiFoMap.h:37 | membership in the index is membership in the list |
| FiFoMaps.FiFoMap.Clear | include/common/FiFoMap.h:32-35 | both the entries and the index are empty again |
| DeepMerge.DeepMergeObject | include/common/ValueJson.h:87-101 | the in-place loop leaves the recursive merge of the two objects, with distinct keys at every level |
| DeepMerge.MergeLaws | include/common/ValueJson.h:86-101 | base keys in order, then the overlay's new keys in order; each key holds its own merged value |
| DeepMerge.MergeIdempotent | include/common/ValueJson.h:86-101 | merging the same overlay twice is merging it once |
| DeepMerge.MergeSelf | include/common/ValueJson.h:86-101 | merging an object into itself is the identity |
| DeepMerge.MergeAtPath | include/common/ValueJson.h:86-101 | along every path objects recurse and everything else replaces |
| ValueEquality.ValueEqual | src/Value.cpp:34-74 | decides equality of trees, element by element and with doubles as numbers |
| ValueEquality.ObjectEqual | src/Value.cpp:304-319 | decides equality of objects, entry by entry in order |
| ValueEquality.EqualityMeans | src/Value.cpp:34-74 | trees are equal exactly when they hold no NaN and differ at most in the signs of zeros |
| ValueEquality.EqualityLaws | src/Value.cpp:34-74 | symmetric and transitive; a tree equals itself exactly when it holds no NaN |
| ValueEquality.DoublesAsNumbers | src/Value.cpp:71 | two doubles are equal exactly when their bits stand for the same number (sign, exponent and fraction of IEEE 754, both zeros being one number); a NaN is the pattern that stands for none |
| Utf8.LeadMasks | src/io/Json.cpp:49-61 | the bit masks on lead bytes are the ranges the model uses |
| Utf8.ContinuationBits | src/io/Json.cpp:111-127 | the shifts and masks of the encoder are the divisions the model uses |
| Utf8.EncodeIsChar | src/io/Json.cpp:111-127 | a code point's encoding is accepted by the table exactly when it is a scalar value, and decodes to it (sections 3 and 4 of RFC 3629) |
| Utf8.CharIsEncoded | src/io/Json.cpp:47-73 | every sequence the table accepts is the encoding of the scalar value it decodes to |
| Utf8.SanitiseIsValid | src/io/Json.cpp:170-186 | replacing malformed bytes always leaves valid UTF-8 |
| Utf8.SanitiseIdentity | src/io/Json.cpp:164-186 | it changes nothing exactly on valid UTF-8, and is idempotent |
| JsonWriter.Encoder.CheckSequence | src/io/Json.cpp:170-179 | the byte-by-byte check finds the length of the well-formed sequence, 0 if there is none |
| JsonWriter.Encoder.AppendEscapedJsonString | src/io/Json.cpp:129-190 | the loop appends exactly the quoted, escaped, sanitised string |
| JsonWriter.Encoder.AppendJsonObject | src/io/Json.cpp:202-245 | appends the object's text, or fails exactly when it has none (depth, or a value inside) |
| JsonWriter.Encoder.AppendJsonArray | src/io/Json.cpp:291-318 | the same for arrays |
| JsonWriter.Encoder.AppendJsonValue | src/io/Json.cpp:247-322 | the same for every kind of value |
| JsonWriter.ValueToJsonString | src/io/Json.cpp:686-693 | the text of the tree, or an error exactly when it has none |
| JsonWriter.ObjectToJsonString | src/io/Json.cpp:709-718 | the object's text, or the small error object |
| JsonRoundTrip.ErrorTextReads | src/io/Json.cpp:712-715 | the error object is valid JSON whatever the message, and carries the sanitised message |
| JsonParser.Parser.AppendValidatedUtf8 | src/io/Json.cpp:416-437 | copies one sequence exactly when the shared validator accepts it |
| JsonParser.Parser.ParseHex4 | src/io/Json.cpp:452-465 | reads four hex digits, or fails |
| JsonParser.Parser.ParseString | src/io/Json.cpp:467-550 | the string loop with its escapes and surrogate pairs refines the specification, and stops where it does |
| JsonParser.Parser.ParseNumber | src/io/Json.cpp:552-612 | the same for numbers, with the int64 range check |
| JsonParser.Parser.ParseObject | src/io/Json.cpp:614-653 | the same for objects, refusing duplicate keys; the depth is restored |
| JsonParser.Parser.ParseArray | src/io/Json.cpp:655-681 | the same for arrays |
| JsonParser.Parser.ParseValue | src/io/Json.cpp:339-377 | the same for values; the depth is restored on every path |
| JsonParser.ValueFromJsonString | src/io/Json.cpp:695-707 | the whole text is read, and nothing may follow it |
| JsonTokens.EscapeReads | src/io/Json.cpp:518-542 | every scalar value, written as the \u escapes of its UTF-16 units with hex digits in either case, is read as its UTF-8 encoding, and the text after it is left |
| JsonTokens.EscapeOnly | src/io/Json.cpp:518-542 | no other \u escape is read: a half of a surrogate pair without its other half is refused |
| JsonTokens.EscapedStringReads | src/io/Json.cpp:467-550 | a whole string of such escapes is read as the encodings of its scalar values |
| JsonTokens.ShortEscapesRead | src/io/Json.cpp:497-546 | which eight letters may follow a backslash and which byte each stands for; any other letter but u is refused |
| JsonTokens.AsciiPrinted | src/io/Json.cpp:133-160 | what the printer writes for each ASCII byte: those escapes, \u for the other control bytes, the byte itself otherwise |
| JsonTokens.IntegerByPlace | src/io/Json.cpp:552-612 | an integer token has the value of its digits by their places, negated after a minus, exactly when that is an int64 |
| JsonTokens.LineBreaks | src/io/Json.cpp:192-197 | a line break is a line feed and `indent * depth` spaces, and nothing when printing compactly |
| JsonGrammar.StringComplete | src/io/Json.cpp:467-550 | every string of RFC 8259 (section 7) is read as what its pieces denote |
| JsonGrammar.PiecesSound | src/io/Json.cpp:473-548 | whatever the string loop accepts is such a sequence of pieces |
| JsonGrammar.ParseNumberComplete | src/io/Json.cpp:552-612 | every number of RFC 8259 (section 6) that nothing continues is read to its end, and has the value of its token |
| JsonGrammar.NumberSound | src/io/Json.cpp:552-589 | whatever the number scan accepts is such a number |
| JsonGrammar.ValueComplete | src/io/Json.cpp:339-377 | every value's text is read as what it denotes, leaving what follows, and is refused when it denotes nothing (duplicate keys, depth, range) |
| JsonGrammar.ValueSound | src/io/Json.cpp:339-377 | whatever is accepted is the text of a value that denotes the result |
| JsonGrammar.DocumentComplete | src/io/Json.cpp:695-707 | the same for whole documents |
| JsonGrammar.DocumentSound | src/io/Json.cpp:695-707 | the parser accepts nothing but documents |
| JsonRoundTrip.StringRoundTrip | src/io/Json.cpp:129-190 | parsing an escaped string consumes exactly the emitted text and returns the sanitised string, for all bytes |
| JsonRoundTrip.DecimalReads | src/io/Json.cpp:256-264 | a printed integer is a number of the grammar and reads back as itself |
| JsonRoundTrip.Printable | src/io/Json.cpp:199-322 | a double-free tree is printable exactly when its u64 fit int64 and it nests at most 128 containers |
| JsonRoundTrip.LayoutText | src/io/Json.cpp:199-322 | what is printed, with any indent, is the text of a syntax tree |
| JsonRoundTrip.LayoutDenotes | src/io/Json.cpp:199-322 | that syntax tree denotes the JSON form of the value exactly when keys stay distinct |
| JsonRoundTrip.JsonRoundTrip | src/io/Json.cpp:686-707 | for every double-free tree and every indent: printing succeeds exactly when the numbers and the depth fit, and then parsing returns the tree (keys in order, u64 as i64, strings sanitised) exactly when its keys stay distinct after sanitising |
| JsonRoundTrip.CollidingKeys | src/io/Json.cpp:631-633 | two distinct malformed keys are printed and refused on the way back |
| JsonRoundTrip.PiecesAreValid | src/io/Json.cpp:518-544 | every accepted escape or surrogate pair is a scalar value, so parsed strings are valid UTF-8 |
| JsonRoundTrip.AcceptedIsNormal | src/io/Json.cpp:339-377 | an accepted tree has valid UTF-8 strings, distinct keys, signed integers and at most 128 nested containers |
| JsonRoundTrip.AcceptedReparses | src/io/Json.cpp:686-707 | an accepted double-free tree prints with any indent and reads back as itself |
| WireArchive.ReversedAt | include/common/Serialize.hpp:52-59 | byte k of a swapped value is byte size-1-k |
| WireArchive.ReversedTwice | include/common/Serialize.hpp:63-83 | the conversions to and from big endian undo each other |
| WireArchive.SwapBytes | include/common/Serialize.hpp:52-59 | the in-place loop reverses the bytes |
| WireArchive.ToBigEndian | include/common/Serialize.hpp:63-72 | on either kind of machine the bytes are the big-endian ones |
| WireArchive.OutputArchive.WriteInteger | include/common/Serialize.hpp:174-199 | appends the big-endian bytes |
| WireArchive.OutputArchive.WriteString | include/common/Serialize.hpp:213-219 | appends the length and the bytes |
| WireArchive.InputArchive.ReadInteger | include/common/Serialize.hpp:573-580 | reads one integer, or fails for good on a short input |
| WireArchive.InputArchive.ReadBool | include/common/Serialize.hpp:482-496 | reads exactly 0 or 1, anything else fails |
| WireArchive.InputArchive.ReadString | include/common/Serialize.hpp:602-631 | reads a string within 64 MiB, leaving what follows; otherwise the failure sticks |
| WireArchive.InputArchive.ReadChunks | include/common/Serialize.hpp:618-629 | the chunk loop reads exactly the declared bytes, or fails exactly when they are not there |
| WireArchive.InputArchive.ExactEnd | include/common/Serialize.hpp:922-924 | no failure and nothing left |
| WireCodec.ValueToWire | src/Value.cpp:88-133 | the tagged form of every kind of value, on either kind of machine |
| WireCodec.WireDecoder.WireToValue | src/Value.cpp:135-230 | refines the decoding function; the depth counter is restored on every path |
| WireCodec.WireDecoder.DecodeArray | src/Value.cpp:197-226 | the element loop, which refuses unknown tags and trailing bytes |
| WireCodec.WireDecoder.SerializeObject | include/common/Value.h:79-109 | the entry loop: fields in order, or a sticky failure and no fields |
| WireCodec.WireDecoder.SerializeEntry | include/common/Value.h:85-107 | one entry: a duplicate key or malformed value fails, an unknown tag adds nothing |
| WireCodec.UnpackObject | include/common/BinaryPack.hpp:24-36 | the whole input is one object |
| WireRoundTrip.IntegerReads | include/common/Serialize.hpp:573-580 | an integer followed by anything is read as itself, leaving the rest |
| WireRoundTrip.StringReads | include/common/Serialize.hpp:602-631 | so is a string, exactly when it has at most 64 MiB |
| WireRoundTrip.WireReads | include/common/Value.h:57 | so is a tagged value |
| WireRoundTrip.EntriesRead | include/common/Value.h:83-108 | any list of entries followed by anything is read entry by entry |
| WireRoundTrip.WireRoundTrip | src/Value.cpp:88-230 | decoding the encoding returns the tree, keys in order and doubles bit for bit, exactly when keys and payloads fit 64 MiB and the levels fit the guard of 128; any other tree is refused |
| WireRoundTrip.ObjectRoundTrip | include/common/Value.h:79-117 | the same for an object followed by any bytes, which are left unread |
| WireRoundTrip.PackRoundTrip | include/common/BinaryPack.hpp:14-36 | the same for a packed object on its own |
| WireRoundTrip.ElementsRoundTrip | src/Value.cpp:197-226 | the same for the elements of an array |
| WireRoundTrip.UnknownEntriesSkipped | include/common/Value.h:98-106 | entries with unknown tags change nothing, provided their keys and payloads are readable and not already present; otherwise the object is refused |
| WireRoundTrip.ForwardSkip | src/Value.cpp:227-228 | an object with such entries among its own decodes to the object |
| WireRoundTrip.UnknownElementRefused | src/Value.cpp:212-218 | an unknown tag in an array fails the decode |
| WireLayout.BytesByPlace | include/common/Serialize.hpp:63-83 | an integer is the sum of its bytes by their places, the first byte most significant |
| WireLayout.WritesBack | include/common/Serialize.hpp:174-199 | so many bytes are the only encoding of the integer they are read as |
| WireLayout.PayloadsByTag | include/common/Value.h:45-52 | the tag number of each kind of value, and the bytes of its payload (two's complement for negative integers) |
| WireLayout.TagsDecide | src/Value.cpp:135-230 | a value is read from its own tag only; exactly the tags outside 1 to 8 are skipped |
| WireLayout.ScalarsAreCanonical | include/common/BinaryPack.hpp:24-36 | a number, bool or string is read from exactly its own encoding: other lengths, a bool byte above 1, a length beyond the bytes or the cap, and trailing bytes are refused |
| WireGrammar.ObjectIsExact | src/Value.cpp:185-196 | a payload is read as an object if and only if it is empty and so is the object, or it is a count and exactly so many entries that make the object up |
| WireGrammar.PackedIsExact | include/common/BinaryPack.hpp:24-36 | packed bytes unpack to an object if and only if they are its count and entries, with nothing after them |
| WireGrammar.ArrayIsExact | src/Value.cpp:197-226 | a payload is read as an array if and only if it is a count and exactly so many wire values, each read as its element |
| TeardownGates.TeardownGate.Settle | src/runtime/AppRuntime.cpp:180-186 | a post is counted off once, however often it is settled |
| TeardownGates.TeardownGate.DropPost | src/runtime/AppRuntime.cpp:187-193 | a destroyed post is counted off unless it was settled |
| TeardownGates.TeardownGate.Wrap | src/runtime/AppRuntime.cpp:253-267 | which posts are accepted in which state, and that exactly those are counted |
| TeardownGates.TeardownGate.Begin | src/runtime/AppRuntime.cpp:268-292 | whether the wrapped work runs, and what that does to both counts |
| TeardownGates.TeardownGate.StartQuiesce | src/runtime/AppRuntime.cpp:445-451 | only a call that finds the gate open drains it; another answers from the running count |
| TeardownGates.TeardownGate.Reopen | src/runtime/AppRuntime.cpp:491-498 | a new epoch, unless the gate is open |
| GateProtocol.StepKeepsInv | src/runtime/AppRuntime.cpp:253-302 | every step of every thread keeps the invariant |
| GateDecisions.PostIsExact | src/runtime/AppRuntime.cpp:257-267 | in every reachable world a post is taken and counted if and only if the gate is open, or draining while the thread is in gated work; else nothing changes |
| GateDecisions.BeginIsExact | src/runtime/AppRuntime.cpp:268-290 | a wrapped task that begins is started if and only if: a post, the gate is not closed and in its epoch; a one-shot timer, open and in its epoch; a repeating timer, open; and what that does to the counts and the thread |
| GateDecisions.WrappedRunsExactly | src/runtime/AppRuntime.cpp:253-290 | over runs: whenever what was wrapped begins, it runs if and only if no reopen of a gate that was not open came since (a repeating timer does not mind) and the gate is open, or for a post not closed |
| GateDecisions.TaskIsBracketed | src/runtime/AppRuntime.cpp:289-301 | what began runs its body one level deeper and leaves the thread and `running` as they were |
| GateDecisions.DroppedNeverRuns | src/runtime/AppRuntime.cpp:183-196 | a post destroyed by its mailbox is settled and stays dropped over every later run |
| GateDecisions.PollIsExact | src/runtime/AppRuntime.cpp:465-477 | a poll of a quiesce is drained if and only if no accepted post is unsettled and no other thread is in gated work; else it goes on, or gives up when the time is over |
| GateDecisions.StateOfStep | src/runtime/AppRuntime.cpp:445-498 | which steps move the gate between its states, and that exactly reopening a gate that is not open starts an epoch |
| GateProtocol.GateConservation | src/runtime/AppRuntime.cpp:156-197 | in every reachable state `pending` is the number of accepted posts not run, skipped or destroyed, and `running` the number of gated runs in progress, at least any thread's depth |
| GateProtocol.DrainedQuiesceIsQuiet | src/runtime/AppRuntime.cpp:443-489 | from the moment the call that left Open sees the gate drained until a reopen, across the unlocked window too, no gated work is in progress except what encloses the call, and nothing is pending |
| GateProtocol.NoneStartsUntilReopen | src/runtime/AppRuntime.cpp:443-489 | no step of any thread starts gated work before the reopen |
| GateProtocol.DrainedSkipsNothing | src/runtime/AppRuntime.cpp:253-302 | after a drained quiesce the gate itself skipped no post of the epoch, unless a call of an earlier epoch closed it meanwhile |
| GateAnswers.PatientNeverCrosses | src/runtime/AppRuntime.cpp:452-498 | over every run in which nobody reopens between a call leaving Open and its close, no call closes an epoch it did not open |
| GateAnswers.PatientSkipsNothing | src/runtime/AppRuntime.cpp:253-302 | in every such run a drained quiesce means that the gate skipped no post of the epoch: each was run, or destroyed by its mailbox |
| GateAnswers.CrossedSkipsAPost | src/runtime/AppRuntime.cpp:478-498 | otherwise it can happen: a post of the epoch is skipped and its quiesce drains all the same |
| GateProtocol.TasksAreKept | src/runtime/AppRuntime.cpp:175-193 | over every run a post settles once: started, skipped or destroyed it stays so |
| GateProtocol.OldEpochStaysDead | src/runtime/AppRuntime.cpp:491-498 | posts and one-shot timers of an earlier epoch never start after a reopen |
| GateAnswers.SecondAnswer | src/runtime/AppRuntime.cpp:445-451 | a call that finds the gate not open answers yes exactly when no other thread has gated work in progress; after a yes none starts in any run before a reopen if and only if the gate is closed, or no post of the epoch is queued and the caller is not in gated work |
| GateAnswers.SecondCallIgnoresPending | src/runtime/AppRuntime.cpp:447-449 | a reachable world where it answers yes with a post still queued |
| Lifetimes.EnteredCalls.EraseLast | include/common/Lifetime.h:95-101 | the backward loop removes the innermost entry of that state only |
| Lifetimes.EnteredCalls.InsideOnThisThread | include/common/Lifetime.h:116-122 | counts the calls this thread is inside |
| Lifetimes.EnteredCalls.EnterCall | include/common/Lifetime.h:70-76 | counted first, then entered (one more call of this object on the thread, none of another), then checked |
| Lifetimes.EnteredCalls.LeaveCall | include/common/Lifetime.h:94-104 | one call of this object less on the thread's list, none of another, and one less counted |
| Lifetimes.EnteredCalls.StartWait | include/common/Lifetime.h:55-57 | the bump, and the number of the thread's own calls of this object |
| Lifetimes.Load | include/common/Lifetime.h:58-59 | one look of the wait: over exactly when no more calls run than its own |
| LifetimeProtocol.StepKeepsInv | include/common/Lifetime.h:55-110 | every step of every thread keeps the invariant |
| LifetimeProtocol.CheckIsExact | include/common/Lifetime.h:74-77 | in every reachable world a call that was just counted enters its body if and only if the generation is the one it was bound in |
| LifetimeProtocol.BoundCallRuns | include/common/Lifetime.h:66-79 | over runs: a call bound at some point, called on any thread however much later, enters its body if and only if nobody invalidated between the bind and its check |
| LifetimeProtocol.CallIsBracketed | include/common/Lifetime.h:70-105 | a call, run or skipped, leaves the count and its thread as they were, and no waiter asleep |
| LifetimeProtocol.QuietAfterWait | include/common/Lifetime.h:54-62 | after InvalidateAndWait returned on a thread, no other thread is in, or ever enters, the body of a call bound before the bump |
| LifetimeProtocol.OwnCallsDoNotBlock | include/common/Lifetime.h:57-61 | calls nested on the waiting thread do not hold its wait |
| LifetimeProtocol.ReturnsOnlyWhenAlone | include/common/Lifetime.h:58-61 | the wait ends only when no other thread is counted |
| LifetimeProtocol.NoLostWakeUp | include/common/Lifetime.h:60-103 | a waiter asleep on a count that has gone down always has a notifier to come |
| LifetimeProtocol.WaitIsExact | include/common/Lifetime.h:58-61 | one turn of the wait: over exactly when no more calls run than its own, asleep exactly while the count is the one it saw |
| LifetimeProtocol.WaitEnds | include/common/Lifetime.h:54-62 | once the calls on other threads are over, every wait can end in at most three steps, also one that is asleep |
| Lifetimes.OccurrencesCount | include/common/Lifetime.h:117-123 | the number of own calls is the multiplicity of the object in the thread's list |
| Deadlines.Inserted | include/common/ManualExecutor.h:60 | inserting keeps the set ordered by time and id, with each id once |
| ManualTime.ExecuteKeeps | src/ManualExecutor.cpp:7-37 | whatever a program posts, schedules or cancels: one entry per live timer, none before now, in order; and the work left grows by no more than the program's own nodes |
| ManualTime.FireKeeps | src/ManualExecutor.cpp:81-88 | firing the first timer sets the clock to its deadline, keeps the state valid and lowers the work left |
| ManualExecutors.ManualExecutor.PostAfter | src/ManualExecutor.cpp:19-28 | the timer has its entry at now plus the delay (a negative one is none), under a new id |
| ManualExecutors.ManualExecutor.CancelTimer | src/ManualExecutor.cpp:30-37 | a live timer goes, its entry stays in the order |
| ManualExecutors.ManualExecutor.RunPending | src/ManualExecutor.cpp:52-60 | the loop computes the drain of the queue, terminates, and returns how many ran |
| ManualExecutors.ManualExecutor.AdvanceBy | src/ManualExecutor.cpp:62-92 | the clock is later by the amount (a negative one is none); the nested loops compute the advance, terminate, and return how many ran |
| ManualExecutors.ManualExecutor.RunAndWait | src/ManualExecutor.cpp:39-50 | inline from a running program, else queued and drained |
| ManualExecutors.ManualExecutor.RunOne | src/ManualExecutor.cpp:114-125 | runs the program and gives the driver's identity back as it was |
| ManualExecutors.ManualExecutor.PurgeCancelled | src/ManualExecutor.cpp:73-76 | cancelled entries leave the front of the order, nothing else changes |
| ManualRuns.TimeComposition | src/ManualExecutor.cpp:62-92 | two advances are one advance by their sum: same trace with times, same count, same final state, for all programs and amounts; an advance by a negative amount is one by 0 |
| ManualRuns.StepsCompose | src/ManualExecutor.cpp:62-92 | however a stretch of time is cut into advances, the run is the same |
| ManualRuns.RunsAreGood | src/ManualExecutor.cpp:19-92 | over all runs: fired (deadline, id) pairs strictly increase, each timer fires once with the clock at its deadline, and every scheduled timer is live, fired or cancelled, exactly one of them |
| ManualRuns.AdvanceLeavesNothingDue | src/ManualExecutor.cpp:62-92 | the clock has moved by the amount, the queue is empty and every live timer is later than now |
| ManualOrder.FiresAtItsTime | src/ManualExecutor.cpp:19-92 | over all runs: a timer set for delay d at time n has fired, with the clock at n + d, as soon as an advance has brought the clock there, unless it was cancelled; and not before |
| ManualOrder.RunPendingOrder | src/ManualExecutor.cpp:52-60 | draining runs exactly what is queued and what that posts, each once, first come first run, and what is run inline at its place |
| ManualOrder.FireOrder | src/ManualExecutor.cpp:81-90 | a timer that fires runs its own program, and what that posted runs before the next timer |
| ThreadExecutors.DueSplits | src/ThreadExecutor.cpp:54-63 | the ordered set splits into what is due and the rest, with each id in one part only |
| ThreadExecutors.QueuedWhenDue | src/ThreadExecutor.cpp:54-63 | a live timer is queued by the first look at or after its deadline and not before |
| ThreadExecutors.ThreadExecutor.PostAfter | src/ThreadExecutor.cpp:27-43 | a new id, with its entry at now plus the delay (a negative one is none); 0, and no change, exactly when stopped |
| ThreadExecutors.ThreadExecutor.QueueDueTimersLocked | src/ThreadExecutor.cpp:54-63 | the loop moves exactly the live due timers to the queue, earliest first |
| ThreadExecutors.ThreadExecutor.Stop | src/ThreadExecutor.cpp:65-75 | everything queued or scheduled is taken out, and nothing else |
| ThreadExecutors.ThreadExecutor.TakeNext | src/ThreadExecutor.cpp:88-107 | one look of the thread: the front of the queue after the due timers joined it, or nothing |
| ExecutorSleep.StepKeepsInv | src/ThreadExecutor.cpp:82-107 | every step of the thread and of its callers keeps the invariant: in order, and asleep with something to do only if a notification is to come |
| ExecutorSleep.NeverOversleeps | src/ThreadExecutor.cpp:87-104 | while the thread sleeps with no notification in flight it is not stopped, nothing is queued, and every deadline is when it wakes or later |
| ExecutorOrder.LookIsExact | src/ThreadExecutor.cpp:84-107 | one look: it ends exactly when stopped, else runs the front of the queue, which the due timers have joined in the order of their deadlines, and waits exactly when nothing is there, until the next deadline if there is one |
| ExecutorOrder.QueueIsFifo | src/ThreadExecutor.cpp:12-107 | over every run until Stop: what began and what is still queued is what was queued and what joined, in that order |
| ExecutorOrder.ScheduledAt | src/ThreadExecutor.cpp:27-43 | a timer set for some delay has its entry at the time of the call plus the delay |
| ExecutorOrder.LiveTimerStays | src/ThreadExecutor.cpp:46-107 | a live timer keeps its entry until it is cancelled, the executor is stopped, or a look at or after its deadline runs or queues it, once |
| ExecutorOrder.QueuedTaskRuns | src/ThreadExecutor.cpp:82-115 | from wherever the thread is, its own steps lead to every queued task, in a bounded number |
| ExecutorOrder.DueTimerRuns | src/ThreadExecutor.cpp:82-115 | and to every live timer that is due |
| ExecutorOrder.SleeperIsSignalled | src/ThreadExecutor.cpp:24-100 | asleep with something to do it has been signalled or the next notification signals it |
| ThreadExecutors.Rendezvous.Settle | src/SerialExecutor.cpp:15-24 | the first outcome stays |
| ThreadExecutors.Ticket.Run | src/SerialExecutor.cpp:49-56 | started once, and settled as ran whether it returns or throws |
| ThreadExecutors.Ticket.Destroy | src/SerialExecutor.cpp:45 | settled as dropped unless it ran |
| RunAndWaitProtocol.StepKeepsInv | src/SerialExecutor.cpp:65-82 | every step of the callers, the executor's thread and Stop keeps the invariant |
| RunAndWaitProtocol.RunsExactlyOnce | src/SerialExecutor.cpp:65-82 | whatever the interleaving, what is to be run has run exactly once when the call returns, also when it throws, and never more than once |
| RunAndWaitProtocol.TaskOutlivesItsUse | src/SerialExecutor.cpp:73-77 | while the executor uses the caller's reference the caller has not returned |
| RunAndWaitProtocol.NeverUsedAfterReturn | src/SerialExecutor.cpp:73-81 | nothing uses it after the return, over every later run |
| RunAndWaitProtocol.StandsInWhenNothingRuns | include/common/SerialExecutor.h:34-35 | a caller runs its own work only on a stopped executor, and after its thread has ended unless Post refused it |
| RunAndWaitProtocol.OverlapAtPost | src/SerialExecutor.cpp:74-81 | at its Post: in some run from there the caller's run overlaps with the executor's, if and only if the executor is stopped with something in hand |
| RunAndWaitProtocol.OverlapBeforeCall | include/common/SerialExecutor.h:34-35 | before the call: no run overlaps exactly when the executor is stopped with nothing in hand |
| RunAndWaitProtocol.NoOverlapAfterStop | src/ThreadExecutor.cpp:65-80 | once the executor's thread has ended no call overlaps |
| RunAndWaitProtocol.RefusedMayOverlap | src/ThreadExecutor.cpp:17-19 | a reachable world in which a refused caller runs beside the executor |
| RunAndWaitProtocol.NeverStuck | src/SerialExecutor.cpp:26-30 | as long as a call has not returned, some thread has a step to take: one of the call's own, or one that brings the executor's thread nearer to it (that it does not sleep through its own is ExecutorSleep.NeverOversleeps) |
| RunAndWaitProtocol.StepsMakeProgress | src/SerialExecutor.cpp:65-82 | every step of a call brings it nearer to its return, in at most twelve, and none sets it back |
| RunAndWaitProtocol.CallCanReturn | src/SerialExecutor.cpp:65-82 | from every reachable point there is a run, without new work or Stop, in which the call returns |
| OwnerRunAndWait.StepKeepsInv | src/runtime/AppRuntime.cpp:740-773 | every step of the caller, the owner's drivers, Stop and shutdown keeps the invariant |
| OwnerRunAndWait.RunsAtReturn | src/runtime/AppRuntime.cpp:740-773 | for every call: it has run once at the return, and twice if and only if it threw on the owner or the owner came to run it after the caller had decided to |
| OwnerRunAndWait.DedicatedIsNotOvertaken | src/runtime/AppRuntime.cpp:764-769 | on a dedicated owner the call is settled before the caller decides |
| OwnerRunAndWait.DrivenAloneRunsOnce | src/runtime/AppRuntime.cpp:760-763 | when the caller alone drives the Manual owner: run exactly once if and only if it did not throw, and never used after the return |
| OwnerRunAndWait.UseAfterReturn | src/runtime/AppRuntime.cpp:755-772 | the owner may use the caller's reference after the return, in some run, exactly when its closure is queued, taken or running then, which only an overtaken call allows |
| OwnerRunAndWait.ThrowingTaskRunsAgain | src/runtime/AppRuntime.cpp:755-772 | work that throws on the owner runs a second time on the caller |
| OwnerRunAndWait.OvertakenTaskRunsAgain | src/runtime/AppRuntime.cpp:760-763 | with a second driver of a Manual owner it may run on both |
| OwnerRunAndWait.StepsEnd | src/runtime/AppRuntime.cpp:740-773 | every step of a call, whoever takes it, brings it nearer to its end, which is at most 13 away |
| OwnerRunAndWait.NeverStuck | src/runtime/AppRuntime.cpp:740-773 | and until it has returned there is such a step to take |
| Coordinators.CoordinatorThread.DequeueOneLocked | src/runtime/CoordinatorThread.cpp:209-227 | the next post in lane order, or nothing when all lanes are empty |
| Coordinators.CoordinatorThread.ScheduleOneShot | src/runtime/CoordinatorThread.cpp:110-128 | one more timer under a new id; 0, and no change, exactly when stopped or for a negative delay |
| Coordinators.CoordinatorThread.ScheduleRepeating | src/runtime/CoordinatorThread.cpp:89-108 | the same, 0 exactly when stopped or without a positive interval |
| Coordinators.CoordinatorThread.CancelTimer | src/runtime/CoordinatorThread.cpp:130-141 | the loop marks the timer of that id, if there is one |
| Coordinators.CoordinatorThread.NextTimerDeadlineLocked | src/runtime/CoordinatorThread.cpp:233-242 | the loop finds the least time of the live timers |
| Coordinators.CoordinatorThread.CollectDue | src/runtime/CoordinatorThread.cpp:248-259 | the loop collects exactly the due timers in list order; timer by timer, a due repeating one is armed again at now plus its interval, a due one-shot is spent, and any other is as it was |
| Coordinators.CoordinatorThread.EraseCancelled | src/runtime/CoordinatorThread.cpp:269-271 | only live timers stay, in their order |
| Coordinators.CoordinatorThread.StopLocked | src/runtime/CoordinatorThread.cpp:29-40 | lanes emptied and every timer marked |
| CoordinatorProtocol.StepKeepsInv | src/runtime/CoordinatorThread.cpp:156-207 | every step of the thread and of its callers keeps the invariant |
| CoordinatorProtocol.NeverOversleeps | src/runtime/CoordinatorThread.cpp:183-203 | while the thread sleeps with no notification in flight it is not stopped, nothing is posted, and every armed timer is due when it wakes or later |
| CoordinatorProtocol.OneShotsRunOnce | src/runtime/CoordinatorThread.cpp:244-272 | a one-shot runs at most once |
| CoordinatorProtocol.CancelledNeverRuns | src/runtime/CoordinatorThread.cpp:130-141 | a timer cancelled before it is collected, or between two turns, never runs again |
| CoordinatorProtocol.NoTimerIsLost | src/runtime/CoordinatorThread.cpp:244-272 | whatever callbacks arm or cancel mid-batch, an armed timer stays as it is until it is collected, cancelled or shut down (what collecting leaves of it is CoordinatorTurns.RepeatingStep) |
| CoordinatorProtocol.BatchIsRun | src/runtime/CoordinatorThread.cpp:260-267 | what was collected is run unless the coordinator stops |
| CoordinatorProtocol.CollectedWereDue | src/runtime/CoordinatorThread.cpp:249-259 | exactly the due timers are collected |
| CoordinatorProtocol.SchedulingIgnoresStart | src/runtime/CoordinatorThread.cpp:89-128 | an unstopped coordinator arms the timer, one-shot or repeating, for now plus the delay under an id that is not 0, started or not |
| CoordinatorTurns.PostsStayInOrder | src/runtime/CoordinatorThread.cpp:209-231 | for every step: a post goes to the back of its own lane, the thread takes the first in lane order and leaves the rest, only Shutdown drops any |
| CoordinatorTurns.ListOrder | src/runtime/CoordinatorThread.cpp:249-271 | each armed and due timer has its place in the batch, each uncancelled one keeps its place in the list |
| CoordinatorTurns.RepeatingStep | src/runtime/CoordinatorThread.cpp:249-259 | for every step: an armed repeating timer stays as it is, unless it is due and collected: then it is in the batch and armed again, uncancelled, at now plus its interval |
| CoordinatorTurns.RepeatingStaysArmed | src/runtime/CoordinatorThread.cpp:89-141 | over runs: it stays armed with its interval until its own cancel, a Shutdown or the join |
| CoordinatorTurns.TurnsAreCounted | src/runtime/CoordinatorThread.cpp:244-272 | over runs until Shutdown: a timer, repeating or not, has run, or is about to in the batch, exactly as often as looks found it armed and due |
| CoordinatorProgress.NextPostRuns | src/runtime/CoordinatorThread.cpp:156-207 | unless stopped or paused, from wherever the thread is, its own steps lead to the first post in lane order, in a bounded number |
| CoordinatorProgress.DueTimerRuns | src/runtime/CoordinatorThread.cpp:156-207 | and to a turn of every timer that is due |
| CoordinatorProgress.DecideIsExact | src/runtime/CoordinatorThread.cpp:176-203 | after its timers the thread sleeps exactly when nothing is posted and no armed timer was due: for ever without an armed timer, else until the earliest one |
| CoordinatorProgress.SleeperIsSignalled | src/runtime/CoordinatorThread.cpp:156-203 | asleep although what it waits for is there, it has been signalled or the next notification signals it |
| CoordinatorProgress.JoinedIsFresh | src/runtime/CoordinatorThread.cpp:27-62 | after shutdown and join the lanes and the list are empty and it may be started again |
| OwnerTaskLists.OwnerTasks.After | src/runtime/OwnerTasks.cpp:55-76 | the executor is asked once, and its id recorded if it gave one |
| OwnerTaskLists.OwnerTasks.Fired | src/runtime/OwnerTasks.cpp:63-68 | a delivered body goes on exactly when its timer was still there, and takes it out |
| OwnerTaskLists.OwnerTasks.Cancel | src/runtime/OwnerTasks.cpp:78-88 | the executor is asked to cancel, the timer is out and the caller's id is 0; nothing for 0 |
| OwnerTaskLists.OwnerTasks.DropPending | src/runtime/OwnerTasks.cpp:90-100 | a new generation, no timers, and the loop has asked the executor to cancel each of them once and nothing else |
| OwnerTaskLists.OwnerTasks.Close | src/runtime/OwnerTasks.cpp:16-22 | the same, and the handle is cut off |
| OwnerTaskLists.OwnerTasks.AfterByHandle | src/runtime/OwnerTasks.cpp:31-34 | as After while open; once closed 0, with the executor not asked and nothing changed |
| OwnerTaskLists.OwnerTasks.CancelByHandle | src/runtime/OwnerTasks.cpp:36-41 | as Cancel while open; once closed nothing |
| OwnerTasksProtocol.StepKeepsInv | src/runtime/OwnerTasks.cpp:16-100 | every step of the callers, the handles, the owner and the executor keeps the invariant |
| OwnerTasksProtocol.TimersStartOnce | src/runtime/OwnerTasks.cpp:55-76 | however late or often the executor delivers it, a timer's body starts at most once |
| OwnerTasksProtocol.CancelIsExact | src/runtime/OwnerTasks.cpp:78-88 | after Cancel, from any thread, the body may start if and only if a delivery had claimed it; on the owner none has |
| OwnerTasksStarts.StartsExactly | src/runtime/OwnerTasks.cpp:43-100 | from every reachable point a bound body starts in some run if and only if a delivery has claimed it, or it is of the current generation or past that check and is a post, or a timer that has its entry or is about to be recorded |
| OwnerTasksStarts.BoundStarts | src/runtime/OwnerTasks.cpp:43-76 | so what is posted or scheduled now can start |
| OwnerTasksStarts.RecordedStarts | src/runtime/OwnerTasks.cpp:71-75 | a scheduled timer can start exactly if the executor gave it an id |
| OwnerTasksStarts.DroppedTimersStart | src/runtime/OwnerTasks.cpp:92-96 | once the timers are dropped one starts, in some run, exactly when a delivery had claimed it, whatever its generation |
| OwnerTasksStarts.DeliveryIsBracketed | src/runtime/OwnerTasks.cpp:60-70 | a body of the current generation that is delivered starts once, and leaves the owner where the delivery found it |
| OwnerTasksDrops.InvalidateIsExact | src/runtime/OwnerTasks.cpp:90-91 | after Invalidate, from any thread, a body bound before may start in some run if and only if a delivery was on its way to one; on the owner none is |
| OwnerTasksDrops.OlderStartsExactly | src/runtime/OwnerTasks.cpp:60-70 | the same at any later point, so also when DropPending is done: exactly when the delivery on top is of an older body and still gets to it |
| OwnerTasksDrops.DroppedNeverStarts | src/runtime/OwnerTasks.cpp:16-22 | DropPending or Close on the owner, whatever other threads did or do: in no later run does a body bound before start |
| OwnerTasksDrops.ForeignDropComesTooLate | src/runtime/OwnerTasks.cpp:90-100 | a reachable world where an old body started after a drop made on another thread |
| OwnerTasksDrops.HandlesStopAtClose | src/runtime/OwnerTasks.cpp:16-41 | after Close, from any thread and from inside a handle call too, no handle call reaches the executor in any later run |
| OwnerTasksDrops.CloseWaits | include/common/runtime/OwnerTasks.h:58 | Close waits exactly when another thread is in a handle call, and that call can always end; from inside the closer's own it goes ahead |
| OwnerTasksDrops.CloseInsideItsHandleCall | include/common/runtime/OwnerTasks.h:58 | a reachable world of the latter kind |

## Left out

- JsonRoundTrip: is about double-free trees; how a double is printed and read is `ostream` and `strtod`, which enter as two functions of which nothing is known.
- NoneStartsUntilReopen: and DrainedQuiesceIsQuiet are about the call that left Open and hold until a Reopen; the time budget enters only as a step that may give up.
- DrainedSkipsNothing: leaves out epochs that a call of an earlier epoch closed; GateAnswers.PatientSkipsNothing says when there are none, CrossedSkipsAPost what happens then.
- QuietAfterWait: counts one Lifetime; the calls of other Lifetime objects on the thread's list are other entries, which EraseLast and InsideOnThisThread do handle.
- TimeComposition: is about one driver that does not nest; a nested AdvanceBy can move time back (src/ManualExecutor.cpp:78), so programs do not contain it.
- NeverOversleeps: takes Shutdown's join to succeed; the detach on timeout, and the object leaked then, are not modelled.
- CoordinatorThread: the loop of ThreadMain is the state machine of CoordinatorProtocol, not a method; the class holds the blocks it is made of.
- TeardownGate: the waiting loops of QuiesceForTeardown, InvalidateAndWait and RunAndWait are steps of the state machines too, one look at a time; the classes hold the blocks.
- OwnerTasks: the class runs one operation at a time; its two mutexes, the one timers wait for and the recursive one of the handle, are in OwnerTasksProtocol.
- Error messages and JSON paths: an error is one value, except that objectToJsonString takes the message as a parameter.
- Null and cyclic shared pointers: trees are finite values without null pointers; DeepMergeObject takes its overlay as a value, so base and overlay never alias.
- Integer overflow: of `indent * depth`, of 2^64 counters, ids, epochs and millisecond clocks; sizes of trees that no memory could hold are excluded as not addressable.
- Progress: no fairness is claimed: the progress theorems (NextPostRuns, DueTimerRuns, QueuedTaskRuns, CallCanReturn, WaitEnds, StepsEnd) say where a thread's own steps lead, not that it is scheduled; termination is proved for the codecs and ManualExecutor.
- Serialize.hpp for float, vector, map, set and optional: only the integers, bool, double patterns, strings and the entry and element loops that Value needs.
- OwnerThread, WorkerPool, SequencedTaskRunner, ThreadRuntime and WorkerDispatch: in the gate model a mailbox is whatever may run or destroy what is queued.
- RunsTasksOnCurrentThread and CurrentlyOn: the inline branches of RunAndWait on an executor's own thread are modelled for ManualExecutor only.
- The as* readers and setters of Value, Logger, MetricsRegistry, OwnerSteps, OwnerOutbox, AtomicFileWrite and CivilTime: short, or about input and output.
