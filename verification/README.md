# Verified models of TclX's data structures and algorithms

TclX extends Tcl with Unix-oriented commands. Most of it is glue; eight pieces carry their own data
structures, parsers and protocols. This project models those eight in Dafny and proves what they
promise.

| file | component | what is shown |
|---|---|---|
| `KeyedValue.dfy` | keyed lists as values | path laws of get, set, delete and keys; conversion from and to the list form |
| `KeyedLevel.dfy` | one level of a keyed list | growable array and partial hash index against the linear scan, over every history of set, delete and dup |
| `KeyedObjects.dfy`, `KeyedHeap.dfy` | keyed lists as shared objects | copy-on-write, stale-free cached strings and reference counts for `keylset` and `keyldel` in any heap |
| `Bsearch.dfy` | `bsearch` | binary search over byte offsets of a file of lines of any length |
| `WinCmdLine.dfy` | Windows command line splitter | quoting round trip; the counting pass bounds the writing pass |
| `RandomRing.dfy` | `random` | ring buffer against its recurrence; isolation of state arrays |
| `Handles.dfy` | handle table | allocator with an intrusive free list; text handles; growth over any history; table walks under frees |
| `Profiler.dfy` | `profile` | scope chain and conservation of time over any session |
| `Lgets.dfy` | `lgets` | list parser that resumes across lines; round trip for every list of values |
| `Signals.dfy` | signal delivery | no lost wakeup under every interleaving; nothing lost or evaluated twice; exactly when trap code that is gone is entered |

`dafny verify dfyconfig.toml` checks everything.

## How the models are built

**Keyed lists.** A Tcl value is an atom or a list of values, so a string stands for what it spells
as a list and a cached string is modelled as the value it spells. Keys are atoms. On values, `Get`,
`Set`, `Delete` and `GetKeys` are functions of a value and a path. On one level, class
`KeyedListRep` has the C fields `entries`, `numEntries` and `hashTbl` and its methods are proved
against functions on `Level`. On objects, class `Heap` holds every `Tcl_Obj` with its count, cached
string and internal representation; holders outside the heap (variables, argument vectors) are
slots; a reference is an index. Within an object the heap methods use, level by level, the functions
that the methods of `KeyedListRep` are proved against. A ghost valuation gives the value of each
object; it is fixed object by object, and `ValuationUnique` shows there is only one. `Updated`,
`Private` and `Exclusive` say which objects an update may touch: those with no holder outside the
path being updated. Following the code, `UnshareChild` leaves the count of a shared original as it
was, so counts may exceed the number of holders but never fall short of it. The cascade of memory
release is the separate step `Heap.Release`.

Two things make a key depend on which keys happen to be indexed. With repeated keys the index finds
the last and the scan the first. And a path such as "a..b" has an empty component: the code stores
it, but its scan compares with `STRNEQU`, which cannot see an empty key that is followed by a dot,
so the entry is found only as long as it is indexed (`EmptyComponentLost`). `FoundIffScanned` is
the exact condition. What the heap operations compute is stated under `Determined`, a condition on
the value and the path that rules out both; copy-on-write, reference counts and cached strings are
proved without it. The laws on values hold for every path. A level with a key that conversion would
refuse exists only in memory (`Value.Stored`); `SetSpellableIffGoodKey` shows exactly when what set
returns can be written as a list.

**bsearch.** The file is a string; a comparator may be any function of a line, with None for an
error. `BinSearch` is proved for every file and comparator, `SearchSorted` for the default
comparison. Two oddities of the code are exact conditions here: a file of one byte always ends in
the unexpected end-of-file error, and a line that starts at offset 1 is never probed;
`OneByteFails` and `SecondLineMissed` are files that show them. `SortedByField` and `BeginsWith` are
written in characters of the file.

**Command line splitter.** `Turn`, `Lex` and `Split` define the language of command lines
independently of the two passes of the code; `SplitWinCmdLine` allocates, counts and writes as the
code does, and `SplitJoined` puts it together with the quoting.

**random.** A `long` is a 32-bit word, as the break values of the state sizes presume. State arrays
are disjoint Dafny arrays. A `Machine` is what one array amounts to: its generator and the rear
pointer recorded in its header. The code's comment promises that calling `setstate` with the
current array is harmless; the code reads the old header before it refreshes it, so header and rear
pointer change places. Scripts may do that like anything else: to the array it is the event
`Rewind`. `DrawThenSetstate` and `RewoundIff` say exactly when it changes nothing, and
`SetstateRewinds` is a script of three calls in which it does. `OneCall`, `Numbers`, `SeededArray`
and `SavedIn` say in numbers what the calls do to the words of an array.

**Handles.** Sizes must stay within an `int`; `AllocEntry` asks for that when it has to expand.
`Run` is any history of allocs and frees, of any length; its one condition, `Fits`, is about the
largest number of entries that can come to be live at once. `counts` are the numbers of live
entries after each call.

**Profiler.** The linked stack is a sequence with `<global>` at the bottom, and a scope link is an
index into it. Within a session, visits of the profiler are `Call`s with the clock as a parameter,
set up and finished in nested order. A set-up that leaves initial entries and also pushes charges
the same interval twice. `Session` is the conservation law for every script of visits, with those
intervals as an explicit sum; `NothingTwice` and `ChargesTwice` say when the sum is zero and give a
session in which it is not. `Named` says in positions of the stack which names an entry is recorded
under, and `Records` and `AllRecorded` what that does to the table, one entry or several.

**lgets.** The channel is the text still to come, of which `pos` bytes have been read. What a
backslash sequence stands for, and how long it is, is decided by `Tcl_Backslash`; a `Decoder` is any
function that may do so, given the text read and a place in it. A value can be written in braces, in
quotes or as it is, with or without backslashes, and elements may be any white space apart.
`GarbageFails` and `OpenAtEnd` are about lists that are not well-formed. The manual promises that
only a newline that is not quoted ends the list. `TakenNewlineGoesOnIff` is the exact condition:
when an element takes the newline of its line, the list goes on to a further line exactly if the
element is in braces or quotes. In an element without them the newline can only belong to a
backslash sequence, and the list ends there all the same; `ContinuationEndsList` is the smallest
such list.

**Signals.** Every statement of `SignalTrap`, `ProcessASignal` and `ProcessSignals` that reads or
writes a shared variable is a step of a state machine, and any number of `SignalTrap` activations
may be between their count and their mark. Interpreters are registered and deleted by steps of
their own, the first creating the handler and the last deleting it, so that the test for a missing
interpreter at the start of `ProcessSignals` is never taken (`InvokedWithInterp`). Class `Delivery`
is the code itself, with interruptions at every statement boundary, taking the machine's steps
beside it. Trap code may set and remove traps, its own included. The comment on `EvalTrapCode`
allows that, but the loop around it does not look again: `EntersWithoutCodeIff` says exactly when
it goes on to evaluate code that is not there, `RemovesOwnTrap` is a run that does, and after that
the model lets the evaluation have any effect. The last interpreter to go deletes the handler but
leaves `asyncHandler` set, so a handler that is gone can still be marked: `MarksGoneIff` says
exactly when, `MarksHandler` that it needs the last interpreter to be deleted, and `MarksGone` is a
run in which it happens. What such a mark does is left open; `stale` records it.

## Model

| member | source | states |
|---|---|---|
| KeyedValue.Split | generic/tclXkeylist.c:400-410 | a key splits at dots into at least one component, the first being the text before the first dot |
| KeyedValue.SplitJoin | generic/tclXkeylist.c:400-410 | joining dot-free components with dots and splitting the result gives the components back |
| KeyedValue.Scan | generic/tclXkeylist.c:424-440 | the linear scan finds the first entry with the key, or none exists |
| KeyedValue.SpelledRoundTrip | generic/tclXkeylist.c:540-613 | writing a level as a list and converting it back gives the same level, exactly when all its keys are non-empty and free of dots and zero bytes; otherwise conversion fails |
| KeyedValue.LevelRoundTrip | generic/tclXkeylist.c:539-552 | the value of a level in memory reads as exactly that level, whatever its keys |
| KeyedValue.ValueRoundTrip | generic/tclXkeylist.c:624-666 | a value that converts to a keyed list is spelled back unchanged |
| KeyedValue.GetInList | generic/tclXkeylist.c:539-743 | a list is a keyed list exactly when its elements are pairs of a key, not empty and free of dots and zero bytes, and a value; one component reads the value of the first pair with that key, is absent when there is none, and is an error when the list is no keyed list |
| KeyedValue.GetInside | generic/tclXkeylist.c:704-743 | further components are read from the value of the first |
| KeyedValue.KeysAreReadable | generic/tclXkeylist.c:956-999 | the keys listed at a level are exactly those that can be read there |
| KeyedValue.GetAfterSet | generic/tclXkeylist.c:759-867 | after a successful set the path reads as the new value |
| KeyedValue.GetOtherAfterSet | generic/tclXkeylist.c:704-743 | a path that is neither prefix nor extension of the path set reads as before |
| KeyedValue.KeysAfterSet | generic/tclXkeylist.c:956-999 | at every level above the last component, asked for with or without a dot at the end, keys keep their order and the next component is appended last if it was absent |
| KeyedValue.SetFailsIffGetErrs | generic/tclXkeylist.c:760-866 | set fails exactly when reading the same path is an error |
| KeyedValue.SetSpellableIffGoodKey | generic/tclXkeylist.c:581-590 | what set returns reads as a keyed list, and its list form converts back exactly when the first component is a valid key |
| KeyedValue.DeleteRemoves | generic/tclXkeylist.c:884-937 | after a successful delete the path is absent |
| KeyedValue.DeleteAnswersAsGet | generic/tclXkeylist.c:884-937 | delete succeeds, finds nothing or errs exactly where get does |
| KeyedValue.GetOtherAfterDelete | generic/tclXkeylist.c:885-937 | delete leaves every path that is neither prefix nor extension alone |
| KeyedValue.KeysAfterDelete | generic/tclXkeylist.c:884-937 | at every level above the last component that is still there, keys keep their order and the next component goes exactly if it cannot be read any more |
| KeyedValue.NoEmptyListLeft | generic/tclXkeylist.c:916-933 | no list on the deleted path is left empty below the root |
| KeyedValue.DeleteUndoesSet | generic/tclXkeylist.c:884-937 | deleting an absent path that was just set restores the value, order included, exactly when no proper prefix of the path held an empty list |
| KeyedValue.AddedSubtreeGoes | generic/tclXkeylist.c:831-861 | a whole subtree added by set disappears again with its only key |
| KeyedLevel.IndexSurvivesDelete | generic/tclXkeylist.c:349-371 | shifting the index on delete keeps every pair pointing at an entry with its key |
| KeyedLevel.IndexSurvivesPut | generic/tclXkeylist.c:787-810 | so does indexing the key that was written or appended |
| KeyedLevel.IndexTransparentIffDistinct | generic/tclXkeylist.c:412-440 | index and scan agree on every key the scan can see, whatever subset of keys is indexed, exactly on levels without repeated keys |
| KeyedLevel.FoundIffScanned | generic/tclXkeylist.c:400-440 | for one key, index and scan agree whatever is indexed exactly when the component is not repeated and the scan can see it or it is not there |
| KeyedLevel.EmptyComponentLost | generic/tclXkeylist.c:429-436 | an empty component followed by a dot is found while it is indexed and not after duplication |
| KeyedLevel.RunAgrees | generic/tclXkeylist.c:333-454 | after any history of set, delete and dup the index is sound, and with distinct keys and no empty component inside a path entries and lookups are those of a list that is only scanned |
| KeyedLevel.KeyedListRep.constructor | generic/tclXkeylist.c:249-261 | a new level is empty and has an empty index |
| KeyedLevel.KeyedListRep.Dup | generic/tclXkeylist.c:479-527 | a duplicate has the same keys in the same order and capacity, the duplicated values, and no index |
| KeyedLevel.KeyedListRep.EnsureSpace | generic/tclXkeylist.c:302-322 | room for the new entries, the content unchanged, growth by the request and 16 |
| KeyedLevel.KeyedListRep.DeleteEntry | generic/tclXkeylist.c:333-374 | the in-place shift and the index repair remove exactly the entry |
| KeyedLevel.KeyedListRep.CloseGap | generic/tclXkeylist.c:369-371 | the shift leaves the other entries in order |
| KeyedLevel.KeyedListRep.FindEntry | generic/tclXkeylist.c:391-454 | index first, then scan, on the first component; the rest of the key is returned |
| KeyedLevel.KeyedListRep.ScanEntries | generic/tclXkeylist.c:429-436 | the first entry that STRNEQU takes to be the component, or the end |
| KeyedLevel.KeyedListRep.StoreEntry | generic/tclXkeylist.c:787-811 | the entry is updated in place or appended, and indexed |
| KeyedObjects.ValuationUnique | generic/tclXkeylist.c:623-666 | objects determine their values: two valuations that fit the same heap agree on every object |
| KeyedObjects.SoleHolder | generic/tclXkeylist.c:78-83 | a child whose count is at most one has its parent as its only holder |
| KeyedObjects.SoleSlot | generic/tclXkeylist.c:1105-1110 | an object with count at most one that a variable holds has no other holder |
| KeyedObjects.Descend | generic/tclXkeylist.c:823-827 | after the sharing test the child may be updated in place below its parent |
| KeyedObjects.Ascend | generic/tclXkeylist.c:825-830 | back at the parent, the objects changed still have no holder outside the path |
| KeyedHeap.Heap.Dup | generic/tclXkeylist.c:479-527 | a duplicate has the same value, shares nothing, and leaves every existing object as it was |
| KeyedHeap.Heap.Convert | generic/tclXkeylist.c:539-613 | conversion succeeds exactly on values that are keyed lists, and changes no value, even of shared objects |
| KeyedHeap.Heap.UnshareChild | generic/tclXkeylist.c:78-83 | the entry afterwards holds an unshared object of the same value, the original if it was unshared |
| KeyedHeap.Heap.KeyedListSet | generic/tclXkeylist.c:759-867 | failure at any depth leaves every value as it was; success computes Set, changes only objects without holders outside the path, and leaves no cached string stale |
| KeyedHeap.Heap.SetLeaf | generic/tclXkeylist.c:782-815 | the value is stored, its count goes up by one, that of a replaced value down by one and no other changes, and the cached string is dropped |
| KeyedHeap.Heap.SetNew | generic/tclXkeylist.c:831-862 | a missing subtree is built aside and inserted only when that succeeds |
| KeyedHeap.Heap.SetBelow | generic/tclXkeylist.c:823-830 | the descent duplicates shared children first and invalidates every ancestor on success |
| KeyedHeap.Heap.KeyedListDelete | generic/tclXkeylist.c:884-937 | the same for delete: it computes Delete, and touches only objects on the path |
| KeyedHeap.Heap.RemoveChild | generic/tclXkeylist.c:333-374 | the entry goes, the count of its value goes down by one and no other changes, and the cached string is dropped |
| KeyedHeap.Heap.DeleteBelow | generic/tclXkeylist.c:916-936 | deletion below an entry, with the pruning of a list left empty |
| KeyedHeap.Heap.KeyedListGet | generic/tclXkeylist.c:704-743 | the loop reads what Get reads, converting levels lazily without changing any value |
| KeyedHeap.Heap.GetStep | generic/tclXkeylist.c:714-741 | one turn converts a level without changing its value and moves to the entry of the next component |
| KeyedHeap.Heap.Keylset | generic/tclXkeylist.c:1086-1135 | the assignments succeed one by one up to the first that cannot, one with an invalid key or a path that is an error, and success is that there is none; no other variable sees a change; an unset or shared variable gets the result as a new object only on full success, an unshared one is updated in place up to the failure |
| KeyedHeap.Heap.Keyldel | generic/tclXkeylist.c:1144-1196 | the deletions succeed one by one up to the first that cannot, one with an invalid key or a path that cannot be read, absent ones included, and success is that there is none; no other variable sees a change, and the variable ends as the last successful deletion leaves it |
| KeyedHeap.Heap.Release | generic/tclXkeylist.c:271-292 | giving up an unheld object keeps every other object's value and count sound |
| Bsearch.ProbeFor | generic/tclXbsearch.c:166-206 | every line start except offset 1 is what some probe reads |
| Bsearch.ProbesInOrder | generic/tclXbsearch.c:166-206 | later probes read later lines |
| Bsearch.CloseWindow | generic/tclXbsearch.c:256-285 | either way of narrowing the window makes progress and keeps the logarithmic bound on probes |
| Bsearch.ProbesBelow | generic/tclXbsearch.c:256-285 | the logarithmic bound: a file of less than 2^k bytes needs at most k + 1 probes |
| Bsearch.SortedProbes | generic/tclXbsearch.c:264-281 | on a sorted file a probe that misses says on which side the match lies |
| Bsearch.StrCmpOrders | generic/tclXbsearch.c:83 | the comparison of fields goes by the first character that differs, a proper prefix coming first |
| Bsearch.FieldIs | generic/tclXbsearch.c:79-82 | the field compared is the beginning of the line up to the first space, tab, newline, carriage return, vertical tab, form feed or zero byte, or to its end |
| Bsearch.SortedForKey | generic/tclXbsearch.c:73-97 | a file whose lines are sorted by first field is sorted for the default comparison with any key |
| Bsearch.BinSearchCB.ReadAndCompare | generic/tclXbsearch.c:160-235 | it reads the line the probe looks at or uses the remembered comparison of the same line, and errs exactly at the end of the file or when the comparison errs |
| Bsearch.BinSearchCB.BinSearch | generic/tclXbsearch.c:246-287 | on any file and comparator: every probe is inside the file and not at its end unless it has at most one byte, the probes are logarithmically many, a found line is complete and compares equal; on a sorted file a match is never missed |
| Bsearch.SearchSorted | generic/tclXbsearch.c:246-362 | default comparison on a sorted file: error exactly on one byte, found exactly when a line not at offset 1 begins with the key, followed by white space or its end, and the line returned is such a line, complete and without its newline |
| Bsearch.LineAtOneIffFirstEmpty | generic/tclXbsearch.c:185-194 | the line that is never probed exists exactly when the first line is empty and not the last |
| WinCmdLine.SplitJoin | win/tclXwinOS.c:62-105 | for every vector of arguments, quoting and joining them and splitting the result gives them back |
| WinCmdLine.LexEscaped | win/tclXwinOS.c:92-97 | inside quotes, the escaped text and a closing quote read as the original text, and the argument goes on outside them |
| WinCmdLine.TurnAfter | win/tclXwinOS.c:92-97 | what any number of backslashes and the character behind them amount to, by cases: 2n+1 before a quote are n and the quote, 2n are n and begin or end a quoted part, or stand before a doubled quote that is one; other backslashes stand for themselves, and unquoted white space ends the argument |
| WinCmdLine.TurnAtEnd | win/tclXwinOS.c:150-176 | backslashes at the end of the command line stand for themselves |
| WinCmdLine.DoubledQuote | win/tclXwinOS.c:92-95 | a doubled quote inside quotes is one quote of the same argument, whatever texts surround it |
| WinCmdLine.QuoteInside | win/tclXwinOS.c:148-187 | a quoted part in the middle of an argument belongs to it, white space and all |
| WinCmdLine.OpenQuote | win/tclXwinOS.c:148-187 | a quote that is never closed takes the rest of the line as one argument |
| WinCmdLine.TurnAt | win/tclXwinOS.c:150-176 | the state machine on backslashes, quotes and white space follows the quoting rules |
| WinCmdLine.ArgsVersusSpans | win/tclXwinOS.c:123-139 | there is at most one argument more than there are runs of white space |
| WinCmdLine.CountSlots | win/tclXwinOS.c:123-139 | the counting pass finds more slots than there are arguments |
| WinCmdLine.ScanTurn | win/tclXwinOS.c:150-173 | the reading half of the inner loop leaves quote state, copy flag and pending backslashes as the rules require |
| WinCmdLine.WriteTurn | win/tclXwinOS.c:174-186 | the writing half puts the pending backslashes and the character, and stops at unquoted white space or the end |
| WinCmdLine.ReadArg | win/tclXwinOS.c:148-190 | one argument is written behind the earlier ones, terminated, inside the space |
| WinCmdLine.FillArgs | win/tclXwinOS.c:141-194 | the main loop never runs out of slots before the end of the input |
| WinCmdLine.SplitWinCmdLine | win/tclXwinOS.c:108-198 | argc, argv and the argument space are exactly the arguments of the command line, all inside strlen + 1 bytes, with a final NULL |
| WinCmdLine.SplitJoined | win/tclXwinOS.c:62-198 | splitting the quoted and joined arguments fills argv with exactly those arguments |
| RandomRing.Trinomials | compat/random.c:103-135 | the k-th number is x[k+deg] without its lowest bit, where x begins with the ring from the front pointer on and goes on modulo 2^32 by x[k+7] = x[k] + x[k+4] in type 1, x[k+15] = x[k] + x[k+14] in type 2, x[k+31] = x[k] + x[k+28] in type 3 and x[k+63] = x[k] + x[k+62] in type 4 |
| RandomRing.RingHolds | compat/random.c:361-377 | after n calls the ring holds the last deg terms and the rear pointer has advanced n places |
| RandomRing.SeedingIs | compat/random.c:206-224 | seeding fills the ring by y[i+1] = 1103515245 y[i] + 12345 from the seed and leaves it 70, 150, 310 or 630 terms of the trinomial later; type 0 holds the seed |
| RandomRing.FrontIsMod | compat/random.c:329-334 | the front pointer setstate computes is the one random maintains: 3 places ahead of the rear one round the ring in types 1 and 3, 1 place in types 2 and 4 |
| RandomRing.AdvanceBoth | compat/random.c:367-376 | the pointers keep their distance and never wrap on the same call |
| RandomRing.SeededAtStart | compat/random.c:206-224 | after the discarded calls of srandom both pointers are back where they started |
| RandomRing.PackRoundTrip | compat/random.c:257-260 | the packed header restores type and rear pointer exactly |
| RandomRing.RewoundIff | compat/random.c:308-341 | taking the rear pointer from a header saved n calls earlier changes nothing exactly when the type is 0 or n calls go round the ring a whole number of times |
| RandomRing.SetstateRewinds | compat/random.c:303-341 | one number after initstate, setstate on the current array moves the rear pointer back over changed words |
| RandomRing.Random.constructor | compat/random.c:151-192 | the program starts with a type 3 table whose rear pointer is at 0 and whose header says so |
| RandomRing.Random.Rand | compat/random.c:361-380 | one call adds the word at the rear pointer to the one 3 or 1 places on round a ring of 7, 15, 31 or 63, returns the upper 31 bits and moves the rear pointer on by one place, or multiplies by 1103515245 and adds 12345 modulo 2^31 in type 0; every other array is left alone |
| RandomRing.Random.Draws | compat/random.c:361-380 | any number of calls return, from the words of the array, the numbers of the trinomial of its type, or of the linear congruential generator |
| RandomRing.FirstNumber | compat/random.c:151-192 | the first number of a program is 2078917053 |
| RandomRing.Random.Advance | compat/random.c:367-376 | testing the front pointer first, and the rear one only if that did not wrap, moves both on by one place round the ring |
| RandomRing.Random.Srandom | compat/random.c:206-224 | the current array is filled from the seed and run in by 70, 150, 310 or 630 calls, with the rear pointer back at 0; other arrays keep their generators |
| RandomRing.Random.Initstate | compat/random.c:245-290 | fewer than 8 bytes are refused; below 32, 64, 128, 256 and from there on the array becomes current as type 0, 1, 2, 3 and 4, freshly seeded; the header of the old one says where it was left, and every other array keeps its generator |
| RandomRing.Random.Setstate | compat/random.c:308-341 | type and rear pointer are the remainder and the quotient of the header by 5, and the header of the old array is left so; another array resumes exactly where it was left; on the current array header and rear pointer change places, which changes nothing exactly when the header is up to date |
| RandomRing.Random.DrawThenSetstate | compat/random.c:303-341 | after a header-saving call and n calls of random, setstate on the current array changes nothing exactly when the type is 0 or n is a multiple of the degree |
| RandomRing.Random.Run | compat/random.c:245-377 | stream isolation: in every script of calls, setstate on the current array included, each array ends in the state and has yielded the outputs that the events for it would give alone |
| Handles.StrToUnsigned | generic/tclXutil.c:117-142 | white space, sign, digits and range are accepted as specified, with unsigned negation and truncation |
| Handles.PassDigits | generic/tclXutil.c:117-142 | the digits and their value |
| Handles.ParseIff | generic/tclXutil.c:117-142 | exactly the texts of white space, a sign or none, decimal digits whose value has 64 bits and white space are numbers; the value, negated modulo 2^64 after a minus sign, is cut to 32 bits |
| Handles.ParseDecimal | generic/tclXutil.c:117-142 | the decimal text of a number parses back to it, as far as it fits |
| Handles.DecimalSpells | generic/tclXhandles.c:391 | the number in a handle is written in base ten without leading zeros |
| Handles.DecodeText | generic/tclXhandles.c:223-243 | the text issued for an index decodes to that index |
| Handles.HandleTable.constructor | generic/tclXhandles.c:286-312 | a new table has the initial size and no live entry |
| Handles.HandleTable.LinkInNewEntries | generic/tclXhandles.c:123-141 | the new slots are threaded in order in front of the free list, the old slots untouched |
| Handles.HandleTable.ExpandTable | generic/tclXhandles.c:153-175 | the table doubles, or grows to the needed index, keeping every entry |
| Handles.HandleTable.AllocEntry | generic/tclXhandles.c:187-205 | the entry was not live, exactly it becomes live, live data survives, the table doubles exactly when it was full, and the peak follows the live entries |
| Handles.HandleTable.Refill | generic/tclXhandles.c:192-196 | a full table doubles, with every entry kept and free slots again |
| Handles.HandleTable.HandleAlloc | generic/tclXhandles.c:383-398 | the same, and the text returned is the base and the decimal number of the new entry, which decodes to it |
| Handles.HandleTable.HandleXlate | generic/tclXhandles.c:409-429 | a text translates to an entry exactly if it begins with the base, what follows is a number, and the entry of that number is allocated; an issued text exactly while its slot is allocated |
| Handles.HandleTable.HandleFree | generic/tclXhandles.c:534-548 | exactly the entry stops being live and becomes the first free slot; freeing a free entry panics and changes nothing |
| Handles.HandleTable.Call | generic/tclXhandles.c:187-205 | one more or one fewer live entry, or a free that is refused because the entry is not live |
| Handles.HandleTable.Run | generic/tclXhandles.c:153-205 | over any history of allocs and frees, however long, the table is no larger than its initial size or twice the most entries live at once, and a refused free is one of an entry that is not live |
| Handles.History | generic/tclXhandles.c:153-312 | the same from the creation of the table on |
| Handles.HandleTable.HandleWalk | generic/tclXhandles.c:481-503 | the next live entry after the key, or none |
| Handles.NextLiveIsLeast | generic/tclXhandles.c:490-502 | the next live entry is the least one at or above the position |
| Handles.WalkExact | generic/tclXhandles.c:467-503 | whatever is freed between calls, an index is returned exactly when it is still allocated at the call that reaches it |
| Handles.WalkIncreasing | generic/tclXhandles.c:467-503 | a walk returns indices in increasing order, each once |
| Profiler.TotalRecorded | generic/tclXprofile.c:282-308 | recording an entry adds exactly its count and times to the table's totals, whether or not the key was there |
| Profiler.ScopeAt | generic/tclXprofile.c:222-234 | the scan along the scope chain ends at an entry that encloses the scope level |
| Profiler.PushChain | generic/tclXprofile.c:182-235 | pushing keeps every link strictly deeper, ending at global, and the scope levels falling |
| Profiler.ChargeHeld | generic/tclXprofile.c:357-371 | charging an interval to the eval and the scope account adds it exactly once to the mode's own accounts |
| Profiler.Kept | generic/tclXprofile.c:432-439 | the unwinding keeps the entries up to the topmost one at or below the level, and leaves only entries above it |
| Profiler.ProfInfo.constructor | generic/tclXprofile.c:916-949 | a profiler that is off, with an empty stack |
| Profiler.ProfInfo.PushEntry | generic/tclXprofile.c:182-235 | the entry is on top with zero times, linked to the first entry of the scope chain at procedure level 0 or with a scope level less than its own, or not greater if it is a command, and heads the chain |
| Profiler.ProfInfo.ScanScope | generic/tclXprofile.c:222-234 | the scan finds the first such entry and never runs off the chain, so panics 1 and 6 cannot happen |
| Profiler.ProfInfo.ChainNames | generic/tclXprofile.c:246-275 | with -eval the names of all the entries from this one down, otherwise those found by following the scope links to the end, in the slots allocated for them |
| Profiler.ProfInfo.RecordData | generic/tclXprofile.c:246-309 | under exactly those names there is one call more and the time of the mode is added, in a new entry or the existing one; every other entry of the table is as it was, and the totals grow by just that |
| Profiler.ProfInfo.PopEntry | generic/tclXprofile.c:319-337 | the top entry leaves the stack and is recorded under its names: nothing is gained or lost |
| Profiler.ProfInfo.UpdateTOSTimes | generic/tclXprofile.c:347-372 | the interval since the last reading is added to the eval time of the top of the stack and to the scope time of the active scope and to nothing else; the clock is read once per visit |
| Profiler.ProfInfo.Unwind | generic/tclXprofile.c:434-438 | initial entries that have been left are popped and recorded one by one, each under its own names; panic 2 cannot happen |
| Profiler.ProfInfo.CommandEvalSetup | generic/tclXprofile.c:432-455 | initial entries that were left are charged, recorded under their names and go, a procedure is pushed one level further in and a command at its own level, and the conservation law is kept; the interval is charged twice exactly when the call both unwinds and pushes |
| Profiler.ProfInfo.FinishPop | generic/tclXprofile.c:481-482 | the command is charged, recorded under its chain of names and popped |
| Profiler.ProfInfo.CommandEvalFinishup | generic/tclXprofile.c:473-489 | a traced command is charged, recorded under its names and popped, anything else changes nothing |
| Profiler.ProfInfo.InitializeProcStack | generic/tclXprofile.c:636-650 | the running procedures stand on the stack, outermost first, one level apart |
| Profiler.ProfInfo.TurnOnProfiling | generic/tclXprofile.c:664-711 | a session starts with global, the running procedures, the active scope found, empty accounts and the clock |
| Profiler.ProfInfo.DeleteProfTrace | generic/tclXprofile.c:722-733 | everything on the stack is charged and recorded under its names from the top down; the recorded real and CPU times sum to the length of the session plus the intervals charged twice, and the counts to the entries pushed |
| Profiler.ProfInfo.PopAll | generic/tclXprofile.c:729-732 | every entry still on the stack is recorded under its own names, from the top down |
| Profiler.ProfInfo.Visit | generic/tclXprofile.c:432-489 | a visit changes levels, open commands and clock as the outline says, and adds the interval it charges twice |
| Profiler.ProfInfo.Session | generic/tclXprofile.c:432-733 | for every script of visits between on and off the times recorded are the length of the session plus the sum of the intervals charged twice, and the counts are the entries pushed |
| Profiler.NothingTwice | generic/tclXprofile.c:432-455 | a session turned on outside any procedure charges no interval twice |
| Profiler.ChargesTwice | generic/tclXprofile.c:432-455 | a session turned on inside a procedure that then leaves it for another charges the whole interval twice |
| Lgets.LinesAre | generic/tclXlgets.c:71-108 | the usable part of a channel is its complete lines, and there is only one such part |
| Lgets.RoundTrip | generic/tclXlgets.c:134-460 | a list written with braces, quotes, bare words or backslashes on any number of lines, with any white space around its elements, reads back as its values, whatever follows it, and exactly its own lines are read |
| Lgets.AnyListReadsBack | generic/tclXlgets.c:134-460 | every list of values, whatever characters they hold, can be written so that it reads back |
| Lgets.TakenNewlineGoesOnIff | generic/tclXlgets.c:283-382 | an element needs a further line exactly when it takes the newline of its line and is in braces or quotes; one that takes it by a backslash sequence alone ends the list with the line, and its value ends in what the sequence stands for |
| Lgets.BareTakesByBackslash | generic/tclXlgets.c:303-313 | without braces, quotes or a backslash the newline ends the element |
| Lgets.ContinuationEndsList | generic/tclXlgets.c:283-364 | the instance: a bare element before a backslash at the end of the line gets a space, and the second line is not read |
| Lgets.BracedScan | generic/tclXlgets.c:231-258 | inside a balanced value the depth is that of the characters passed, so the matching brace ends the element |
| Lgets.EscapedScan | generic/tclXlgets.c:283-296 | escaped white space, quotes and braces do not end an element |
| Lgets.EscapedValue | generic/tclXlgets.c:283-296 | the sequences are replaced by the characters they stand for |
| Lgets.WrittenItem | generic/tclXlgets.c:207-392 | a written value followed by white space or the end of its line is read as that value, and reading stands at the next one |
| Lgets.GarbageFails | generic/tclXlgets.c:236-346 | after any elements, one in braces or quotes with a character right behind it that is not white space makes the command fail with the error for it, the channel standing behind that line |
| Lgets.OpenAtEnd | generic/tclXlgets.c:71-98 | an element whose braces or quotes are still open at the end of the complete lines makes the command fail with the end-of-file error, or the one for a line without newline if part of a line follows, and all is read |
| Lgets.NoLineAtAll | generic/tclXlgets.c:71-98 | a channel without any newline is at its end when empty and an error otherwise |
| Lgets.BracesNest | generic/tclXlgets.c:231-245 | what can stand in braces includes every text without braces and backslashes, two such texts in a row, and one in further braces |
| Lgets.ReadData.Gets | generic/tclXlgets.c:71-103 | a line without its newline, or the end of the channel |
| Lgets.ReadData.ReadListLine | generic/tclXlgets.c:71-108 | one more complete line in the buffer; break before any data, an error in mid-list or on a line without newline |
| Lgets.ReadData.ReadListInit | generic/tclXlgets.c:128-160 | the first line is read and leading white space passed |
| Lgets.ReadData.ScanChar | generic/tclXlgets.c:225-351 | one character of the switch: on, with the value extended by it or by what its backslash sequence stands for, or at the end of the element |
| Lgets.ReadData.ScanBackslash | generic/tclXlgets.c:283-296 | a sequence is kept in braces and replaced elsewhere, and what is copied so far stays in step |
| Lgets.ReadData.ScanZero | generic/tclXlgets.c:353-382 | at the end of the lines read a bare element ends and any other gets a further line, depth and value unchanged |
| Lgets.ReadData.ScanElement | generic/tclXlgets.c:224-386 | resumed over further lines the loop finds the end and the value of the element, or reports the lines running out |
| Lgets.ReadData.ReadListElement | generic/tclXlgets.c:181-393 | the next element of the list, break at its end, or the error for garbage after a brace or quote |
| Lgets.ReadData.Lgets | generic/tclXlgets.c:447-487 | the command returns exactly the list that the text spells, leaves the channel behind its last line, and counts the bytes read |
| Signals.GoingKeeps | generic/tclXsignal.c:772-901 | every statement of ProcessSignals and ProcessASignal keeps the counts and the wakeup |
| Signals.StepKeeps | generic/tclXsignal.c:611-622 | so does every statement of SignalTrap, every script that sets or removes traps, and every interpreter that comes or goes; a mark on a handler that is gone is recorded |
| Signals.NoLostWakeup | generic/tclXsignal.c:611-909 | over every run, while there is a handler, a signal still counted when it does not run has it marked; arrivals are always evaluations, pending and dropped signals together |
| Signals.TrappedAllEvaluated | generic/tclXsignal.c:799-807 | over every run a signal that stays trapped is never dropped, also when trap code fails and stops the scan or removes other traps |
| Signals.InvokedWithInterp | generic/tclXsignal.c:853-855 | whenever the handler is invoked an interpreter is registered, so the early return is never taken |
| Signals.CarefulHasCode | generic/tclXsignal.c:799-807 | as long as no trap code takes its own trap away, the loop always has code to evaluate |
| Signals.EntersWithoutCodeIff | generic/tclXsignal.c:799-807 | after trap code ends, the loop evaluates code that is not there exactly when the trap has been removed and the signal is still counted |
| Signals.RemovesOwnTrap | generic/tclXsignal.c:799-807 | a run in which that happens |
| Signals.MarksGoneIff | generic/tclXsignal.c:614-622 | a mark reaches a handler that is gone exactly when asyncHandler is set and no interpreter is registered |
| Signals.TrapMarksGoneIff | generic/tclXsignal.c:611-622 | while signals arrive, one of them marks a handler that is gone exactly when one marks at all and no interpreter is registered |
| Signals.MarksHandler | generic/tclXsignal.c:1545-1555 | over every run in which the last interpreter is never deleted only a handler that exists is marked |
| Signals.MarksGone | generic/tclXsignal.c:1545-1555 | a run in which a signal arrives after the only interpreter was deleted, and marks its handler |
| Signals.Delivery.constructor | generic/tclXsignal.c:1615-1628 | delivery starts with nothing counted, marked or trapped, and without an interpreter |
| Signals.Delivery.SignalInit | generic/tclXsignal.c:1610-1650 | the first interpreter finds the counts and traps cleared and a new handler |
| Signals.Delivery.SignalCmdCleanUp | generic/tclXsignal.c:1533-1564 | the last interpreter takes handler, mark and traps with it |
| Signals.Delivery.ScriptAction | generic/tclXsignal.c:1018-1026 | a script may set or remove any trap and create or delete interpreters without disturbing the scan |
| Signals.Delivery.SignalTrap | generic/tclXsignal.c:611-641 | the signal is counted and the handler marked, whatever interrupts in between; the handler marked is gone exactly when the handler had been created and no interpreter is registered |
| Signals.Delivery.EvalTrapCode | generic/tclXsignal.c:720-757 | the trap code runs once, and may be interrupted and change any trap; whether there was any to run is recorded |
| Signals.RunOnce | generic/tclXsignal.c:799-807 | one more evaluation of a signal raises exactly its own number of evaluations |
| Signals.Delivery.EvalOnce | generic/tclXsignal.c:800-807 | while the signal is counted, one turn evaluates its trap code once and takes one arrival off; the code is missing exactly when the trap has been removed meanwhile |
| Signals.Delivery.TakeOne | generic/tclXsignal.c:801-804 | one arrival less, one evaluation more, and an error ends the scan |
| Signals.Delivery.ProcessASignal | generic/tclXsignal.c:772-808 | the signal is worked off unless its code fails, each arrival taken off is evaluated exactly once, and with trap code nothing is dropped unless the handler is created anew |
| Signals.Delivery.ScanSignals | generic/tclXsignal.c:868-876 | the scan visits every signal until an error |
| Signals.Delivery.AnyReceived | generic/tclXsignal.c:892-895 | the recheck finds a signal still counted, or passes every signal with none left that is not announced |
| Signals.Delivery.Rearm | generic/tclXsignal.c:892-899 | the handler is marked again when a signal is still counted, and a handler that is gone only when trap code deleted the last interpreter |
| Signals.Delivery.ProcessSignals | generic/tclXsignal.c:842-909 | on return anything still counted has the handler, if there is one, marked again, and every arrival taken off has been evaluated; without further signals and errors nothing is left counted |

## Left out

- Dafny references between Tcl objects and between profiler entries: sharing and chains are modelled by indices into a sequence that the methods update, so aliasing shows as equal indices.
- Keys of a keyed list that are themselves lists, string forms with odd quoting, and encodings: a string is what it spells as a list.
- Memory release beyond one object at a time, allocation failure and the count that a shared original keeps after a duplication: counts may exceed the holders, as in the code.
- `keylget`, `keylkeys` and variable access with their error texts; the hash table is a map.
- KeyedHeap.Heap.KeyedListSet: what it computes is stated for paths under `Determined`, since with repeated keys on the path or an empty component inside it the code's result depends on which keys happen to be indexed; everything else it states holds for every key.
- KeyedHeap.Heap.KeyedListDelete: likewise.
- KeyedHeap.Heap.KeyedListGet: likewise.
- KeyedHeap.Heap.Keylset: likewise, for the keys of all its arguments in turn.
- KeyedHeap.Heap.Keyldel: likewise.
- I/O errors, comparison procedures written in Tcl as scripts, and channel buffering in `bsearch`: a comparator is a function that may fail.
- GetCommandLine and the other Windows calls around the splitter.
- That the default table of `random` holds what seeding with 1 computes, and words wider than 32 bits.
- The content of handle table entries, which is opaque, use counts and the release of a table.
- Handles.HandleTable.AllocEntry: asks that doubling the table stay within an int, which the code does not check.
- Handles.HandleTable.HandleAlloc: likewise.
- Handles.HandleTable.Run: asks that the entries that can come to be live at once fit a table that does not outgrow an int.
- Handles.History: likewise.
- Trace installation, command table patching and the output of the profiler; turning it off and on again while traced commands run; clocks are parameters.
- Profiler.ProfInfo.CommandEvalSetup: assumes that commands are set up and finished in nested order and that call levels do not fall below those of commands still running.
- Lgets.OpenAtEnd: is about an open element without backslashes.
- Which character a backslash sequence in `lgets` stands for, which an external routine decides; non-blocking channels; read errors; what is stored in the variable after an error.
- Unsigned wrap-around of the signal counters, System V signal re-enabling, what evaluating trap code that is not there does, what marking a handler that is gone does, and signals between the statements of set-up and tear-down of the handler, which are one step each.
- Every other TclX command: their substance is operating system calls, evaluation of scripts, or simple list and string operations that would add only easy members.
