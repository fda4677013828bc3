# Verified models of the kernel's queues, tables and matchers

Models of the self-contained logic of a System V kernel for a workstation with bitmap displays and network
controllers, with proofs of what that logic is for. `dafny verify dfyconfig.toml` checks everything.

- **Regular expressions** (`RegexpCode`, `RegexpSearch`, `RegexpMatch`, `RegexpSyntax`, `RegexpCompile`,
  `RegexpText`, `RegexpReading`, `RegexpMeaning`, `RegexpCorrect`, `RegexpPattern`). A match is a vector of cut
  points in the text, defined without any search. The matcher, with its recursion over shared globals, decides it and
  finds the greediest match, and it is known exactly when it does not end; the compiler, writing bytes into a buffer,
  turns the written form of every pattern of the grammar into the pattern's program. A pattern has a meaning of its
  own, with sets of characters and no byte code, and compiling and then matching decides it (`RegexpPattern.Find`).
  What the compiler accepts and what it refuses is told for every sequence of bytes by its spelling
  (`RegexpReading.CompileIff`).
- **Host and bitmap processor FIFO** (`BmtFifo`). Producer and consumer as interleaved single reads and writes
  of shared words, for any ring of two slots or more: safety and no lost notification in every reachable state.
  A slot is a short `sig` and a long `val`, so a slot is copied `sig` first.
- **Hash table** (`HashSearch`, `HashTable`). Multiplicative double hashing, the search, and Brent's relocation,
  refining a finite map.
- **Character lists** (`ClistSpec`, `Clist`). All eight operations refine one byte queue over linked blocks; every
  block is free, on one list, or in a caller's hand.
- **Controller mailbox** (`Icc`), **event queues** (`EventSpec`, `EventLoss`, `EventQueue`), **message port and
  mouse** (`MessagePort`, `Mouse`), **remote disk** (`RemoteDisk`), **disk queue order** (`DiskSort`), over the
  shared `Chain` and `Pool`.
  `Arithmetic`, `Buffers` and `Wrappers` are shared: remainders, bytes and copies of them, optional values.
- **Port numbers and receive queues** (`Ports`, `EtherPorts`), and **windowed copies** (`WindowCopy`).

The source's records are C structures linked by pointers, most of them in fixed arrays. Here a record is an index,
each linked field is a sequence over all records, and the methods assign those sequences in the order of the code.
Every method is proved against a value-level specification, and the specification's properties are the lemmas.
Operations the kernel runs with interrupts blocked are atomic; a sleep is one round that returns with the
wait noted. What the environment decides (whether a copy from user memory succeeds, what a reply says, which
timer fires) is a parameter.

## Where the code does not keep what it is for

Each of these is kept as the code has it, with the exact condition proved.

- A back-reference may name a group that is still open: only closed groups are counted
  (`RegexpCorrect.SupportedIffRefsClosed`, `RegexpCorrect.OpenRefExists`).
- A starred back-reference to an empty capture never ends: the loop compares no characters and always goes on
  (`RegexpMatch.CopyLoopEndsIff`). `advance` fails to end exactly when cuts the text allows lead to one and no match
  is ahead of them (`RegexpSearch.SpinsIff`, `RegexpPattern.NeverFromIff`, `RegexpMatch.Matcher.AdvanceFrom`).
- A reply to a message that was submitted again meanwhile ends the mailbox queue behind it (`Icc.ReplyIsSafeIff`):
  the messages waiting behind are never sent, and address 0 is sent for a message (`Icc.ReplyLosesRest`). Such a
  state is reached (`Icc.SubmittedAgain`).
- With a dry pool and a single queued event, taking that event leaves the tail pointer behind
  (`EventQueue.Queue.Request`; `EventQueue.OneLeft` and `EventQueue.LoseOne` reach it). The next event is lost, and
  the later ones are lost with it exactly as long as a post finds a free record (`EventLoss.StepKeepsIff`). As each
  lost event keeps its record, a post may at last find none: it takes the end sentinel, the event lost last is
  queued again, and the sentinel passes for an event (`EventLoss.DryPostSurfaces`, `EventLoss.SentinelAnswers`).
- If that post is refused because its copy fails, the tail is left on the free list (`EventQueue.RefuseOne`). The next
  post then loses its event and no more exactly when the tail is the first free record; once another record has been
  released on top of it, the post makes the free list go round for ever through the end sentinel
  (`EventLoss.SlackPostIff`, `EventLoss.RingCloses`, `EventQueue.CloseRing`).
- A refused post that finds no record at all frees the end sentinel and leaves the tail pointer null; if the queue
  was in order, and so empty, no search ends after it (`EventLoss.DryRefusalSurfaces`,
  `EventLoss.BareRefusalNeverEnds`).
- The service loop of `proc_bmt_request` never ends when only the terminal or the keyboard waits
  (`Mouse.ServiceEndsIff`). Nothing in the repository sets those two requests, so `release_cbmt` always ends.
- Every remote transfer asks for the whole count or a whole chunk, so the last packet of a count above one chunk
  that is not a multiple of it runs past the buffer, and no other does (`RemoteDisk.EveryPacketWithinIff`,
  `RemoteDisk.LastPacketRunsOverIff`, `RemoteDisk.RunOverIsReached`).
- A read of an Ethernet port miscounts when its packet was taken by another reader or a new configuration
  (`EtherPorts.ReadEndIsRightIff`, `EtherPorts.TwoReads`). The miscount lasts until the port is closed, or gets another
  number while its count is above 0 (`EtherPorts.MissingAfter`, `EtherPorts.MiscountLasts`). A protocol number from
  0x8000 on is never heard from the network (`EtherPorts.HeardIff`). Setting a protocol again is not checked for a
  clash (`EtherPorts.OneReaderIff`, `EtherPorts.TwoReaders`).
- The motion of a mouse is counted in shorts: it is conserved exactly while no sum wraps, and modulo 2^16 otherwise
  (`Mouse.ExactWithoutWraps`, `Mouse.Device.Vsync`, `Mouse.MoveOn`).
- A second `hcreate` without `hdestroy` keeps the old count with an empty table (`HashTable.Table.HCreate`,
  `HashTable.CreateAgain`), and an empty block given to `putcb` stays on the list (`Clist.Kernel.Putcb`).
- A windowed copy that ends inside the last 2^17 bytes of the address space never meets its end but
  goes on round it, and one that ends at its very top copies nothing (`WindowCopy.CountIsRightIff`,
  `WindowCopy.Board.CopyIn`).

## Model

| member | source | states |
|---|---|---|
| RegexpSearch.CandidatesExact | usr/include/regexp.h:299-491 | The ends one instruction may try are exactly the segments its declarative meaning allows: literal, dot, class, star, range, group mark, back-reference, and the `locs` stop. |
| RegexpSearch.BackManyExact | usr/include/regexp.h:436-447 | The ends a starred back-reference tries are exactly the whole numbers of copies of the capture that follow. |
| RegexpSearch.SearchSound | usr/include/regexp.h:299-491 | Whatever backtracking answers is a match of the whole program that extends the cut points given. |
| RegexpSearch.SearchComplete | usr/include/regexp.h:299-491 | If any match extends the cut points, backtracking finds one, and one that is preferred to it. |
| RegexpSearch.SearchDecides | usr/include/regexp.h:299-491 | Backtracking succeeds at a position if and only if the program matches there; its answer is the greediest match (longest first, instruction by instruction). |
| RegexpSearch.PreferredIsUnique | usr/include/regexp.h:480-487 | Two matches each preferred to the other are the same: the greediest match, and so `loc2` and the captures, are determined. |
| RegexpSearch.DecideAgrees | usr/include/regexp.h:299-491 | A search that ends gives the answer of the declarative search. |
| RegexpSearch.SpinsIff | usr/include/regexp.h:436-447 | The search never ends from a position iff some cuts from there, all allowed by the text, lead to a starred back-reference whose capture is empty, and no match is ahead of them, that is, takes more text at the first instruction where they differ. |
| RegexpSearch.NoEmptyLoopEnds | usr/include/regexp.h:436-447 | Where no cuts lead to such an instruction, the search ends. |
| RegexpSearch.StarOfStarSpinsIff | usr/include/regexp.h:436-447 | The search for a starred group followed by its starred reference never ends exactly from the starts where the group's test accepts nothing. |
| RegexpSearch.PossibleIsNotReached | usr/include/regexp.h:436-447 | An empty capture that is possible but not reached does no harm: a concrete program and text where the search ends with a match. |
| RegexpMatch.AcceptsIsHas | usr/include/regexp.h:310-348 | The byte tests on operands in the program (literal, NUL test of dot, bitmap bit with its sign test) accept exactly the characters the instruction describes. |
| RegexpMatch.EcmpExact | usr/include/regexp.h:27 | The bounded comparison of a capture with the text is equality of the two stretches, and fails at the NUL. |
| RegexpMatch.CutsAscend | usr/include/regexp.h:350-356 | Cut points never go back, so a closed group has a well-formed capture. |
| RegexpMatch.Matcher.GetRnge | usr/include/regexp.h:493-499 | `low` is the lower limit; `size` is 20000 exactly when the upper one is 255 and plain char is unsigned, and otherwise what the upper limit has more. |
| RegexpMatch.Matcher.Run | usr/include/regexp.h:450-478 | The star loops stop one behind the longest run of accepted characters. |
| RegexpMatch.Matcher.CountedRun | usr/include/regexp.h:358-424 | The two counting loops succeed iff the mandatory characters are there, and stop one behind the longest run within the upper bound. |
| RegexpMatch.Matcher.Star | usr/include/regexp.h:480-487 | Trying shorter and shorter runs, cut off at `locs`, gives the answer of the declarative search; the globals that failed recursive calls overwrite do not change it. |
| RegexpMatch.Matcher.CopyRun | usr/include/regexp.h:440-441 | Comparing copy after copy ends at the largest whole number of copies of the capture. |
| RegexpMatch.CopyLoopEndsIff | usr/include/regexp.h:440-441 | The loop that compares copy after copy ends iff the capture is not empty. |
| RegexpMatch.Matcher.BackStar | usr/include/regexp.h:436-447 | A starred back-reference gives the answer of the declarative search for a capture that is not empty, and never ends for an empty one. |
| RegexpMatch.Matcher.Advance | usr/include/regexp.h:299-491 | `advance` returns exactly the answer of the search from its cut points, and fails to end exactly when that search comes to an empty starred capture; on success `loc2` and the capture arrays are those of the greediest match. |
| RegexpMatch.Matcher.AdvanceFrom | usr/include/regexp.h:299-491 | `advance` at the start of a program, if it ends there, returns 1 iff the program matches at that position, leaving the greediest match in `loc2`, `braslist` and `braelist`; it does not end iff there are cuts to an empty starred capture with no match ahead of them. |
| RegexpMatch.FirstChar | usr/include/regexp.h:277-278 | A program whose first byte is CCHR starts with the literal in its second byte. |
| RegexpMatch.NoMatchWithout | usr/include/regexp.h:277-288 | No position with another character than that literal matches: what the fast path skips could not have matched. |
| RegexpMatch.Matcher.Step | usr/include/regexp.h:266-297 | On success `loc1` is the leftmost position that matches, on failure no position does, and it never ends iff a position with such cuts comes before any that matches, or matches itself behind them; anchored, only the first is tried. The fast path and the regular loop have this one contract. |
| RegexpSyntax.BitmapExact | usr/include/regexp.h:25-26 | The bitmap stored for a set of characters holds exactly that set. |
| RegexpCompile.PlaceExact | usr/include/regexp.h:25 | PLACE(c) turns the bitmap of a set into the bitmap of the set with c. |
| RegexpCompile.NegateExact | usr/include/regexp.h:168-173 | The exclusive-or with 0377, and the mask on the first byte, give the bitmap of the complement without NUL. |
| RegexpCompile.Compiler.Place | usr/include/regexp.h:25 | In the output buffer, the class being built gains exactly c; the code before it is untouched. |
| RegexpCompile.Compiler.PlaceSpan | usr/include/regexp.h:141-160 | A span adds every character from its first to its last, widening the bitmap when the last is not ASCII. |
| RegexpCompile.Compiler.Negate | usr/include/regexp.h:168-178 | A negated class becomes a complemented wide bitmap, or NCCL with NUL marked. |
| RegexpCompile.Compiler.Bracket | usr/include/regexp.h:114-182 | A bracket expression appends exactly the class instruction of the characters scanned, or fails with the code's error. |
| RegexpCompile.Compiler.Number | usr/include/regexp.h:208-218 | Reads a decimal number and the character behind it; another character is error 16. |
| RegexpCompile.Compiler.Limit2 | usr/include/regexp.h:207-237 | Stores the two limits of a range, or fails with errors 16, 11, 44, 45 or 46 in the code's order. |
| RegexpCompile.Compiler.GroupMark | usr/include/regexp.h:187-201 | Groups are numbered in order of opening and closed innermost first; too many, or one too many closed, is an error. |
| RegexpCompile.Compiler.Token | usr/include/regexp.h:74-263 | One turn of the main loop is one step of the scanner, with the code stored so far and `lastep` kept. |
| RegexpCompile.Compiler.MainLoop | usr/include/regexp.h:74-264 | The loop yields the outcome of scanning the rest of the pattern, with the bytes of its instructions in the buffer. |
| RegexpCompile.Compiler.Run | usr/include/regexp.h:41-264 | `compile` does what `RegexpReading.CompileIff` says: the program's bytes and CCEOF in the buffer, with `nbra`, `circf`, `nodelim` and the place where reading stops; the old program kept; or the error. |
| RegexpReading.CompileIff | usr/include/regexp.h:41-264 | For every sequence of bytes, exactly when `compile` stores a program, and which; exactly when it keeps the old one; and exactly when it fails with each error, told by how the text is spelled: it splits into pieces (characters, quoted ones, brackets, stars, limits, marks, references), each allowed where it stands, up to an end with all groups closed, or up to something wrong. |
| RegexpReading.SplitScan | usr/include/regexp.h:74-263 | Reading the pieces of a text, whatever it is, leaves the code, the open groups and the counts that the pieces stand for. |
| RegexpReading.StoredIsBalanced | usr/include/regexp.h:184-201 | Every stored program has its group marks balanced: never more closed than opened, and as many in the end. |
| RegexpReading.BracketReads | usr/include/regexp.h:114-161 | A bracket expression of any parts that fit is read to its end with just the characters its parts name. |
| RegexpReading.BracketMeans | usr/include/regexp.h:162-178 | Its instruction accepts just those characters, or, with a caret, just the others. |
| RegexpReading.NumberReads | usr/include/regexp.h:207-218 | Digits are read as the number they write in decimal, as far as 32 bits hold it, up to a backslash or a comma; anything else behind them is an error. |
| RegexpReading.RangeFails | usr/include/regexp.h:203-237 | Limits fail with 16, 11, 44, 45 or 46 for a missing number, one above 255, a third one, a missing brace, or a lower upper limit. |
| RegexpReading.OpenGroupRefused | usr/include/regexp.h:97-98 | A concrete text with a group that is never closed is error 42. |
| RegexpMeaning.ClassReads | usr/include/regexp.h:123-161 | A written bracket expression scans back to exactly its members. |
| RegexpMeaning.LimitsRead | usr/include/regexp.h:203-237 | Written limits scan back to their values. |
| RegexpMeaning.TokensRead | usr/include/regexp.h:74-263 | The written form of a list of tokens takes the scanner to exactly the state those tokens stand for. |
| RegexpMeaning.CompileShown | usr/include/regexp.h:41-264 | Round trip: every pattern of the grammar, written out, compiles without error to the instructions it stands for, all groups closed and the anchor seen. |
| RegexpCorrect.FlatIsEncode | usr/include/regexp.h:41-264 | The bytes the compiler stores are the program text the matcher decodes. |
| RegexpCorrect.ClassMeaning | usr/include/regexp.h:114-182 | A compiled bracket expression accepts c iff c is not NUL and is described by it, or not described by it when negated. |
| RegexpCorrect.CompiledIsSupported | usr/include/regexp.h:41-264 | `compile` then `advance`: the stored bytes of a pattern whose references name closed groups are a program the matcher supports, standing for the pattern's items. |
| RegexpCorrect.SupportedIffRefsClosed | usr/include/regexp.h:246-252 | Counting closed groups is not enough: the compiled program is supported iff every back-reference names a group closed before it. |
| RegexpCorrect.OpenRefExists | usr/include/regexp.h:246-252 | A concrete pattern the compiler accepts although its back-reference is inside the group it names. |
| RegexpCorrect.ConsumingGroupsNeverSpin | usr/include/regexp.h:436-447 | If every starred back-reference names a group that consumes text, no start position meets the empty capture that would never advance, and the search ends from every start. |
| RegexpPattern.StandsIsSegment | usr/include/regexp.h:41-491 | A token of a pattern, read on its own terms with sets of characters and groups numbered by their opening marks, stands for a piece of text iff its compiled instruction may span it. |
| RegexpPattern.CountedStandsIff | usr/include/regexp.h:358-424 | Without a `locs` stop a counted atom stands for just the stretches of characters it fits whose length is within its limits, the upper limit 255 being 20000 more than the lower where plain char is unsigned. |
| RegexpPattern.StarredStandsIff | usr/include/regexp.h:450-478 | And a starred one for just the stretches of characters it fits. |
| RegexpPattern.GroupIsCaptured | usr/include/regexp.h:187-201 | The text between a group's marks in the pattern is the capture its compiled reference compares. |
| RegexpPattern.DescribesIsMatch | usr/include/regexp.h:41-491 | Meaning preserved: the cuts by which a pattern describes a text are exactly the matches of its program. |
| RegexpPattern.DescribesFromIff | usr/include/regexp.h:41-491 | A pattern describes some of the text from a position iff its program matches there. |
| RegexpPattern.HaltsIsTrap | usr/include/regexp.h:436-447 | The cuts at which the search never ends, told by the pattern alone: next is a starred reference to a group that stands for nothing, and no description of the text is ahead. |
| RegexpPattern.NeverFromIff | usr/include/regexp.h:41-491 | So the search for a written pattern never ends from a position iff the pattern and the text say so, without byte code. |
| RegexpPattern.Find | usr/include/regexp.h:41-297 | `compile` and then `step`, end to end: for every written pattern and text, the leftmost, greediest description found, or none exists, or a start comes first from which the search never ends, all three told by the pattern alone. |
| BmtFifo.StepInv | usr/sys/bmt/bmt_mpp.c:137-395 | Every single read or write of a shared word, and every interrupt or notification raised or taken, by either side in any order, keeps the ring invariant. |
| BmtFifo.RunInv | usr/sys/bmt/bmt_mpp.c:137-395 | So does every interleaving of such steps, for every ring of two slots or more. |
| BmtFifo.CheckInv | usr/sys/bmt/bmt_mpp.c:353-359 | The producer finds its next slot taken iff the ring holds as many items as it has slots. |
| BmtFifo.Safety | usr/sys/bmt/bmt_mpp.c:346-367 | In every reachable state the items read are a prefix of the items written, value for value, and at most ring-size items are unread. |
| BmtFifo.EveryCallIsKept | usr/sys/bmt/bmt_mpp.c:346-395 | In every reachable state the items of all calls, in order and less the refused ones, are those written and then the one the producer holds: none is lost, doubled or out of order. |
| BmtFifo.NoOverwrite | usr/sys/bmt/bmt_mpp.c:361-362 | A store never goes to an unread slot, and what is cleared is the oldest unread item. |
| BmtFifo.NoLostNotification | usr/sys/bmt/bmt_mpp.c:353-366 | With an unread item, an interrupt is pending, the consumer is draining, or the producer has its test or its interrupt to come; and a producer that waits on a full ring has its notification, or is about to get it, once a slot is free, even though one raised while nobody waits may be dropped at any time. |
| BmtFifo.PendingIffTold | usr/sys/bmt/bmt_mpp.c:137-395 | In every reachable state a notification is pending iff one was told and not heard or missed since, and an interrupt iff one was raised and not taken since. |
| BmtFifo.Drains | usr/sys/bmt/bmt_mpp.c:159-252 | From any such state the consumer alone delivers every item and comes to rest, a waiting producer having been notified. |
| BmtFifo.WaiterIsServed | usr/sys/bmt/bmt_mpp.c:346-367 | From any state with the producer waiting on a full ring, the consumer and then the producer, without giving up, end with that very item written last. |
| BmtFifo.Put | usr/sys/bmt/bmt_mpp.c:375-395 | The producer's steps back to back are one call: refused iff full, otherwise one item more and an interrupt iff the ring was empty. |
| BmtFifo.Take | usr/sys/bmt/bmt_mpp.c:137-157 | The consumer's steps back to back are one call of `read_fifo`: nothing iff empty, otherwise the oldest item, announced iff the ring was full. |
| BmtFifo.TestEmpty | usr/sys/bmt/bmt_mpp.c:363 | The slot at `prod` is clear iff all before the new item is read. |
| BmtFifo.TestWasFull | usr/sys/bmt/bmt_mpp.c:152-153 | The slot at `cons` is still taken iff the ring is full. |
| BmtFifo.Fifo.IntSignal | usr/sys/bmt/bmt_mpp.c:375-395 | On the real arrays: accepted iff a slot is free, the item joins the end, an interrupt is raised iff all before was read; a refusal changes nothing. |
| BmtFifo.Fifo.ReadFifo | usr/sys/bmt/bmt_mpp.c:137-157 | On the real arrays: the oldest unread item or signal 0, announced iff the ring was full. |
| BmtFifo.Fifo.Drain | usr/sys/bmt/bmt_mpp.c:171-252 | The drain loop handles exactly the unread items in order and leaves the ring empty. |
| HashSearch.Crunch | usr/include/hsearch.h:440-451 | The loop computes the sum of the characters plus their number in an unsigned word. |
| HashSearch.HashRange | usr/include/hsearch.h:408-436 | Both hash values are below the table length, and the stride is odd. |
| HashSearch.HashValues | usr/include/hsearch.h:408-451 | Their values: the topmost m bits of (sum of the characters + length) times 4022687899 in 32 bits, and the m bits below them with the lowest one set. |
| HashSearch.ProbeNext | usr/include/hsearch.h:239-241 | Advancing by the stride modulo the length gives the next probe of the sequence. |
| HashSearch.ProbesApart | usr/include/hsearch.h:239-249 | A whole table of probes never repeats a slot. |
| HashSearch.ProbesCover | usr/include/hsearch.h:239-249 | Every slot of the table is among the first `length` probes. |
| HashTable.SearchEnds | usr/include/hsearch.h:239-249 | With one slot to spare, the search loop ends before the table has been visited once. |
| HashTable.NotStored | usr/include/hsearch.h:244-252 | A search that ends on an empty slot has proved its key absent. |
| HashTable.InsertGood | usr/include/hsearch.h:298-300 | Storing in that slot keeps every key findable and adds exactly one entry to the map. |
| HashTable.SideIsProbe | usr/include/hsearch.h:276-279 | The secondary branch of a stored key continues that key's own probe sequence. |
| HashTable.WordProbeExact | usr/include/hsearch.h:276-279 | Wrap-around of the 32-bit products does not change the probe index. |
| HashTable.RelocatedFindable | usr/include/hsearch.h:287-294 | After Brent's relocation every key lies on its probe sequence with all earlier probes taken. |
| HashTable.RelocatedGood | usr/include/hsearch.h:287-300 | Brent's relocation keeps the table good, keeps every old entry and adds exactly the new one. |
| HashTable.SearchSettled | usr/include/hsearch.h:263-297 | What the search of the main branch leaves to do is the relocation of least total probes, the one furthest along the branch among equals, or none when none beats plain insertion; either way the table is good and has just the new entry more. |
| HashTable.Table.BestSite | usr/include/hsearch.h:263-286 | The search finds a move cheaper than inserting plainly iff there is one: new probes plus extra probes are fewer than `prcnt`, and no site is cheaper. |
| HashTable.Table.FirstGap | usr/include/hsearch.h:278-285 | The inner loop finds the first empty slot on a branch within the limit, or that there is none. |
| HashTable.Table.HCreate | usr/include/hsearch.h:172-192 | The table is empty and its length the smallest power of two above the size asked for; a size not positive is refused. The count is not reset: the table is in order iff it was 0 before. |
| HashTable.CreateAgain | usr/include/hsearch.h:172-192 | Calls from the start that end with an empty table that counts one entry. |
| HashTable.Table.Locate | usr/include/hsearch.h:217-249 | Stops on the key or on an empty slot, `prcnt` counting the probes, all earlier ones on other keys. |
| HashTable.Table.Insert | usr/include/hsearch.h:251-300 | Adds exactly the new entry and returns its slot: with Brent's variation and three probes or more, by the cheapest relocation if one costs fewer probes, the slot being the one vacated; otherwise in the empty slot the search ended on, nothing else moving. |
| HashTable.Table.HSearch | usr/include/hsearch.h:209-301 | `hsearch` refines a finite map: FIND changes nothing, ENTER never overwrites, and refuses only an absent key at `length - 1` entries; the result is the key's slot, and the table after ENTER is the one `HashTable.Table.Insert` describes. |
| ClistSpec.TakeIsDequeue | usr/sys/io/clist.c:8-33 | Taking one character is dequeuing the first byte of the list. |
| ClistSpec.PutIsEnqueue | usr/sys/io/clist.c:35-61 | Putting one character is appending one byte. |
| ClistSpec.TakeBlock | usr/sys/io/clist.c:131-164 | Unlinking a whole first block is taking its characters one by one. |
| ClistSpec.TakePart | usr/sys/io/clist.c:154-160 | Moving the start of the first block is taking that many characters one by one. |
| ClistSpec.PutPart | usr/sys/io/clist.c:188-204 | Filling the open last block at once is putting the characters one by one. |
| ClistSpec.PutFresh | usr/sys/io/clist.c:176-204 | Starting a fresh block with many characters is putting them one by one. |
| ClistSpec.TakeNBytes | usr/sys/io/clist.c:131-164 | n characters taken are the first n bytes, or all there are. |
| ClistSpec.PutNBytes | usr/sys/io/clist.c:166-209 | What is accepted is a prefix, appended; something is refused only when the last block is full and none is free. |
| ClistSpec.TakeKeepsBlocks | usr/sys/io/clist.c:131-164 | Taking any number of characters neither makes nor loses a block. |
| ClistSpec.PutKeepsBlocks | usr/sys/io/clist.c:166-209 | Nor does putting any number. |
| Clist.HeadOf | usr/sys/io/clist.c:14-22 | The pointers and `c_cc` of a list tell whether it is empty, and its first and last block are its own. |
| Clist.Unlink | usr/sys/io/clist.c:105-108 | Taking the first block off keeps every list, the free list and the ownership of every block in order. |
| Clist.Append | usr/sys/io/clist.c:118-128 | So does linking a filled block in hand at the end of a list. |
| Clist.FreePush | usr/sys/io/clist.c:86-87 | So does freeing a block in hand. |
| Clist.FreePop | usr/sys/io/clist.c:70-71 | So does taking a free block in hand. |
| Clist.Kernel.constructor | usr/sys/os/startup.c:374-387 | At the start every list is empty, and a block is free iff `over64k` does not reject it. |
| Clist.Kernel.Getc | usr/sys/io/clist.c:8-33 | The first character, or -1 from an empty list; chain, `c_cc`, free list and owners follow, and sleepers are told when a block is freed. |
| Clist.Kernel.Putc | usr/sys/io/clist.c:35-61 | The character joins the end, in a fresh block when the last is full; -1 and no change iff a block is needed and none is free. |
| Clist.Kernel.Getcf | usr/sys/io/clist.c:63-78 | A free block into the caller's hand with its limits set, or NULL. |
| Clist.Kernel.Putcf | usr/sys/io/clist.c:80-94 | A block in hand goes on the free list and the flag is cleared. |
| Clist.Kernel.Getcb | usr/sys/io/clist.c:96-109 | The first block with its characters leaves the list for the caller's hand; the list keeps the rest. |
| Clist.Kernel.Putcb | usr/sys/io/clist.c:111-129 | A block in hand joins the list with its characters behind those there; every list stays good iff it holds a character. |
| Clist.Kernel.Getcbp | usr/sys/io/clist.c:131-164 | Leaves the same chain, free list and bytes as n times `getc` up to the first -1, and returns those bytes. |
| Clist.Kernel.Putcbp | usr/sys/io/clist.c:166-209 | Leaves the same chain, free list and bytes as `putc` of each character up to the first -1, and returns how many were taken. |
| Icc.StepInv | usr/sys/io/icc.c:50-86 | Each submission, acknowledgement, reply or change by an owner keeps the invariant. |
| Icc.EveryRun | usr/sys/io/icc.c:50-229 | In every run: transmitted messages and then the queue are the accepted ones in order, once each; no letter replaces an unread one; an idle mailbox means an empty queue; `tr_val` was complemented once a letter. |
| Icc.LettersCarry | usr/sys/io/icc.c:50-76 | In every run each letter carries the flag, the identification and the data its message has when it is sent, and its address as the sender iff it asks for a reply. |
| Icc.Drains | usr/sys/io/icc.c:78-86 | k acknowledgements transmit the first k waiting messages, in order. |
| Icc.ReplyIsSafeIff | usr/sys/io/icc.c:112-114 | Clearing the link of the message a reply answers keeps "queued iff link is not zero" iff that message is not queued at the time. |
| Icc.ReplyLosesRest | usr/sys/io/icc.c:55-60 | What a reply to the k-th queued message breaks: k + 1 messages are sent, then address 0 is sent for a message, and none of those waiting behind is. |
| Icc.SubmittedAgain | usr/sys/io/icc.c:50-229 | A run from the start that has a message sent and queued again, with others before and behind it, when its reply may come. |
| Icc.Driver.constructor | usr/sys/io/icc.c:168-188 | The driver starts with an empty queue and a mailbox not yet read. |
| Icc.Driver.SendToIcc | usr/sys/io/icc.c:50-76 | The first message leaves the queue, its link is cleared, and the mailbox holds its flag, identification and data, with its address as the sender iff SEND is set; `tr_val` is complemented; nothing happens for an empty queue. |
| Icc.Driver.Xint | usr/sys/io/icc.c:78-86 | An acknowledgement transmits the next message or leaves the mailbox idle. |
| Icc.Driver.ComSend | usr/sys/io/icc.c:204-229 | Refuses iff the message is queued; otherwise queues it, and transmits at once when the mailbox is idle. |
| Icc.Driver.SubmitIcc | usr/sys/io/icc.c:231-243 | The flag is set even for a message then refused. |
| Icc.Driver.Rint | usr/sys/io/icc.c:111-122 | A reply sets REPLIED and overwrites identification and data, but not the sender, and clears the message's link; the queue stays good iff that message is not queued. |
| EventSpec.FirstHitIsFirst | usr/sys/bmt/kevent.c:84-97 | The event received is the oldest whose mask meets the request. |
| EventSpec.VictimIs | usr/sys/bmt/kevent.c:262-276 | A dry pool gives up the oldest event with code 12, under the newer policy and if there is one, and otherwise the oldest. |
| EventSpec.FlushExact | usr/sys/bmt/kevent.c:46-69 | Flushing frees exactly the selected events before the first one later than the limit, and keeps the others in order. |
| EventSpec.FlushInTimeOrder | usr/sys/bmt/kevent.c:58 | With events in time order that is: exactly the selected ones up to the limit. |
| EventSpec.StealKeepsTailIff | usr/sys/bmt/kevent.c:275-276 | Taking the oldest event without touching the tail pointer leaves the true tail iff another event is queued. |
| EventSpec.DeadIsEmpty | usr/sys/bmt/kevent.c:232-234 | A queue whose tail pointer missed shows no event. |
| EventLoss.StepKeepsIff | usr/sys/bmt/kevent.c:217-282 | While the queue reads empty with its tail elsewhere (a lost record, a free record, or the end sentinel itself), nothing posted is seen across any post, refused post, release or search exactly as long as a post finds a free record, which is the tail if the tail is free, or the code it looks for in the lost record. |
| EventLoss.EveryRun | usr/sys/bmt/kevent.c:217-282 | In every run of such steps nothing posted is ever seen. |
| EventLoss.SlackPostIff | usr/sys/bmt/kevent.c:217-282 | With the tail record on the free list, the next post loses its event and no more iff that record is the first free one; otherwise the free list has no end from then on. |
| EventLoss.RingCloses | usr/sys/bmt/kevent.c:217-282 | In that case the free list leads to the record just posted and goes round for ever between it and the end sentinel, while the queue still reads empty. |
| EventLoss.RefusalStays | usr/sys/bmt/kevent.c:255-282 | A refused post that finds the pool dry turns the end sentinel on itself when it took the lost record by its code, and otherwise the queue no longer reads empty. |
| EventLoss.DryPostSurfaces | usr/sys/bmt/kevent.c:275-276 | The post that does find it dry takes the end sentinel: the event lost last is queued again, alone, and the new event is written over the sentinel, which then points to itself. |
| EventLoss.DryRefusalSurfaces | usr/sys/bmt/kevent.c:217-282 | A refused post there takes the end sentinel and frees it: the event lost last is queued again, and the tail pointer is null. |
| EventLoss.SentinelAnswers | usr/sys/bmt/kevent.c:84-102 | From then on a search that selects nothing is answered with the event on the sentinel, whatever its mask. |
| EventLoss.BarePostHides | usr/sys/bmt/kevent.c:217-282 | A post to an empty queue in order, with every record in some caller's hand, does the same to the sentinel: the queue reads empty and its end passes for an event. |
| EventLoss.BareRefusalNeverEnds | usr/sys/bmt/kevent.c:84-97 | A refused post in that state leaves the front sentinel pointing to itself and the tail pointer null, and no search that selects anything ends. |
| EventSpec.Unlink | usr/sys/bmt/kevent.c:93-96 | Unlinking any event keeps queue, free list, places and the tail in order; both tests for the last event agree. |
| EventSpec.Enqueue | usr/sys/bmt/kevent.c:232-234 | Appending behind the true tail keeps them in order. |
| EventQueue.Queue.constructor | usr/sys/bmt/kevent.c:284-299 | All records are free and the tail points to the first sentinel. |
| EventQueue.Queue.Request | usr/sys/bmt/kevent.c:255-282 | From any queue in order, or reading empty after a lost event or a refused post: a free record; else the oldest event with code 12 under the newer policy; else the oldest; else, with nothing queued, the record the sentinel points back to, or the sentinel. The tail stays true iff a record was free, two events were queued, or the only one is taken by its code. |
| EventQueue.Queue.StealOldest | usr/sys/bmt/eventmngr.c:280-282 | The older policy: the oldest event, whatever its code. |
| EventQueue.Queue.Post | usr/sys/bmt/kevent.c:217-243 | From the same queues: the event joins the end and waiters are told, or nothing is posted when the copy fails; the queue stays in order iff the request found room, otherwise the event is lost, or the tail left on the free list; a queue that reads empty with its tail elsewhere takes the step of `EventLoss.Step`; a dry and empty one writes over the sentinel. |
| EventQueue.Queue.Release | usr/sys/bmt/kevent.c:245-253 | A record in hand goes on the free list. |
| EventQueue.Queue.Receive | usr/sys/bmt/kevent.c:71-110 | One round: the oldest selected event goes to the caller and the others keep their order, or the sentinel is returned and the wait noted; after a lost event or a refused post, just the sentinel's mask changes. |
| EventQueue.Queue.LookFor | usr/sys/bmt/kevent.c:112-148 | The same event, left in the queue. |
| EventQueue.Queue.Remove | usr/sys/bmt/kevent.c:46-69 | The queue and free list become those of the flush, records in callers' hands stay there, and nothing changes at all after a lost event or a refused post. |
| EventQueue.OneLeft | usr/sys/bmt/kevent.c:71-110 | Posting and receiving reach a dry pool with one queued event, for every number of records. |
| EventQueue.LoseOne | usr/sys/bmt/kevent.c:217-282 | One more post from there loses its event. |
| EventQueue.RefuseOne | usr/sys/bmt/kevent.c:217-223 | When that post is refused, its record, the tail, is on the free list. |
| EventQueue.CloseRing | usr/sys/bmt/kevent.c:217-282 | Releasing a record received before, and posting once more, closes the free list into a circle, for every pool of two records or more. |
| MessagePort.ReceiveRep | usr/sys/bmt/kmpp.c:109-117 | Taking the first message keeps port, free list and the place of every message in order. |
| MessagePort.PostRep | usr/sys/bmt/kmpp.c:52-62 | So does sending at the end. |
| MessagePort.PushRep | usr/sys/bmt/kmpp.c:76-86 | So does sending at the front. |
| MessagePort.ReleaseRep | usr/sys/bmt/kmpp.c:197-199 | So does releasing into the pool. |
| Mouse.CountKeeps | usr/sys/bmt/kmouse.c:63-64 | Adding the hardware counters to a 16-bit position keeps the motion balanced modulo 2^16. |
| Mouse.MergeKeeps | usr/sys/bmt/kmouse.c:131-136 | Merging into a message still on the port neither loses nor doubles motion. |
| Mouse.SendKeeps | usr/sys/bmt/kmouse.c:138-146 | Nor does sending it in a message of its own. |
| Mouse.ReceiveKeeps | usr/sys/bmt/kmpp.c:109-117 | What the server receives is what the port loses. |
| Mouse.OtherKeeps | usr/sys/bmt/kmpp.c:42-87 | Messages of others change the balance by just the motion they carry. |
| Mouse.ExactWithoutWraps | usr/sys/bmt/kmouse.c:63-64 | While no 16-bit sum has wrapped, the motion reported and not yet received is exactly what is on the port or pending. |
| Mouse.FitsIffNoTurn | usr/sys/bmt/kmouse.c:131-136 | A sum wraps iff it leaves the range of a short. |
| Mouse.MoveOn | usr/sys/bmt/kmouse.c:56-68 | Calls from the start that wrap a sum: with the pool dry, 259 ticks of motion 127. |
| Mouse.ServiceEndsIff | usr/sys/bmt/cbip.c:395-419 | The service loop ends, and then within two turns, iff the mouse or the tablet waits. |
| Mouse.ServiceAlternates | usr/sys/bmt/cbip.c:395-419 | When both wait, the device served last yields to the other in the next call; the toggle is one for both boards, so this speaks of consecutive calls. |
| Mouse.ChangeIffEvent | usr/sys/bmt/kmouse.c:62 | The change test agrees with a button event, so merged messages hide no button. |
| Mouse.KeysTell | usr/sys/bmt/kmouse.c:150-178 | The event and the buttons from the bits of the status: which button changed last in the order left, middle, right, up or down, and which are down. |
| Mouse.Device.constructor | usr/sys/bmt/kmpp.c:233-257 | All messages are free, the port is empty and no motion is pending. |
| Mouse.Device.GetMsg | usr/sys/bmt/kmpp.c:175-183 | A free message into the caller's hand, or NULL. |
| Mouse.Device.Send | usr/sys/bmt/kmpp.c:42-87 | The message joins the port at its end or its front, and IN_QUEUE says so. |
| Mouse.Device.SendMouseRec | usr/sys/bmt/kmouse.c:120-148 | With a message free, the motion leaves at once; with none, a request is noted and the motion merged or kept, on the code's conditions. |
| Mouse.Device.TabSend | usr/sys/bmt/ktablet.c:149-178 | The newest tablet position replaces a queued one of the same event, is sent, or is noted as waiting. |
| Mouse.Device.TabMergesTells | usr/sys/bmt/ktablet.c:157-163 | The newest tablet position replaces the last exactly while that message waits on the port for the same event. |
| Mouse.Device.TabRequest | usr/sys/bmt/ktablet.c:180-193 | Sends the tablet's message; the pool is not dry whenever this is called. |
| Mouse.Device.ProcRequest | usr/sys/bmt/cbip.c:395-419 | Serves one waiting device within two turns, the one the toggle gives, and clears its request. |
| Mouse.Device.Release | usr/sys/bmt/kmpp.c:185-208 | The message returns to the pool, or goes straight to a device that waits; the call always ends in reachable states. |
| Mouse.Device.Request | usr/sys/bmt/kmpp.c:155-173 | One round: a free message, or the client noted as waiting. |
| Mouse.Device.ClientSend | usr/sys/bmt/kmpp.c:259-281 | A client's message joins the port, its motion entered in the books. |
| Mouse.Device.Receive | usr/sys/bmt/kmpp.c:89-118 | The first message, IN_QUEUE cleared and its motion entered as received; or NULL and the server noted as waiting. |
| Mouse.Device.Vsync | usr/sys/bmt/kmouse.c:56-68 | Conservation: motion reported is motion received, on the port, or pending, modulo 2^16 and exactly while no sum has wrapped, and this call wraps none if its sums fit; with a message free nothing stays pending, with none it is merged or kept on the code's conditions. |
| Mouse.Device.ButtonInt | usr/sys/bmt/kmouse.c:105-118 | The same, and a message leaves whenever one is free. |
| RemoteDisk.StepInv | usr/sys/io/rmt.c:40-328 | Each request, reply and timeout keeps the invariant. |
| RemoteDisk.EveryRun | usr/sys/io/rmt.c:40-328 | In every run accepted requests are finished in order, once each, or still queued; one packet with its one timer is outstanding iff a request is queued; no packet is sent more than 7 times. |
| RemoteDisk.SubmitOutcome | usr/sys/io/rmt.c:40-73 | A request is queued with its error marks cleared, and sends its first packet at once if it is alone; one for a foreign device changes nothing. |
| RemoteDisk.ReplyOutcome | usr/sys/io/rmt.c:238-326 | An error fails the request; a reply to a swap command or for the last bytes ends it; the residue is the count less what was done; any other reply asks for the bytes behind it under the next sequence number, 1 after 9999. |
| RemoteDisk.TimeoutOutcome | usr/sys/io/rmt.c:222-236 | A packet that was sent seven times fails its request with error 6 at its timeout; otherwise the same packet is sent again. |
| RemoteDisk.StaleIsIgnored | usr/sys/io/rmt.c:222-236 | A timer or a reply for an old sequence number changes nothing at all. |
| RemoteDisk.EffectiveProgress | usr/sys/io/rmt.c:207-328 | An answer or a timeout of the outstanding packet finishes the head request or lowers a measure of remaining chunks and retries. |
| RemoteDisk.HeadCompletes | usr/sys/io/rmt.c:207-328 | In any run with that many answers and timeouts the head request is finished, whatever else happens. |
| RemoteDisk.WithinIff | usr/sys/io/rmt.c:176-182 | A packet stays within its request's count iff it is not the last one of a count that the chunk does not divide: the size is cut to the whole count, not to what remains. |
| RemoteDisk.EveryPacketWithinIff | usr/sys/io/rmt.c:176-182 | In every run whose replies carry what was asked for, that holds of every packet the driver sent. |
| RemoteDisk.LastPacketRunsOverIff | usr/sys/io/rmt.c:176-182 | And a request that finishes by its last reply has sent such a packet iff its count exceeds one chunk and is not a multiple of it. |
| RemoteDisk.RunOverIsReached | usr/sys/io/rmt.c:176-182 | It happens: for every chunk and every count above it that it does not divide, a run from the start, answered chunk by chunk, sends a packet that runs over. |
| RemoteDisk.Driver.Strategy | usr/sys/io/rmt.c:40-73 | Refuses a foreign device; otherwise appends the request, and sends its first packet when the driver was idle. |
| RemoteDisk.Driver.Send | usr/sys/io/rmt.c:193-199 | One packet, one timer for the sequence number. |
| RemoteDisk.Driver.TimedOut | usr/sys/io/rmt.c:222-236 | A current timeout repeats the packet, or fails the request after the seventh; any other does nothing. |
| RemoteDisk.Driver.Received | usr/sys/munet/diskless.c:213-222 | A reply to the outstanding packet is passed on; others are dropped. |
| RemoteDisk.Driver.Accept | usr/sys/io/rmt.c:238-326 | An error, a swap command or the last chunk finishes the request; else the next chunk is sent under a new sequence number. |
| RemoteDisk.Driver.Finish | usr/sys/io/rmt.c:302-326 | The head leaves with its residue, and the next request starts from offset 0, or the driver is idle. |
| DiskSort.TwoRunsKept | usr/sys/io/dsort.c:60-102 | An insertion leaves at most two ascending runs of blocks behind the head. |
| DiskSort.TwoRunsServed | usr/sys/io/dsort.c:68-77 | Taking the head does too. |
| DiskSort.PlacedInOrder | usr/sys/io/dsort.c:93-96 | The new request stands before a greater block and, within its run, behind all that are not greater. |
| DiskSort.NewIndexIff | usr/sys/io/dsort.c:72-96 | The place is determined: a block below the one served next waits for the second run, any other joins the first, behind all that are not greater. |
| DiskSort.EveryRun | usr/sys/io/dsort.c:60-102 | In every run of insertions and removals: two runs, and every request served once or queued once. |
| DiskSort.DoInv | usr/sys/io/dsort.c:60-102 | One operation keeps that, and an insertion never moves the head. |
| DiskSort.OldIndexIsFirst | usr/sys/io/dsort.c:38-43 | The older sort stops at the first gap that fits the block and the waiting time. |
| DiskSort.GapMeans | usr/sys/io/dsort.c:38-43 | The gap before a request fits when the block lies between its two neighbours, whichever is the lower, and the request has waited less than 30 ticks longer. |
| DiskSort.BlockTells | usr/sys/io/dsort.c:51-58 | The block on the drive is the file system's offset and the block within it, or `b_resid` without offsets. |
| DiskSort.Queue.NewSort | usr/sys/io/dsort.c:60-102 | The queue becomes the old one with just the new request inserted at that place, `av_back` at its end. |
| DiskSort.Queue.DiskSort | usr/sys/io/dsort.c:20-49 | The same for the older sort and its place. |
| DiskSort.Queue.SkipRun | usr/sys/io/dsort.c:82-89 | The do loop ends at the end of the first ascending run. |
| Ports.NthApart | usr/sys/io/sbp.c:223-227 | Within one round of the cursor no number comes twice. |
| Ports.NthGoesUp | usr/sys/io/sbp.c:223-227 | The numbers tried start at the cursor and go up by one, 1001 following 4095. |
| Ports.FirstFreeTells | usr/sys/io/sbp.c:223-227 | The number found is free, all between the cursor and it are taken, and the cursor moves to the next. |
| Ports.TriesBounded | usr/sys/io/sbp.c:223-227 | Pigeonhole: numbers tried that all clash are no more than the configured ports. |
| Ports.FreeNumberExists | usr/sys/io/sbp.c:223-227 | While one port is not configured, a free number comes up within as many tries as there are ports. |
| Ports.Clashes | usr/sys/io/sbp.c:241-251 | True iff some configured port has the number. |
| Ports.Allocate | usr/sys/io/sbp.c:223-227 | The loop ends with the first number from the cursor on that no configured port has, the cursor behind it. |
| Ports.Configure | usr/sys/io/icc_ether.c:418-446 | Configured numbers stay pairwise distinct; the port is configured iff the copy succeeded and the number asked for, unless DYNAMIC, was free. |
| Ports.SetToTells | usr/sys/io/icc_ether.c:418-446 | The port has the number asked for, or for 1000 the one found, and is configured unless the copy failed or another configured port has it. |
| Ports.Sbp.BbpSet | usr/sys/io/sbp.c:209-235 | The same for the ports of sbp.c, whose waiting message is dropped when the number changes. |
| Ports.Sbp.Open | usr/sys/io/sbp.c:49-66 | Refused for a port that does not exist or is open; an opened port is not configured. |
| Ports.Sbp.Close | usr/sys/io/sbp.c:166-179 | A closed port is not configured and keeps no message. |
| EtherPorts.ReadEndIsRightIff | usr/sys/io/icc_ether.c:147-150 | The end of a read keeps `pt_rc` equal to the queue length iff a packet is still queued then. |
| EtherPorts.UndisturbedRead | usr/sys/io/icc_ether.c:122-150 | With only packets arriving meanwhile it is, and the packet read is the oldest. |
| EtherPorts.MiscountHides | usr/sys/io/icc_ether.c:122-150 | After a read that found its packet gone, and with arrivals alone, one packet more is queued than is counted, and a lone packet is never readable. |
| EtherPorts.MissingAfter | usr/sys/io/icc_ether.c:122-150 | Every operation on the port keeps the miscount, except a read that finds its packet gone, which adds one, and closing the port or setting another number while the count is above 0, which clears it. |
| EtherPorts.MiscountLasts | usr/sys/io/icc_ether.c:122-150 | So in every run until then it never shrinks, and at least that many packets sit unread while the port does not look readable. |
| EtherPorts.HeardIff | usr/sys/io/icc_ether.c:201-206 | A port hears its protocol from the network iff the number is below 0x8000, since the port's copy is signed. |
| EtherPorts.TakesIff | usr/sys/io/icc_ether.c:172-215 | A packet for a port number goes to the configured port of that number if it is open for reading, has room and accepts the station or any; one of a protocol goes to the first port open and configured to read it, if that has room; if nobody may be woken, to a sleeper only. |
| EtherPorts.AppendedTells | usr/sys/io/icc_ether.c:185-197 | A packet taken joins the end of the queue, is counted, and wakes the reader; nothing else of the port changes. |
| EtherPorts.OneTaker | usr/sys/io/icc_ether.c:178-207 | No packet is for two ports. |
| EtherPorts.OneReaderIff | usr/sys/io/icc_ether.c:489-497 | Configuring a protocol leaves one reader for each iff the port does not read or no other reads it; a repeated setting is not checked. |
| EtherPorts.Driver.Open | usr/sys/io/icc_ether.c:71-96 | Refused for a port that does not exist or is open; otherwise nothing is received and one packet may be kept. |
| EtherPorts.Driver.Close | usr/sys/io/icc_ether.c:369-381 | Everything kept is released and the port is not configured. |
| EtherPorts.Driver.Receive | usr/sys/io/icc_ether.c:153-226 | A packet joins the queue of the one port that takes it, or is released because none does; the counts stay right and within `pt_mrc`. |
| EtherPorts.Driver.Loopback | usr/sys/io/icc_ether.c:281-326 | The same for a packet to this station, without a reader asleep. |
| EtherPorts.Driver.ReadBegin | usr/sys/io/icc_ether.c:122-127 | A reader passes iff a packet is counted; otherwise its sleep is noted. |
| EtherPorts.Driver.ReadEnd | usr/sys/io/icc_ether.c:147-150 | Releases the oldest packet; the driver stays consistent iff there was one. |
| EtherPorts.Driver.BbpSet | usr/sys/io/icc_ether.c:418-447 | Numbers as for `Ports.Configure`; the queue is dropped with its count when the number changes. |
| EtherPorts.Driver.ProtoClash | usr/sys/io/icc_ether.c:546-557 | True iff a configured port has the protocol and its read flag equals the opening mode. |
| EtherPorts.Driver.EthSet | usr/sys/io/icc_ether.c:475-504 | Accepted iff the copy succeeds, the protocol is not reserved, and it is the port's own or clashes with no other; one reader a protocol survives iff a reading port did not repeat a protocol another reads. |
| EtherPorts.Driver.SetBuf | usr/sys/io/icc_ether.c:532-538 | A configured port may keep 32 packets. |
| EtherPorts.TwoReaders | usr/sys/io/icc_ether.c:475-504 | Calls from the start that end with two readers of one protocol. |
| EtherPorts.TwoReads | usr/sys/io/icc_ether.c:122-150 | Calls from the start that end with a miscount of one. |
| WindowCopy.PieceFits | usr/sys/bmt/bmt_cpmem.c:53-66 | A piece stays inside one window and, unless the end is in the last window, below the end; with an end there it fills its window and passes the end by. |
| WindowCopy.CountIsRightIff | usr/sys/bmt/bmt_cpmem.c:50-53 | The loop copies just the count asked for iff it is 0 or the copy ends before the last window. |
| WindowCopy.Masks | usr/sys/bmt/bmt_cpmem.c:54-61 | The mask, the shift and the low bits of the address are its window and its offset. |
| WindowCopy.Board.CopyIn | usr/sys/bmt/bmt_cpmem.c:43-68 | Every byte lands at its flat address, or a prefix when the user memory ends; an end in the last window is never met: the copy goes on round the address space in whole windows until the next would pass the end of the user memory, and fails there with just those bytes written. |
| WindowCopy.Board.CopyOut | usr/sys/bmt/bmt_cpmem.c:70-95 | The same in the other direction. |
| WindowCopy.Board.RoundIn | usr/sys/bmt/host_mpp.c:225-236 | One round maps the window of the address and copies the piece through it. |
| WindowCopy.Board.RoundOut | usr/sys/bmt/host_mpp.c:253-262 | The same in the other direction. |

## Left out

Regular expressions:

- RegexpMatch.Matcher.Step: programs `advance` has no case for are excluded (a range on a back-reference or a group mark, a group used before it is closed).
- RegexpMeaning.CompileShown: one written form for each construct: a literal is escaped only where it must be, equal limits are written once, the upper limit 255 is written as the open range, and a bracket expression has neither NUL nor newline and its ranges in order (their ends may pass 127). What the compiler does with any bytes at all is stated by RegexpReading.CompileIff.
- RegexpCompile.Compiler.Run: the checks against `endbuf` (error 50) are left out, so the buffer is as long as the pattern needs; a character read is one of 0 to 255, and reading past the pattern is an outcome of its own.
- The macros INIT, GETC, PEEKC, UNGETC, RETURN and ERROR belong to the including program; reading from a string stands for them.

FIFO:

- BmtFifo.Safety: memory is sequentially consistent, with one producer and one consumer.
- BmtFifo.NoLostNotification: the producer's test for a full ring and its going to sleep are one step, and a notification that finds nobody waiting is lost.
- The sleep of `Signal_bmt` is a retry after a notification; `receive_bmt`, `request_bmt` and `send_bmt`, whose notifications differ, are not modelled.
- What the interrupt handler does with each signal.

Hash table:

- HashTable.Table.HCreate: what later calls do after a second `hcreate` that kept a count.
- HashTable.Table.HSearch: the second hash of an empty slot's null key, which the relocation loop evaluates once and does not use, is not evaluated.
- The chained variants, division hashing, and the driver program.

Character lists:

- Clist.Kernel.Getcbp: unlike `getc` it frees blocks without clearing the flag of the free list, and the contract says the flag is unchanged.
- Clist.Kernel.Putcb: what later calls do with an empty block left on a list.
- Wake-ups, beyond the flag.

Mailbox and events:

- Icc.EveryRun: a reply to a message that is queued again is not an event of these runs; Icc.Driver.Rint allows it, and Icc.ReplyIsSafeIff and Icc.ReplyLosesRest say what it breaks.
- The interrupt part of `icc_rint`, and `rr_val`, which belong to unseen handlers.
- EventQueue.Queue.Post: event codes are 1 to 31, code 0 being the sentinel's, and a copy that fails leaves the record's event as it was. Once the end sentinel was taken or freed, or the free list goes round, the state reached is given exactly, with the records a search from its front comes to, but no further call is described.
- EventQueue.Queue.constructor: `event_init` leaves the event of the front sentinel unset, though the search for code 12 reads it on an empty queue; here its code starts as 0 and its mask as empty, as in cleared memory.
- EventQueue.Queue.Receive: one round of the wait loop; how long a caller sleeps is left out.
- `GetEvent`, `FlushGetEvent` and `EventAvail`, which call the modelled functions and copy the event out.

Mouse and message port:

- Mouse.ServiceAlternates: the toggle of the two boards is one variable; a call for the other board between two calls for this one changes who is served.
- Mouse.Device.Vsync: one device that is active; the tablet, server and keyboard watch dogs of the same interrupt are separate.
- Mouse.Device.ClientSend: a client's message is sent as filled in; long messages, replies and their flags are left out.
- Mouse.Device.Release: a message marked LONG_ERROR or NORELEASE stays where it is; the terminal output the former starts is left out.

Remote disk and disk order:

- RemoteDisk.Driver.Received: the fields a reply carries for swap commands are left out; byte counts do not wrap, since a buffer ends below the top of the address space.
- RemoteDisk.HeadCompletes: replies carry the size asked for.
- RemoteDisk.EveryPacketWithinIff: replies carry the size asked for, since the next offset is what a reply says was done.
- RemoteDisk.Driver.Send: a packet is its sequence number, request, offset and size; its data and the command encoding are left out.
- DiskSort.Queue.NewSort: block numbers are below 2^31, so that `realblk` returns them unchanged.

Ports and copies:

- Ports.Sbp.Close: the empty message `sbpclose` sends before it closes, which may sleep, is left out with `sbpwrite`.
- Ports.Configure: the copied configuration beyond the number is left out; what a failed copy leaves in the number is a parameter.
- EtherPorts.Driver.Receive: a packet is whole, reassembly of fragments being elsewhere; the receive queue of `rq_append`, `rq_relfirst` and `rq_relall` is a sequence.
- EtherPorts.Driver.Loopback: the transmission of packets for other stations.
- WindowCopy.Board.CopyIn: a copy of one piece is all or nothing, and user memory is what lies below one limit.

Not modelled at all: device registers, interrupt levels, the sleep queue itself, address translation, the device and
line-discipline drivers, console output, SCSI, the system-call wrappers of the network, and configuration tables.
