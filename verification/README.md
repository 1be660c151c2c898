# Verified model of libDwm's queue, serializers and tables

This project models five parts of libDwm in Dafny and proves what they do for every input,
every run and every interleaving. `dafny verify dfyconfig.toml` checks all of it.

* **ConcurrentQueue** (`ConcurrentQueue.dfy`, `Queue*.dfy`). A step system: any number of
  threads, each with a program counter and locals, execute one statement at a time in any
  order over an explicit heap of live nodes; addresses may be recycled. The invariant and
  its preservation are in `QueueInvariant`, `QueueSteps`, `QueueMoves`, `QueueLocals` and
  `QueueRuns`, the counter in `QueueLength`, the results for every state in `QueueTheorems`
  and for whole calls in `QueueCalls`, and two runs that show the results cannot be improved
  in `QueueWitnesses`.
* **The binary serializers** DescriptorIO, FileIO, GZIO and BZ2IO (`Codec*.dfy`). Types and
  values are datatypes. `Codec` gives the encoding and, as functions, what Read and Write
  of each backend return, leave and consume; `CountedIO` and `FileIO` are the imperative
  readers and writers over streams that end early (`Source`) or stop accepting (`Sink`),
  proved to do just that, with `CodecLoops` and `WriteLoops` carrying their loops.
  `CodecRoundTrip` and `CodecTheorems` prove that reading gives back what was written,
  `CodecPrefixes` and `CodecOrder` that encodings are unambiguous and independent of
  iteration order, `CodecTruncation`, `CodecWrites`, `CodecTargets` and `CodecLengths` what
  happens at truncations, refusals, used targets and to announced lengths, `CodecStrings`,
  `CodecInterchange` and `CodecDrift` what happens to strings between FileIO and the others,
  and `CodecExamples` gives concrete inputs at which the code falls short of its purpose.
  `CodecLayout`, `CodecDecoding` and `CodecEmission` say what is encoded, read and written
  byte by byte and by place value, `CodecValues` what is then held, and `CodecParts` restates
  the conditions of the theorems in terms of the parts of types and values.
* **EncodedUnsigned and EncodedSigned** (`EncodedInteger.dfy`, `Bytes.dfy`): objects over a
  memory of bytes in the machine's order, with reading in place and the byte swap.
* **Ipv4PrefixMap** (`Ipv4Prefix.dfy`, `Ipv4PrefixMap.dfy`): the table, its index by length,
  and the longest match of section 5.2.4.3 of RFC 1812 as a scan of all prefixes.
* **Arguments** (`Arguments.dfy`): the parse as a machine over the options getopt delivers.

## Where the code differs from its purpose

The theorems are about the code as it is. Where it misses its documented purpose they give
the exact condition under which it does not, and a concrete input shows that it can.

* Bulk `PopFront` never copies the last value (`BulkPopDelivers`, `BulkPopLosesLast`).
* `DescriptorIO`, `GZIO` and `BZ2IO` leave a target optional alone when none was written
  (`LeftIsTheValue`, `StaleOptional`).
* Components that take no bytes (empty arrays and tuples, monostates) make every aggregate
  but a variant unreadable and unwritable for these three; so does a member of a tuple that
  takes 2^31 bytes or more, whose count passes through an int. `Solid` is the exact
  condition (`ReadSucceedsExactly`, `WriteSucceedsExactly`, `EmptyArrayMember`).
* A truncated float satisfies DescriptorIO and GZIO; a truncated integer of two or four bytes,
  GZIO and BZ2IO; a truncated or bad variant, GZIO and BZ2IO. `Telling` is the exact condition
  (`Truncated`, `TruncatedFloat`, `TruncatedVariant`). FileIO reports every truncation.
* `ContainerWrite` loses the -1 of a refused element, and refused integers return partial
  counts; `Reporting` is the exact condition (`WriteRefused`, `RefusedElement`). FileIO
  reports every refusal.
* FileIO writes the length of a string in eight bytes, the others as an EncodedU64, although
  DescriptorIO's header documents eight bytes there too, so values with strings do not travel
  between FileIO and the others (`CrossReadsExactly`, `FromFileIO`, `ToFileIO`, `EmptyStrings`).
* `StreamedLength` and `ConstStreamedLength` omit the extents of bounded arrays and the
  flags of optionals, and the former throws on empty ones (`LengthIsShortBy`,
  `StaticLengthIsShortBy`, `BoundedArrayLength`).
* `GotRequiredArgs` never resets `foundConflict`; `Hides` is the exact condition on the
  declaration (`DeclarationOrderDecides`, `AcceptedMeansRequired`,
  `MissingOptionSlipsThrough`). A later conflict group replaces an earlier one
  (`LastGroupWins`, `SharedGroupIsForgotten`).

## Model

Paths are relative to the root of the repository. A range that spans several overloads covers
those the member handles; where GZIO and BZ2IO repeat DescriptorIO only one of them is cited.

| member | source | states |
|---|---|---|
| `QueueTheorems.EveryStatementIsSafe` | classes/include/DwmConcurrentQueue.hh:126-226 | In every state any schedule of any number of threads reaches, the statement each thread is about to execute follows no null or freed pointer, deletes only a live node and indexes its vectors in range. |
| `QueueTheorems.LiveNodesHaveOneOwner` | classes/include/DwmConcurrentQueue.hh:126-226 | The live nodes are exactly those of the chain from `_front` and of the threads' private segments; each is in one of these places only, and once. Nothing leaks and nothing is freed twice. |
| `QueueTheorems.BackIsLast` | classes/include/DwmConcurrentQueue.hh:194-226 | The chain from `_front` ends in null, and `_back` names its last node unless the holder of the push lock stands between linking and moving `_back`. |
| `QueueTheorems.LocksExclude` | classes/include/DwmConcurrentQueue.hh:126-226 | At most one thread is inside each of the two critical sections. |
| `QueueTheorems.FirstInFirstOut` | classes/include/DwmConcurrentQueue.hh:126-226 | With pushes ordered by the statement that links them and pops by the one that advances `_front`, the values popped and then the values still linked are the values pushed, in order. |
| `QueueTheorems.PopTakesTheLatest` | classes/include/DwmConcurrentQueue.hh:126-188 | Until it gives up the lock, what a pop has removed is the latest stretch of all values popped. |
| `QueueTheorems.PopsTakeTurns` | classes/include/DwmConcurrentQueue.hh:126-188 | At every moment, and long after each has released the lock, what the threads' pops have removed are stretches of consecutive popped values, no two of which share a position: no value is delivered twice. |
| `QueueTheorems.HistoryStays` | classes/include/DwmConcurrentQueue.hh:126-188 | Whatever runs on, what was popped keeps its position, so a pop's stretch is apart from those of all later pops too. |
| `QueueTheorems.FalseMeansEmpty` | classes/include/DwmConcurrentQueue.hh:127-143 | A pop comes to return false exactly if everything pushed had been popped when it looked. |
| `QueueTheorems.SinglePopDelivers` | classes/include/DwmConcurrentQueue.hh:126-143 | A single pop returns the one value it removed. |
| `QueueCalls.BulkPopTakesAll` | classes/include/DwmConcurrentQueue.hh:155-165 | The walk of a bulk pop stops exactly when everything pushed has been popped, and what the pop then holds is everything that had been pushed by that time and not been popped when it took the lock. |
| `QueueCalls.RunOfStopped` | classes/include/DwmConcurrentQueue.hh:163-188 | What it holds then it still holds when it returns. |
| `QueueTheorems.BulkPopDelivers` | classes/include/DwmConcurrentQueue.hh:148-188 | A bulk pop returns as many values as it removed, all but the last being those; the vector is right exactly if what resizing left in its last slot equals the last value. A variant that copies that value before the unlock is always right. |
| `QueueCalls.PushDelivers` | classes/include/DwmConcurrentQueue.hh:194-226 | A push returns only once all its values have been linked, in order and with nothing between them, behind all that had been linked when it was called. |
| `QueueCalls.PopReturns` | classes/include/DwmConcurrentQueue.hh:126-188 | A pop ends with false and nothing taken, or with what was asked for: one value, or all in the vector that was given. |
| `QueueCalls.WaitsExactly` | classes/include/DwmConcurrentQueue.hh:126-226 | In the middle of a call a thread stays where it is exactly at a gate that is closed and at a lock that is held; every other statement brings it closer to its return. |
| `QueueCalls.CallsReturn` | classes/include/DwmConcurrentQueue.hh:126-226 | From every reachable state a call whose gate is open and whose lock is free returns if its thread runs alone, within a number of statements given by its place and the chain. |
| `QueueTheorems.DepthIsBounded` | classes/include/DwmConcurrentQueue.hh:194-226 | With batches of at most B and P threads, the linked depth never exceeds `_maxLength` + P*B, counter wrap included. |
| `QueueTheorems.LengthIsAccounted` | classes/include/DwmConcurrentQueue.hh:138-224 | Modulo 2^64, `_length` is the depth, less pushes linked and not counted, plus pops removed and not counted. |
| `QueueTheorems.LengthIsExactAtRest` | classes/include/DwmConcurrentQueue.hh:138-224 | When no call is under way `_length` is the depth. |
| `QueueTheorems.AtRestQueueOwnsAll` | classes/include/DwmConcurrentQueue.hh:112-119 | When no call is under way the nodes reachable from `_front` are all live nodes. |
| `QueueTheorems.DeleteAll` | classes/include/DwmConcurrentQueue.hh:112-119 | The destructor's loop deletes every node of a null-terminated chain, once, in order, while it is live. |
| `QueueTheorems.Destroy` | classes/include/DwmConcurrentQueue.hh:112-119 | Run when every call has returned, the destructor leaves nothing allocated. |
| `QueueRuns.StepKeepsInv` | classes/include/DwmConcurrentQueue.hh:126-226 | Every statement of every call, by any thread, keeps ownership, chaining, locking, order and the agreement of each thread's locals with memory. |
| `QueueMoves.LinkKeepsInv` | classes/include/DwmConcurrentQueue.hh:199 | Linking moves a whole private chain into the queue in one store, and keeps the invariant. |
| `QueueMoves.DetachKeepsInv` | classes/include/DwmConcurrentQueue.hh:131-160 | Advancing `_front` hands the node left behind to the popping thread and keeps the invariant. |
| `QueueMoves.DeleteKeepsInv` | classes/include/DwmConcurrentQueue.hh:136-183 | Deleting a node the thread owns, after the unlock, keeps the invariant. |
| `QueueMoves.AllocKeepsInv` | classes/include/DwmConcurrentQueue.hh:197-218 | A new node, at a fresh or a recycled address, belongs to the allocating thread alone. |
| `QueueInvariant.InvImpliesSafe` | classes/include/DwmConcurrentQueue.hh:126-226 | The invariant makes the next statement of each thread memory-safe. |
| `QueueLength.StepAccounts` | classes/include/DwmConcurrentQueue.hh:138-224 | Each statement changes the counter by what it changes in the depth and in its thread's uncounted work, and only past an open gate does it add load. |
| `QueueLength.KeepsBounded` | classes/include/DwmConcurrentQueue.hh:194-226 | So the bound on depth and pending pushes is kept. |
| `QueueWitnesses.BulkPopLosesLast` | classes/include/DwmConcurrentQueue.hh:171-181 | A run in which a bulk pop removes the one value pushed and returns a blank. |
| `QueueWitnesses.BackMayDangle` | classes/include/DwmConcurrentQueue.hh:132-200 | A run in which `_back` names a freed node, while the producer is between its two stores. |
| `CodecRoundTrip.RoundTrip` | classes/include/DwmDescriptorIO.hh:654-3010 | For every type, value, target and bytes that follow, reading an encoding succeeds, consumes it exactly, returns its length (FileIO: a positive number) and leaves a determined object; the byte-count backends need every component to take a byte, and each member of a tuple fewer than 2^31. |
| `CodecTheorems.LeftIsTheValue` | classes/include/DwmDescriptorIO.hh:1934-1962 | That object is the value written exactly if the backend is FileIO or no optional without a value was read into one that had one. |
| `CodecTheorems.ReadsBackTheValue` | classes/include/DwmDescriptorIO.hh:654-3010 | So into a target with no such optional the value itself comes back. |
| `CodecTheorems.DefaultIsNotStale` | classes/include/DwmDescriptorIO.hh:2850-2876 | New objects are such targets, whatever is read into them. |
| `CodecPrefixes.EncodingsSplit` | classes/include/DwmDescriptorIO.hh:654-3010 | For all values of one type and any backend: if an encoding with something after it equals another encoding with something after it, values and rests are equal. |
| `CodecPrefixes.PrefixFree` | classes/include/DwmDescriptorIO.hh:654-3010 | So no encoding of a type is a proper prefix of another, and equal encodings are of equal values. |
| `CodecOrder.OrderDoesNotMatter` | classes/include/DwmDescriptorIO.hh:2850-3010 | Two writers that enumerate the sets, multisets and maps in a value differently, at any depth, write encodings from which every backend reads the same object. |
| `CodecOrder.ReorderedIsSame` | classes/include/DwmDescriptorIO.hh:2850-3010 | However the unordered containers in a value are enumerated, provided unique maps have distinct keys, it is the same object. |
| `CodecOrder.PermutedIsShuffled` | classes/include/DwmDescriptorIO.hh:2804-2821 | Every permutation of the elements is such an enumeration. |
| `CodecTheorems.GatherSet` | classes/include/DwmDescriptorIO.hh:2850-2876 | Inserting the elements read, one by one, into an emptied set gives the set of them. |
| `CodecTheorems.GatherBag` | classes/include/DwmDescriptorIO.hh:2850-3010 | The same for multisets, and for the entries of multimaps, with multiplicity. |
| `CodecValues.FirstEntryWins` | classes/include/DwmDescriptorIO.hh:2974-3010 | Inserting entries one by one, whether or not keys repeat, gives the map with their keys and for each the value of the first entry with that key. |
| `CodecValues.MapReadsBack` | classes/include/DwmDescriptorIO.hh:2974-3010 | A map read back has the keys that were written, each with the value written with it first, and no others. |
| `CodecValues.ListObject` | classes/include/DwmDescriptorIO.hh:654-3010 | What every aggregate and container that is read holds, component by component: in order, as a set, with multiplicity, or by key. |
| `CodecLayout.IntegerBytes` | classes/include/DwmDescriptorIO.hh:358-364 | Byte i of an integer of n bytes is its digit of place 256^(n-1-i), on every machine and in every backend. |
| `CodecLayout.ListLayout` | classes/include/DwmDescriptorIO.hh:654-3010 | An aggregate is its head (an extent in eight big-endian bytes, a count, a flag or nothing) and its components, each at the offset that is the size of those before it. |
| `CodecLayout.StringBytes` | classes/src/DwmFileIO.cc:226-244 | A string is its length, in eight big-endian bytes from FileIO and as a count from the others, and its characters. |
| `CodecLayout.VariantBytes` | classes/include/DwmDescriptorIO.hh:1455-1473 | A variant is its index in eight big-endian bytes and its content. |
| `CodecLayout.ListTypedExactly` | classes/include/DwmDescriptorIO.hh:654-3010 | Which values an aggregate can have: as many components as its type allows, each of its type. |
| `CodecDecoding.ReadsScalar` | classes/src/DwmDescriptorIO.cc:198-274 | From any bytes an integer is the number that they spell, big endian, a bool whether its byte is not zero, a float its bytes. |
| `CodecDecoding.ShortScalarResult` | classes/src/DwmDescriptorIO.cc:198-274 | From too few, what each backend returns for each scalar. |
| `CodecDecoding.ShortScalarTarget` | classes/src/DwmDescriptorIO.cc:198-274 | And what it leaves: DescriptorIO overwrites the first bytes of an integer in memory, nobody else anything. |
| `CodecDecoding.ReadsString` | classes/src/DwmDescriptorIO.cc:279-312 | From any bytes, with counts minimal or not and of either byte order, a string is as many characters as its length says, or the read fails. |
| `CodecDecoding.WrongExtent` | classes/include/DwmDescriptorIO.hh:1628-1659 | A bounded array is refused if the extent is not the reader's. |
| `CodecDecoding.IndexBeyond` | classes/include/DwmGZIO.hh:611-632 | A variant's index that names no alternative is refused by FileIO and DescriptorIO and returned as eight by GZIO and BZ2IO. |
| `CodecDecoding.ContentDecides` | classes/include/DwmDescriptorIO.hh:1426-1449 | How each backend's result for a variant follows from its content's. |
| `CodecDecoding.ComponentsReadInTurn` | classes/include/DwmDescriptorIO.hh:816-830 | Components are read each where the one before it ended, up to the first whose count is not positive. |
| `CodecRoundTrip.NarrowRange` | classes/include/DwmDescriptorIO.hh:1103-1122 | A tuple member's count keeps its low 32 bits, as a signed number. |
| `CodecDecoding.AggregateReads` | classes/include/DwmDescriptorIO.hh:654-3010 | From any bytes: what reading an aggregate returns, consumes and leaves, failures half way included. |
| `CodecDecoding.NewObjects` | classes/include/DwmDescriptorIO.hh:1426-1449 | What a new object is, type by type. |
| `CodecEmission.ShortWriteResult` | classes/src/DwmDescriptorIO.cc:61-136 | What each backend returns for each scalar or string that does not fit. |
| `CodecEmission.ContentWrites` | classes/include/DwmDescriptorIO.hh:1455-1473 | How each backend's result for writing a variant follows from its content's. |
| `CodecEmission.AggregateWrites` | classes/include/DwmDescriptorIO.hh:678-3010 | For any room: what writing an aggregate returns and sends, failures half way included. |
| `CodecParts.HasConstExactly` | classes/include/DwmIOConcepts.hh:622-664 | A type has a static length exactly if every type found in it, at any depth, is a number, a bool, a pair, a tuple or an array. |
| `CodecParts.StaticIsStreamed` | classes/include/DwmIOConcepts.hh:669-713 | And then it is what StreamedLength computes of every value. |
| `CodecParts.PartsTell` | classes/include/DwmIOUtils.hh:90-495 | What StreamedLength throws for and omits, and which values hold strings, in terms of the parts found in a value. |
| `CodecParts.OrderedExactly` | classes/src/DwmFileIO.cc:226-244 | The types of CrossReadsExactly are those in which no set, multiset or map is found, nor for GZIO and BZ2IO a variant. |
| `CodecParts.StaleExactly` | classes/include/DwmDescriptorIO.hh:1934-1962 | A target is stale exactly if a path through aggregates leads to an optional that has a value where the one read has none. |
| `CodecParts.KeyedExactly` | classes/include/DwmDescriptorIO.hh:2974-3010 | The premise of ReorderedIsSame: in every unique map found in the value the keys differ. |
| `CodecParts.ReorderedInside` | classes/include/DwmDescriptorIO.hh:2804-2821 | Its relation on aggregates and sequences is that of their components, in place. |
| `CodecParts.ShuffledHowever` | classes/include/DwmDescriptorIO.hh:2804-2821 | And on sets, multisets and maps it holds of any order of the elements, each enumerated in any way. |
| `CodecTheorems.SameBytes` | classes/src/DwmFileIO.cc:226-244 | On machines of one byte order any two of DescriptorIO, GZIO and BZ2IO write the same bytes for every value, and so does FileIO for values without strings. |
| `CodecTheorems.BackendsInterchange` | classes/include/DwmGZIO.hh:1204-1304 | What one backend writes, on a machine of either byte order, every other reads as the same value, between FileIO and the others provided that it holds no string. |
| `CodecStrings.FromFileIO` | classes/src/DwmFileIO.cc:226-244 | Of a string shorter than 2^48 that FileIO wrote, DescriptorIO, GZIO and BZ2IO read an empty string from the first two bytes, whatever it was, and report success. |
| `CodecStrings.ToFileIO` | classes/src/DwmFileIO.cc:445-478 | Of a nonempty string that they wrote FileIO takes the start for a length of at least 2^48 and returns 0 unless that much follows. |
| `CodecInterchange.FileIONeeds` | classes/src/DwmFileIO.cc:445-478 | From whatever bytes FileIO reads a value, it takes at least as many as it writes of it (types without sets, multisets and maps). |
| `CodecInterchange.LongerInFileIO` | classes/src/DwmFileIO.cc:226-244 | FileIO's encoding is never shorter than the others', and longer if there is a string. |
| `CodecDrift.ReaderDrifts` | classes/src/DwmDescriptorIO.cc:279-312 | A new object read by DescriptorIO, GZIO or BZ2IO from what FileIO wrote can only get the value if the reader, once a string has put it behind, stays behind to the end: what it has yet to read keeps a form that every later component preserves. |
| `CodecDrift.CrossReadsExactly` | classes/src/DwmFileIO.cc:226-244 | Between FileIO and the others, in either direction, a new object gets just the value from just its bytes exactly if the value holds no string. |
| `CodecTruncation.Truncated` | classes/include/DwmDescriptorIO.hh:2850-3010 | Reading a proper prefix of an encoding consumes it all; it reports failure at every cut if the backend is telling about the value, and otherwise takes the cut by one byte for success. |
| `CodecTruncation.CountBound` | classes/include/DwmDescriptorIO.hh:654-3010 | Whatever the bytes, a byte-count read returns at least -1 and at most what it consumed. |
| `CodecTruncation.NothingThere` | classes/include/DwmDescriptorIO.hh:654-3010 | Reading a value that takes bytes from an exhausted stream never returns a positive number. |
| `CodecTruncation.ReadSucceedsExactly` | classes/include/DwmDescriptorIO.hh:654-1145 | DescriptorIO, GZIO and BZ2IO return the number of bytes consumed exactly for values in which every component takes a byte and each member of a tuple fewer than 2^31, whatever follows. |
| `CodecTargets.ReadIgnoresTarget` | classes/include/DwmFileIO.hh:395-418 | Whatever the bytes, what a target held changes neither what a read returns nor what it consumes, and what FileIO leaves after a successful read depends on the bytes alone. |
| `CodecWrites.WriteAccepted` | classes/include/DwmDescriptorIO.hh:654-2938 | Given room, a write succeeds, emits exactly the encoding's number of bytes and returns it. |
| `CodecWrites.WriteRefused` | classes/include/DwmDescriptorIO.hh:2917-2938 | Given less room, a write fills it; it reports failure at every amount of room if the backend is reporting about the value, and otherwise looks successful with one byte too little. |
| `CodecWrites.WriteSucceedsExactly` | classes/include/DwmFileIO.hh:342-378 | FileIO returns a positive number exactly if the stream took the whole encoding; the others return its length exactly if it did and every component takes a byte, each member of a tuple fewer than 2^31. |
| `CodecWrites.SendsThePrefix` | classes/include/DwmDescriptorIO.hh:654-2938 | Whatever the room, what FileIO leaves in the stream, and what the others leave of such values, is as much of the encoding as fits, without gaps. |
| `CodecWrites.AcceptsNoMore` | classes/include/DwmDescriptorIO.hh:654-2938 | No write emits more than the encoding. |
| `CodecWrites.WriteBound` | classes/include/DwmDescriptorIO.hh:654-2938 | A byte-count write returns at least -1 and at most what it emitted. |
| `CodecWrites.NoRoom` | classes/include/DwmDescriptorIO.hh:654-2938 | Writing a value that takes bytes to a full stream never returns a positive number. |
| `CodecWrites.HollowFails` | classes/include/DwmDescriptorIO.hh:654-1145 | An aggregate with a component of no bytes, or a tuple with a member of 2^31 or more, is never written successfully by a byte-count backend. |
| `CodecLengths.LengthIsShortBy` | classes/include/DwmIOUtils.hh:90-495 | StreamedLength throws exactly for values holding an empty optional, and for all others falls short of the bytes by eight for each bounded array and one for each optional: it is right exactly when there are none. |
| `CodecLengths.WriteReturnsTheLength` | classes/include/DwmIOUtils.hh:90-495 | What Write emits and returns is what StreamedLength announced plus those bytes. |
| `CodecLengths.StaticLengthIsShortBy` | classes/include/DwmIOConcepts.hh:579-713 | For every type with a static length every value takes that many bytes, plus eight for each bounded array in it, nested ones counted as often as they occur. |
| `CodecLengths.Measure` | classes/include/DwmIOUtils.hh:200-454 | StreamedLength of any value, computed by case analysis and loops. |
| `CodecLengths.MeasureRange` | classes/include/DwmIOUtils.hh:475-482 | The loop over a range adds up the lengths of its elements. |
| `CodecExamples.StaleOptional` | classes/include/DwmDescriptorIO.hh:1934-1962 | An optional that keeps its old value although none was written. |
| `CodecExamples.TruncatedFloat` | classes/src/DwmDescriptorIO.cc:247-258 | Three bytes of a float that DescriptorIO and GZIO return as 3. |
| `CodecExamples.TruncatedVariant` | classes/include/DwmGZIO.hh:611-632 | A variant cut after its index, and one with a bad index, that GZIO returns as 7 and 8. |
| `CodecExamples.RefusedElement` | classes/include/DwmDescriptorIO.hh:2917-2938 | A vector whose only element the stream refuses, and whose write returns 1. |
| `CodecExamples.BoundedArrayLength` | classes/include/DwmIOConcepts.hh:689-692 | An int[1] of twelve bytes for which both lengths announce four. |
| `CodecExamples.EmptyStrings` | classes/src/DwmFileIO.cc:226-244 | The empty string in two bytes and in eight. |
| `CodecExamples.BagByChance` | classes/src/DwmDescriptorIO.cc:279-312 | A bag of four strings written by FileIO that DescriptorIO, GZIO and BZ2IO read as the same bag from 11 of its 35 bytes. |
| `CodecExamples.EmptyArrayMember` | classes/include/DwmDescriptorIO.hh:1103-1122 | A tuple with an empty array that cannot be read back. |
| `CountedIO.ScalarRead` | classes/src/DwmDescriptorIO.cc:198-274 | Reading integers, bools and floats from a stream that may run dry, short counts and half-filled integers included (integers of two bytes and more: the inline overloads of the header). |
| `FileIO.ScalarRead` | classes/src/DwmFileIO.cc:264-440 | The same for FileIO, whose short reads return 0. |
| `CountedIO.StringRead` | classes/src/DwmDescriptorIO.cc:279-312 | Reading a string: count, then characters. What a failed read leaves is each backend's own: nothing, or in GZIO the resized string, or in BZ2IO the old one. |
| `FileIO.StringRead` | classes/src/DwmFileIO.cc:445-478 | The same with an eight-byte length; empty on failure. |
| `CountedIO.CountRead` | classes/include/DwmEncodedUnsigned.hh:231-257 | Reading the number of entries as an EncodedU64. |
| `FileIO.CountRead` | classes/include/DwmFileIO.hh:404-406 | The same, as success or failure. |
| `CountedIO.Read` | classes/include/DwmDescriptorIO.hh:654-3010 | Dispatch over all types; result, object left and bytes consumed are those of the specification. |
| `FileIO.Read` | classes/include/DwmFileIO.hh:325-966 | The same for FileIO. |
| `CountedIO.PairRead` | classes/include/DwmDescriptorIO.hh:654-670 | Both members, or -1. |
| `FileIO.PairRead` | classes/include/DwmFileIO.hh:327-336 | Both members, or 0. |
| `CountedIO.Components` | classes/include/DwmDescriptorIO.hh:816-830 | The loop over the members of an array or tuple, up to the first that fails; counts of tuple members pass through an int. |
| `FileIO.Components` | classes/include/DwmFileIO.hh:424-466 | The same, in FileIO. |
| `CountedIO.ArrayRead` | classes/include/DwmDescriptorIO.hh:815-1122 | std::array and std::tuple. |
| `FileIO.ArrayRead` | classes/include/DwmFileIO.hh:424-466 | std::array and std::tuple. |
| `CountedIO.BoundedArrayRead` | classes/include/DwmDescriptorIO.hh:1628-1659 | The extent, which must be the array's own, then the elements. |
| `FileIO.BoundedArrayRead` | classes/include/DwmFileIO.hh:580-601 | The same, in FileIO. |
| `CountedIO.OptionalRead` | classes/include/DwmDescriptorIO.hh:1933-1962 | The flag, then the value into the one held or a new one; an empty optional resets nothing. |
| `FileIO.OptionalRead` | classes/include/DwmFileIO.hh:694-714 | The flag, then the value; an empty optional empties the target. |
| `CountedIO.VariantRead` | classes/include/DwmDescriptorIO.hh:1426-1449 | Index, then content. GZIO and BZ2IO add eight to whatever reading the content returned and return eight for a bad index. |
| `FileIO.VariantRead` | classes/include/DwmFileIO.hh:503-515 | Index, then content. |
| `CountedIO.ContainerRead` | classes/include/DwmDescriptorIO.hh:2850-2876 | Sequence, set, multiset and map: clear, count, elements inserted one by one. |
| `CountedIO.ElementsRead` | classes/include/DwmDescriptorIO.hh:2860-2871 | The loop that inserts elements up to the first that fails. |
| `FileIO.ContainerRead` | classes/include/DwmFileIO.hh:395-418 | The same, in FileIO. |
| `FileIO.ElementsRead` | classes/include/DwmFileIO.hh:406-413 | The loop, in FileIO. |
| `CountedIO.ScalarWrite` | classes/src/DwmDescriptorIO.cc:61-136 | Writing integers, bools and floats to a stream that may stop accepting, short counts included (integers of two bytes and more: the inline overloads of the header). |
| `FileIO.ScalarWrite` | classes/src/DwmFileIO.cc:56-221 | The same for FileIO. |
| `CountedIO.CountWrite` | classes/include/DwmEncodedUnsigned.hh:209-225 | Writing a count as an EncodedU64: whole, or failure. |
| `FileIO.CountWrite` | classes/include/DwmFileIO.hh:378-379 | The same, as success or failure. |
| `CountedIO.StringWrite` | classes/src/DwmDescriptorIO.cc:142-169 | Count, then characters. |
| `FileIO.StringWrite` | classes/src/DwmFileIO.cc:226-244 | The same with an eight-byte length. |
| `CountedIO.Write` | classes/include/DwmDescriptorIO.hh:678-3010 | Dispatch over all types; the sink gets that part of the encoding that fits, and the result is that of the specification. |
| `FileIO.Write` | classes/include/DwmFileIO.hh:342-928 | The same for FileIO. |
| `CountedIO.RangeWrite` | classes/include/DwmDescriptorIO.hh:2804-2821 | The loop over a range: elements in order up to the first that fails. |
| `FileIO.RangeWrite` | classes/include/DwmFileIO.hh:914-928 | The same, in FileIO. |
| `CountedIO.ArrayWrite` | classes/include/DwmDescriptorIO.hh:678-1145 | Pair, std::array and std::tuple. |
| `FileIO.ArrayWrite` | classes/include/DwmFileIO.hh:342-479 | Pair, std::array and std::tuple. |
| `CountedIO.BoundedArrayWrite` | classes/include/DwmDescriptorIO.hh:1665-1694 | The extent, then the elements. |
| `FileIO.BoundedArrayWrite` | classes/include/DwmFileIO.hh:555-575 | The same, in FileIO. |
| `CountedIO.OptionalWrite` | classes/include/DwmDescriptorIO.hh:1968-1994 | The flag, then the value if there is one. |
| `FileIO.OptionalWrite` | classes/include/DwmFileIO.hh:674-687 | The same, in FileIO. |
| `CountedIO.VariantWrite` | classes/include/DwmDescriptorIO.hh:1455-1473 | Index, then content. |
| `FileIO.VariantWrite` | classes/include/DwmFileIO.hh:520-529 | The same, in FileIO. |
| `CountedIO.ContainerWrite` | classes/include/DwmDescriptorIO.hh:2916-2938 | Count, then elements, with the -1 of a failed range lost in an unsigned variable. |
| `FileIO.ContainerWrite` | classes/include/DwmFileIO.hh:368-387 | Count, then elements; 1 or 0. |
| `EncodedInteger.ByteLength` | classes/include/DwmEncodedUnsigned.hh:389-417 | The fewest bytes that hold a value, one for zero. |
| `EncodedInteger.ByteLengthIsLeast` | classes/include/DwmEncodedUnsigned.hh:389-417 | No shorter size holds the value. |
| `EncodedInteger.SizeFromValue` | classes/include/DwmEncodedUnsigned.hh:389-417 | The search of the threshold table finds the least n with v < 256^n. |
| `EncodedInteger.ParseOfStart` | classes/include/DwmEncodedUnsigned.hh:453-528 | Size, byte order and sign survive the first byte. |
| `EncodedInteger.StartBits` | classes/include/DwmEncodedUnsigned.hh:509-528 | The first byte has the byte order in bit 7, the sign in bit 6 and the size less one below. |
| `EncodedInteger.WireDigits` | classes/include/DwmEncodedUnsigned.hh:484-504 | An encoding byte by byte: the first byte, and the value's digits in the writer's order, as few as hold it. |
| `EncodedInteger.UnwireDigits` | classes/include/DwmEncodedUnsigned.hh:231-257 | What any input decodes to, minimal or not: the number its bytes spell in the order and size of the first byte. |
| `EncodedInteger.UnwireOfWire` | classes/include/DwmEncodedUnsigned.hh:231-257 | For all byte orders of writer and reader and widths 2, 4 and 8, decoding inverts encoding and consumes exactly it. |
| `EncodedInteger.UnwireOfTruncated` | classes/include/DwmEncodedUnsigned.hh:231-257 | No proper prefix of an encoding decodes. |
| `EncodedInteger.UnwireIgnoresRest` | classes/include/DwmEncodedUnsigned.hh:231-257 | What follows an encoding does not matter. |
| `EncodedInteger.UnwireOfWireSigned` | classes/include/DwmEncodedSigned.hh:237-267 | The same round trip for every signed value, the most negative included. |
| `EncodedInteger.SignedValueOfMagnitude` | classes/include/DwmEncodedSigned.hh:256-263 | Sign and magnitude, with wrap-around, give the value back. |
| `EncodedInteger.WireSignedDigits` | classes/include/DwmEncodedSigned.hh:509-529 | A signed encoding is that of the magnitude, with the sign in the first byte. |
| `EncodedInteger.UnwireSignedValue` | classes/include/DwmEncodedSigned.hh:237-267 | What any input decodes to as a signed number. |
| `EncodedInteger.WireFromMemory` | classes/include/DwmEncodedUnsigned.hh:487-503 | The significant bytes of the value, taken from memory of either byte order, are the encoding's. |
| `EncodedInteger.EncodedUnsigned.StreamedLength` | classes/include/DwmEncodedUnsigned.hh:422-425 | The announced length is that of the encoding. |
| `EncodedInteger.EncodedUnsigned.MakeNativeEndianWriteVector` | classes/include/DwmEncodedUnsigned.hh:484-504 | The push loop builds the encoding. |
| `EncodedInteger.EncodedUnsigned.PushBytes` | classes/include/DwmEncodedUnsigned.hh:499-501 | The loop itself. |
| `EncodedInteger.EncodedUnsigned.Write` | classes/include/DwmEncodedUnsigned.hh:215-225 | All of the encoding or -1, with what the sink then holds. |
| `EncodedInteger.EncodedUnsigned.ProcessTwoBytes` | classes/include/DwmEncodedUnsigned.hh:453-470 | The second byte goes straight into zeroed memory, inside it for every first byte. |
| `EncodedInteger.EncodedUnsigned.Bswap` | classes/include/DwmEndianness.hh:192-206 | The bytes of the value reversed. |
| `EncodedInteger.EncodedUnsigned.SwapIfForeign` | classes/include/DwmEncodedUnsigned.hh:249-253 | The rest stored in place and swapped if need be give the value in the writer's order. |
| `EncodedInteger.EncodedUnsigned.Read` | classes/include/DwmEncodedUnsigned.hh:231-257 | For every input: value, count and rest of the stream are those of the positional definition, or -1 when it runs dry. |
| `EncodedInteger.EncodedSigned.MakeNativeEndianWriteVector` | classes/include/DwmEncodedSigned.hh:509-529 | Negation by complement, then the push loop. |
| `EncodedInteger.EncodedSigned.Read` | classes/include/DwmEncodedSigned.hh:237-267 | For every input: signed value, count and rest of the stream. |
| `Ipv4Prefixes.WithMaskLengthIsCanonical` | classes/include/DwmIpv4Prefix.hh:147-164 | Changing the mask length leaves no bit set beyond it. |
| `Ipv4Prefixes.WithMaskLengthBits` | classes/include/DwmIpv4Prefix.hh:147-164 | Bit by bit: shortening clears the bits beyond the mask, lengthening changes none, lengths above 32 change nothing. |
| `Ipv4Prefixes.FromAddressContains` | classes/src/DwmIpv4Prefix.cc:222-231 | A prefix built from an address is masked, and contains it. |
| `Ipv4Prefixes.ContainsMeansLeadingBits` | classes/src/DwmIpv4Prefix.cc:373-376 | Containment is agreement on the leading bits, for prefixes without bits beyond the mask; one with such bits contains nothing. |
| `Ipv4Prefixes.WithMaskLengthOfFromAddress` | classes/include/DwmIpv4Prefix.hh:147-164 | Shortening one working prefix gives at each length the prefix masked from the address. |
| `Ipv4Prefixes.ContainsMeansFromAddress` | classes/src/DwmIpv4Prefix.cc:373-376 | A stored prefix contains an address exactly if it is the one masked from it. |
| `Ipv4PrefixMaps.Ipv4PrefixMap.Add` | classes/include/DwmIpv4PrefixMap.hh:101-109 | Stores the value, whatever bits the prefix has beyond its mask; every length's counter stays the number of stored prefixes, and overwriting changes none. |
| `Ipv4PrefixMaps.Ipv4PrefixMap.Remove` | classes/include/DwmIpv4PrefixMap.hh:216-231 | Removes just that prefix; the unchecked decrement always finds its counter, and no counter stays at zero. |
| `Ipv4PrefixMaps.Ipv4PrefixMap.Find` | classes/include/DwmIpv4PrefixMap.hh:265-274 | The stored value, if any. |
| `Ipv4PrefixMaps.Ipv4PrefixMap.FindLongestNoLock` | classes/include/DwmIpv4PrefixMap.hh:279-296 | The loop over the index that re-masks one prefix finds the first of the matches listed by length. |
| `Ipv4PrefixMaps.Ipv4PrefixMap.FindLongest` | classes/include/DwmIpv4PrefixMap.hh:143-147 | Succeeds exactly if a stored prefix contains the address, and returns the longest, with its value, as a scan of the table defines it. |
| `Ipv4PrefixMaps.LongestMatchIsUnique` | classes/include/DwmIpv4PrefixMap.hh:279-296 | There is one such prefix. |
| `Ipv4PrefixMaps.Ipv4PrefixMap.FindMatchesNoLock` | classes/include/DwmIpv4PrefixMap.hh:301-318 | The loop lists the prefixes masked from the address that are stored, in index order. |
| `Ipv4PrefixMaps.Ipv4PrefixMap.FindMatches` | classes/include/DwmIpv4PrefixMap.hh:175-179 | Exactly the stored prefixes containing the address, each once, strictly longest first, the first being the longest match. |
| `Ipv4PrefixMaps.MatchListIsExact` | classes/include/DwmIpv4PrefixMap.hh:301-318 | Looking up the masked address length by length lists exactly the stored prefixes of those lengths that contain it. |
| `Ipv4PrefixMaps.FirstIsLongest` | classes/include/DwmIpv4PrefixMap.hh:279-318 | The head of such a list is the longest match, and the list is empty only if nothing matches. |
| `Ipv4PrefixMaps.Ipv4PrefixMap.IndexReachesCovering` | classes/include/DwmIpv4PrefixMap.hh:258-260 | No containing prefix has a length that the index misses. |
| `Arguments.Arguments.Parse` | classes/include/DwmArguments.hh:264-295 | The loop over options; received options and values are those of the run, and it returns `optind` exactly for acceptable lines. |
| `Arguments.Arguments.Set` | classes/include/DwmArguments.hh:659-699 | Extraction into the first option of that letter; an unknown letter or failed extraction is an error. |
| `Arguments.Arguments.KillConflicts` | classes/include/DwmArguments.hh:704-726 | Defaults for every conflicting option that has not been received. |
| `Arguments.Arguments.GotRequiredArgs` | classes/include/DwmArguments.hh:747-769 | The loop whose `foundConflict` is never reset: it decides by the first missing option alone. |
| `Arguments.Arguments.GotConflictingArgs` | classes/include/DwmArguments.hh:774-793 | Whether two received options conflict. |
| `Arguments.Arguments.SetConflicts` | classes/include/DwmArguments.hh:526-532 | Conflict groups, assigned in place one after the other. |
| `Arguments.Arguments.SetConflicts1` | classes/include/DwmArguments.hh:620-634 | One group: each member conflicts with the others. |
| `Arguments.AcceptsExactly` | classes/include/DwmArguments.hh:264-295 | A line is accepted exactly if every option on it is declared and could be extracted, none that arrived conflicts with another, and the first required option that did not arrive, if any, conflicts with one that did. |
| `Arguments.SatisfiedExactly` | classes/include/DwmArguments.hh:747-769 | The check for required options passes exactly if the first missing one, if any, is displaced; it passes whenever all have arrived or been displaced. |
| `Arguments.IntendedIsAcceptable` | classes/include/DwmArguments.hh:264-295 | So every line whose options can be set and do not conflict, and that has or displaces every required option, is accepted. |
| `Arguments.RunFailsExactly` | classes/include/DwmArguments.hh:264-288 | The loop's own error flag, exactly, and the options received. |
| `Arguments.ValuesOf` | classes/include/DwmArguments.hh:264-726 | Whatever the order of the options, each received one ends with its last value, each other one that conflicts with a received one with its default, and the rest are unchanged. |
| `Arguments.ValuesOnAnyLine` | classes/include/DwmArguments.hh:264-726 | On any line, errors included, each option ends with what the last event that changed it left. |
| `Arguments.AcceptedMeansDisjoint` | classes/include/DwmArguments.hh:704-793 | After an accepted line, whatever conflicts with a received option was not received and holds its default. |
| `Arguments.AcceptedMeansRequired` | classes/include/DwmArguments.hh:747-769 | Every accepted line has or displaces every required option exactly if no required option, displaced, can hide a later one on an otherwise acceptable line, a condition on the declaration alone. |
| `Arguments.DeclarationOrderDecides` | classes/include/DwmArguments.hh:747-769 | The check does what it is for, whatever options arrive, exactly if no required option, displaced, can hide a later one. |
| `Arguments.MissingOptionSlipsThrough` | classes/include/DwmArguments.hh:747-769 | A line that is accepted although a required option is missing. |
| `Arguments.LastGroupWins` | classes/include/DwmArguments.hh:620-634 | Of the groups that list an option only the last one counts. |
| `Arguments.LastGroupIs` | classes/include/DwmArguments.hh:620-634 | Which group that is. |
| `Arguments.CompatibleExactly` | classes/include/DwmArguments.hh:527-634 | Two options are compatible exactly if the last group of neither lists the other. |
| `Arguments.AcceptedMeansExclusive` | classes/include/DwmArguments.hh:527-793 | No accepted line holds two options when the last group of one lists the other. |
| `Arguments.SharedGroupIsForgotten` | classes/include/DwmArguments.hh:620-634 | Three groups of two after which two options that share one no longer conflict. |

## Left out

- Memory order: statements interleave as if sequentially consistent, and a plain pointer store is one step. That consumers never read `_back` and producers never read `_front` is what makes this fair; weaker orders are not modelled.
- Spinning: a thread that finds a flag set, or the queue too long, stays where it is. The source promises no fairness, so that a call returns is proved for a thread that runs alone (`CallsReturn`) and not for every schedule.
- QueueTheorems.DepthIsBounded: asks that `_maxLength` + threads * batch stay below 2^64; beyond that the unsigned counter itself can wrap past the gate.
- QueueTheorems.LengthIsExactAtRest: the same premise, since the counter knows the depth only modulo 2^64.
- An empty vector given to bulk `PushBack` indexes past its end, as its caller must know; the model's callers push at least one value.
- Failed allocation and exceptions, in the queue, in `resize` and in `insert`, are not modelled; a string length that cannot be allocated simply finds too few bytes.
- The counts of GZIO and BZ2IO are ints, whose overflow at 2^31 bytes the language leaves undefined; the model adds them up without bound. Only the narrowing of tuple members, which is defined, is modelled.
- CodecDrift.CrossReadsExactly: says nothing of sets, multisets and maps, where a reader out of step can come upon the right object by chance (`BagByChance`), of variants under GZIO and BZ2IO, which take a bad index for success, and of strings of 2^48 characters or more.
- CodecInterchange.FileIONeeds: leaves out sets, multisets and maps for the same reason.
- System calls, stdio, zlib and bzip2 are streams that deliver all the bytes asked for or all that are left, and accept all the bytes offered or as many as there is room for. Calls that fail outright, and reads from pipes that return less than is there, are not modelled; nor is `DescriptorIO::Write` of a buffer going round for ever when `write` returns 0.
- XDR encoding of float and double is opaque: a value is its four or eight bytes.
- Readers return the object they leave instead of writing through a reference, so aliasing of targets is not captured; scalars never initialised count as zero. What a short read leaves of an integer in DescriptorIO is modelled byte by byte, what it leaves of a float or bool is the old value, as they are read into a local.
- A multimap is compared as a bag of entries, so the order of entries with one key is not captured; an entry is read as a pair of a key and a value.
- `string_view`, enumerations, `atomic`, `unique_ptr`, unions, `NRead` and `NWrite`, reflected classes and `ConstexprStreamedLength` of user types are not modelled: they repeat cases that are, or depend on code outside these files.
- DwmASIO repeats the codec with a raw eight-byte count and is not part of this model.
- The bool that EncodedUnsigned calls chunked data is read and ignored, as in the source.
- The locks and asserts of Ipv4PrefixMap: its operations are sequential here. Hash order is not visible, since no operation iterates over the table.
- Ipv4PrefixMaps.Ipv4PrefixMap.Add: asks for a mask length of at most 32; a larger one, which only reading raw bytes from a stream can give, shifts a word by a negative amount, which the language leaves undefined.
- EncodedInteger.UnwireOfWireSigned: takes signed arithmetic to wrap; for the most negative values of 32 and 64 bits the writer's `~val + 1` and the reader's `_value *= -1` overflow, which the language leaves undefined.
- Environment variables, usage texts and getopt itself: Arguments takes any sequence of options, each with whether extracting its value succeeds and what that leaves.
- Easy members of the repository (Endianness on its own, FFIVar, Diff, Ipv4AddrMap) and declarations without bodies are left out.
