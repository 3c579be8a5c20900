# OPLabs in Dafny

A model of the algorithmic cores of OPLabs and proofs about it. The code modelled is the Mercury
runtime in C++ (scheduler, containers, state machine timers, DNS latency test, binary streams, ICMP,
addresses), the packet builder and statistics of the Android tester, and two vendored libraries:
libb64 and jQuery with Sizzle. `dafny verify dfyconfig.toml` checks everything.

Code that updates state in place is modelled as classes, arrays and loops, each method proved against
a specification on values; what the source promises is then proved about the specification.

- `CombinatorCache`: Sizzle's memoised ancestor walk. Its cells are shared by all nodes of a walk and
  filled in afterwards, and several combinators compete for one slot per node. Any sequence of
  queries, over any number of runs, gives the answers of the walk without a cache.
- `DocumentOrder`: the fallback comparator against a preorder listing of the tree.
- `Deferred`: the callback lists and the deferred object, with callbacks that call back in while
  their list is firing, against a promise that is plainly a waiting queue or a settled result.
- `Base64`, `Base64Codec`: the encoder and decoder byte by byte, against RFC 4648; then the C routines
  that stop and resume at any byte, and the putter that feeds them in blocks.
- `BinaryHeap`, `Scheduler`, `TimerProtocol`, `BlockingQueue`: the array heap with removal, the
  scheduler's loop over it, the discipline that keeps one timer entry per state machine, and the
  monitor-style queue, the last two as steps of threads in any interleaving.
- `LatencyStats`, `DnsTest`: one-pass and two-pass variance, and the test machine that feeds them.
- `DnsQuestion`: the C++ and the Java packet builder, and a reader after RFC 1035.
- `RingQueue`, `RingBuffer`: the two ring containers against bounded sequences.
- `IcmpPacket`: packets and the Internet checksum of RFC 1071.
- `BinaryStream`: buffered puts against gets over arbitrary chunks.
- `Inet4`: parsing and printing addresses.
- `Common`: what several of them share.

## Where the code does not meet its promise

In each case the code is modelled as it is and an input on which it fails is given; where there is a
condition under which the promise holds, it is proved in both directions.

- The comparator puts a parentless root that is not the document behind its own descendants
  (`DocumentOrder.SortOrder`, `DocumentOrder.DetachedRoot`), and it cannot be used to sort nodes of
  several detached trees (`DocumentOrder.SortableIff`, `DocumentOrder.NotSortable`).
- The decoder's bound test lets an index one past its table through (`Base64.DecodeSkips`,
  `Base64.BraceIsTaken`).
- Removing the root of the heap compares with the word in front of the array, because the parent
  index underflows (`BinaryHeap.RemoveKeepsHeap`, `BinaryHeap.RootNotRepaired`). `verify`, documented
  as always true, fails on equal keys (`BinaryHeap.VerifyIsTooStrict`).
- In an array left out of order by that, a removal can take the wrong element
  (`BinaryHeap.RemoveKeepsElements`, `BinaryHeap.WrongElementTaken`). For the scheduler it means that
  the entry to be run next is not the earliest one, exactly after a cancel that leaves the root
  unrepaired (`Scheduler.RunKept`), and runnables are then run out of time
  (`Scheduler.RepairDecides`, `Scheduler.OutOfTime`). A cancel can then leave the timer of a state
  machine in the heap, exactly when it does not take the entry it finds
  (`TimerProtocol.CancelClearsTimer`, `TimerProtocol.NotCleared`).
- Two threads in `schedule_timeout` can leave two entries (`TimerProtocol.SafeIffOneCaller`), and even
  with one thread the engaged flag can be down while an entry is pending: exactly after a timer that
  ran out late (`TimerProtocol.FlagMissesIffLate`, `TimerProtocol.StaleTimer`). That can follow a call
  exactly when, as its cancel is queued, the scheduler is waiting for the entry of the timer or about
  to run it; in any other state the cancel is served first (`TimerProtocol.EntryDecides`).
- After a callback that throws, a list of callbacks stays marked as firing, and what is left of it or
  added to it never runs (`Deferred.ThrowDecides`, `Deferred.NeverRun`).
- The deviations of the C++ and the Java program differ when no packet was received
  (`LatencyStats.BothAgree`, `LatencyStats.AllLost`).
- The blocking queue is safe for one consumer only (`BlockingQueue.SafeIffOneConsumer`), also for
  `front_ref`, whose comment recommends it for several: it waits with the same `if`.
- The two DNS encoders differ on names that are empty or end in a dot
  (`DnsQuestion.SamePacketIffPlain`, `DnsQuestion.TrailingDotDiffers`).
- Two folds of the checksum are not enough for very long packets (`IcmpPacket.SerializedIsSound`,
  `IcmpPacket.LongerFails`). The header writes the sequence number before the identifier, the reverse
  of RFC 792, so that a reader of that order finds them only if they are equal
  (`IcmpPacket.Rfc792Reads`, `IcmpPacket.Rfc792Differs`).
- The big-endian 64-bit getter depends on the order in which a compiler evaluates two operands, and
  strings are cut at a NUL (`BinaryStream.ReceivedIffSurvive`, `BinaryStream.NotReceived`).
- The address parser adds to an uninitialised variable (`Inet4.SameForAllStarts`) and rejects what
  the printer prints with a port (`Inet4.PortIsRejected`).

## Model

| member | source | states |
|---|---|---|
| CombinatorCache.Engine.RunSession | zeus/web_frontend/static/jquery/jquery-1.11.0.js:2100-2165 | any number of query runs, one after the other, on nodes that keep the cells of all earlier runs: every answer is the one the walk without cells gives |
| CombinatorCache.Engine.RunQueries | zeus/web_frontend/static/jquery/jquery-1.11.0.js:2115-2150 | within one run, any list of queries by any compiled selectors in any order, overwriting each other's slots: each answer is the uncached one, and every cell of the run stays right for each node that holds it |
| CombinatorCache.Engine.Matches | zeus/web_frontend/static/jquery/jquery-1.11.0.js:2105-2165 | a compiled matcher returns the meaning of its selector, whatever the cells hold, and only leaves slots alone or fills them with new cells of this run |
| CombinatorCache.Engine.WalkCached | zeus/web_frontend/static/jquery/jquery-1.11.0.js:2116-2150 | the memoised walk answers whether some eligible node further along satisfies the inner matcher, and leaves every shared cell equal to the answer for the chain at each holder |
| CombinatorCache.Engine.WalkUncached | zeus/web_frontend/static/jquery/jquery-1.11.0.js:2121-2128 | the XML walk gives the same answer by asking every node |
| CombinatorCache.Engine.CheckClosest | zeus/web_frontend/static/jquery/jquery-1.11.0.js:2107-2113 | a "first" combinator is decided by the closest eligible node alone, and fails if there is none |
| CombinatorCache.Engine.Look | zeus/web_frontend/static/jquery/jquery-1.11.0.js:2130-2147 | one node of the cached walk: take over the verdict of a cell of the same run and combinator and back-propagate it, or ask the node; the walk invariant moves one node on |
| CombinatorCache.Engine.Visit | zeus/web_frontend/static/jquery/jquery-1.11.0.js:2138-2145 | putting the shared cell into a slot before the inner matcher runs keeps every other cell right |
| CombinatorCache.Engine.Probe | zeus/web_frontend/static/jquery/jquery-1.11.0.js:2142-2145 | an inner matcher that overwrites slots with cells of its own does not disturb the walk in progress |
| CombinatorCache.Engine.Settled | zeus/web_frontend/static/jquery/jquery-1.11.0.js:2136-2145 | once the shared cell holds the answer, every slot of the run is right again |
| CombinatorCache.Engine.AddCombinator | zeus/web_frontend/static/jquery/jquery-1.11.0.js:2100-2103 | each combinator takes a done name of its own, larger than those of the matchers inside it, and earlier selectors stay valid |
| CombinatorCache.Engine.BeginRun | zeus/web_frontend/static/jquery/jquery-1.11.0.js:2348-2349 | an outermost matcher gets a run number no stored cell carries, so old cells cannot be mistaken for new ones |
| CombinatorCache.ChainIsAlong | zeus/web_frontend/static/jquery/jquery-1.11.0.js:2108-2131 | the nodes a walk looks at are exactly the eligible nodes some number of steps along the direction |
| CombinatorCache.SomeOneHolds | zeus/web_frontend/static/jquery/jquery-1.11.0.js:2117-2149 | a combinator that is not first holds at a node if and only if some node one or more steps along its direction is an element, or any node for a base combinator to the parent, and satisfies the inner matcher |
| CombinatorCache.NearestHolds | zeus/web_frontend/static/jquery/jquery-1.11.0.js:2105-2113 | a first combinator holds if and only if there is a nearest node of that kind and it satisfies the inner matcher |
| CombinatorCache.AlongSteps | zeus/web_frontend/static/jquery/jquery-1.11.0.js:2108-2131 | each step follows the parent or the previous sibling, by the direction |
| CombinatorCache.AllMeans | zeus/web_frontend/static/jquery/jquery-1.11.0.js:2154-2167 | a conjunction holds if and only if each of its parts does |
| CombinatorCache.ReachStep | zeus/web_frontend/static/jquery/jquery-1.11.0.js:2130-2147 | the answer at a node is its own match or the answer at the next node |
| DocumentOrder.SortOrder | zeus/web_frontend/static/jquery/jquery-1.11.0.js:1351-1403 | for two connected nodes the comparator reports preorder of the tree if and only if the sourceIndex values of the two siblings where their paths branch, if they decide, agree with the positions; with one exact exception: if one node is a parentless root that is not the document it reports the reverse; equal nodes give 0 and set the duplicate flag; across trees the document comes first, then nodes below a root, then roots in the order of the input, and otherwise the preferred document; all loops end |
| DocumentOrder.AgreesIffInOrder | zeus/web_frontend/static/jquery/jquery-1.11.0.js:1351-1403 | over all connected pairs but those with such a root, the comparator agrees with preorder if and only if the sourceIndex values of sibling elements are in order where they differ |
| DocumentOrder.NumberedIsInOrder | zeus/web_frontend/static/jquery/jquery-1.11.0.js:953-962 | they are for browsers that number sibling elements in document order, or not at all, whatever other nodes stand between them |
| DocumentOrder.CompareConnected | zeus/web_frontend/static/jquery/jquery-1.11.0.js:1365-1397 | the same as the first two parts of SortOrder, for the value of the comparator |
| DocumentOrder.SortableIff | zeus/web_frontend/static/jquery/jquery-1.11.0.js:1365-1402 | with those values in order, the comparator is a total preorder on a set of nodes if and only if there are no two of them in one tree and a third in another, all below a root that is not the preferred document |
| DocumentOrder.NotSortable | zeus/web_frontend/static/jquery/jquery-1.11.0.js:1398-1402 | three nodes below two detached elements that cannot be sorted consistently |
| DocumentOrder.CompareLists | zeus/web_frontend/static/jquery/jquery-1.11.0.js:1376-1402 | the two lists of ancestors, walked to their first difference, give the value of the comparator |
| DocumentOrder.SourceKeyFalls | zeus/web_frontend/static/jquery/jquery-1.11.0.js:955-957 | the number compared falls as the sourceIndex grows; a missing one counts as zero, and minus one comes last |
| DocumentOrder.IndexOfIsFirst | zeus/web_frontend/static/jquery/jquery-1.11.0.js:1371-1372 | the place of a node in the input is that of its first occurrence, or minus one |
| DocumentOrder.SiblingCheck | zeus/web_frontend/static/jquery/jquery-1.11.0.js:953-974 | for siblings, or one missing, never 0; and negative exactly when the first is missing or earlier, if and only if the sourceIndex values, where they decide, agree with the positions |
| DocumentOrder.PathOf | zeus/web_frontend/static/jquery/jquery-1.11.0.js:1381-1388 | the unshifted ancestor list is the list of all prefixes of the node's path, root first |
| DocumentOrder.BranchIsOrder | zeus/web_frontend/static/jquery/jquery-1.11.0.js:1390-1397 | below the last common ancestor the two ancestors are siblings or one is missing, and their order is preorder of the two nodes |
| DocumentOrder.RootIsFirst | zeus/web_frontend/static/jquery/jquery-1.11.0.js:1365-1373 | in preorder a root comes before all other nodes of its tree |
| DocumentOrder.BeforeIsStrictTotal | zeus/web_frontend/static/jquery/jquery-1.11.0.js:1351-1403 | preorder of a tree is irreflexive, total on distinct nodes and transitive, so the comparator is one on the nodes of a tree where it agrees with it |
| DocumentOrder.PreorderLists | zeus/web_frontend/static/jquery/jquery-1.11.0.js:1351-1403 | the reference listing holds exactly the nodes of the tree |
| DocumentOrder.BeforeIsLex | zeus/web_frontend/static/jquery/jquery-1.11.0.js:1390-1397 | being listed earlier is the lexicographic order of child paths |
| DocumentOrder.DetachedRoot | zeus/web_frontend/static/jquery/jquery-1.11.0.js:1365-1373 | a detached element and its child, which the comparator reports the wrong way round |
| Deferred.DeferredObject.RunProgram | zeus/web_frontend/static/jquery/jquery-1.11.0.js:3091-3227 | any program of done, fail, resolve and reject calls on a new deferred, including all calls its callbacks make while a list is firing, ends in the state a plain promise gives, throwing callbacks included; what has run of the winning list ran in order of addition with the data of the settling call, of the other list nothing |
| Deferred.RunExactlyOnce | zeus/web_frontend/static/jquery/jquery-1.11.0.js:3278-3305 | no callback ever runs more often than it was added to the winning list, by the program or by callbacks that ran, before, during or after settling; and as long as the list is not stuck each runs exactly as often |
| Deferred.ThrowDecides | zeus/web_frontend/static/jquery/jquery-1.11.0.js:3096-3104 | that each callback runs exactly once holds on, whatever harmless callbacks are added later, if and only if the list is not stuck |
| Deferred.StuckIffThrown | zeus/web_frontend/static/jquery/jquery-1.11.0.js:3096-3104 | the list is stuck if and only if a callback that has run threw |
| Deferred.NeverRun | zeus/web_frontend/static/jquery/jquery-1.11.0.js:3096-3104 | two callbacks, the first of which throws: the second never runs |
| Deferred.FirstFireDecides | zeus/web_frontend/static/jquery/jquery-1.11.0.js:3205-3212 | the first resolve or reject decides winner and data; without one the deferred stays pending |
| Deferred.SettledForever | zeus/web_frontend/static/jquery/jquery-1.11.0.js:3300-3304 | after settling, winner and data never change and what has run stays run; a stuck list never changes again |
| Deferred.DrainRunsAll | zeus/web_frontend/static/jquery/jquery-1.11.0.js:3098-3103 | a batch runs what was waiting and everything added to the list meanwhile, in the order of the additions |
| Deferred.DrainInOrder | zeus/web_frontend/static/jquery/jquery-1.11.0.js:3098-3103 | at every moment of a batch, what has run is a beginning of what was waiting and what was added since |
| Deferred.QuietDrain | zeus/web_frontend/static/jquery/jquery-1.11.0.js:3098-3103 | callbacks that neither throw nor add any that do run off without a throw |
| Deferred.DeferredObject.Perform | zeus/web_frontend/static/jquery/jquery-1.11.0.js:3286-3304 | one call by user code: outside a callback it has the effect of the plain promise step, inside a callback it only appends to the batch in progress |
| Deferred.DeferredObject.AddTo | zeus/web_frontend/static/jquery/jquery-1.11.0.js:3120-3149 | add on a live list extends the firing batch, fires at once with the remembered data, or just waits; on a disabled list nothing runs |
| Deferred.DeferredObject.AddToBatch | zeus/web_frontend/static/jquery/jquery-1.11.0.js:3139-3140 | an add during firing lengthens the batch so that the new callbacks are next in line |
| Deferred.DeferredObject.AddAtRest | zeus/web_frontend/static/jquery/jquery-1.11.0.js:3143-3146 | an add after settling runs the new callbacks at once, and everything they add, up to one that throws |
| Deferred.DeferredObject.FireWith | zeus/web_frontend/static/jquery/jquery-1.11.0.js:3204-3215 | only the first fire of a list that is not disabled has any effect |
| Deferred.DeferredObject.FireList | zeus/web_frontend/static/jquery/jquery-1.11.0.js:3091-3116 | firing settles the deferred, disables the other list and runs the batch to its moving end, leaving an empty list that remembers the data; or up to a callback that throws, leaving the list marked as firing |
| Deferred.DeferredObject.RunBatch | zeus/web_frontend/static/jquery/jquery-1.11.0.js:3098-3103 | the loop of fire over a batch that grows ends at its moving end or at the first callback that throws |
| Deferred.DeferredObject.FireOwnEntry | zeus/web_frontend/static/jquery/jquery-1.11.0.js:3290-3297 | the three entries Deferred adds itself set the state, disable the other list and lock the progress list, in this order, before any user callback; the progress list is locked whenever user code runs on a settled deferred |
| Deferred.DeferredObject.RunCallback | zeus/web_frontend/static/jquery/jquery-1.11.0.js:3098-3099 | the callback at the firing index is the next one offered that has not run |
| Deferred.DeferredObject.RunScript | zeus/web_frontend/static/jquery/jquery-1.11.0.js:3098-3140 | whatever a running callback does, the index stays and only additions to the list follow |
| Base64.RoundTrip | mercury/3rdparty/base64/cdecode.c:25-87 | decoding what the encoder writes gives back every byte string |
| Base64.EncodeIsLines | mercury/3rdparty/base64/cencode.c:26-108 | from any group boundary the encoder writes the text of section 4 of RFC 4648, broken after every 18 full groups and ended by a newline |
| Base64.LinesAreRfc | mercury/3rdparty/base64/cencode.c:75-80 | without its newlines that text is exactly the RFC encoding |
| Base64.LinesAreShort | mercury/3rdparty/base64/cencode.c:10-80 | no line is longer than 72 characters |
| Base64.EncodedLength | mercury/3rdparty/base64/cencode.c:26-108 | n bytes encode to 4*ceil(n/3) + floor(n/54) + 1 characters |
| Base64.EncRunConcat | mercury/3rdparty/base64/cencode.c:34-67 | cutting the input of the encoder anywhere makes no difference |
| Base64.DecRunConcat | mercury/3rdparty/base64/cdecode.c:31-82 | cutting the input of the decoder anywhere makes no difference |
| Base64.DecodeLines | mercury/3rdparty/base64/cdecode.c:37-82 | the decoder, at any group boundary, skips line breaks and padding and returns the encoded bytes |
| Base64.DecodeSkips | mercury/3rdparty/base64/cdecode.c:38-46 | from any state, everything outside the alphabet is skipped if and only if the byte behind the table is negative or the text has no brace |
| Base64.BraceIsTaken | mercury/3rdparty/base64/cdecode.c:13-16 | the bound test lets the index one past the table through: with a zero there, a lone brace starts a group |
| Base64.ValuesInverse | mercury/3rdparty/base64/cencode.c:19-24 | the encoding and the decoding table are inverse to each other on the alphabet, and no other character but the brace decodes |
| Base64.EncodeValueIsLetter | mercury/3rdparty/base64/cencode.c:19-24 | the encoder's character for a value is that of table 1 of RFC 4648 |
| Base64.EncodeTextIsRfcLines | mercury/3rdparty/base64/cencode.c:26-108 | what the encoder writes for a text, character by character: the RFC encoding, padded with equals signs, with a newline behind every 54 bytes and one at the end |
| Base64.UnbrokenIsRfc | mercury/3rdparty/base64/cencode.c:26-108 | without line breaks that text is the RFC encoding |
| Base64.OutsideTheTables | mercury/3rdparty/base64/cdecode.c:10-18 | what the two tables say outside the alphabet: minus two for the pad, minus one for the rest, and the pad for values beyond 63 |
| Base64Codec.EncodeBlock | mercury/3rdparty/base64/cencode.c:26-85 | the resumable switch, from any saved state, writes exactly what the byte-wise encoder writes and saves its state |
| Base64Codec.EncodeBlockEnd | mercury/3rdparty/base64/cencode.c:87-108 | the end of a text: pending bits, padding and the last newline |
| Base64Codec.DecodeBlock | mercury/3rdparty/base64/cdecode.c:25-87 | the resumable switch, from any saved state, writes exactly what the character-wise decoder writes, saves its state, and touches one byte behind the last decoded one |
| Base64Codec.NextFragment | mercury/3rdparty/base64/cdecode.c:38-46 | the loop in front of each case stops at the next character of the alphabet, or at the end of the block |
| Base64Codec.EncodeBlocks | mercury/3rdparty/base64/cencode.c:26-108 | encoding in blocks of any sizes gives the encoding of the whole |
| Base64Codec.DecodeBlocks | mercury/3rdparty/base64/cdecode.c:25-87 | decoding in blocks of any sizes gives the decoding of the whole, and undoes the encoder |
| Base64Codec.EncRunBound | mercury/3rdparty/base64/cencode.c:47-80 | three bytes never produce more than five characters, so a doubled buffer suffices |
| Base64Codec.DecRunBound | mercury/3rdparty/base64/cdecode.c:47-82 | the decoder never writes more bytes than it reads characters |
| Base64Codec.Base64Putter.PutByte | mercury/include/io/binary/Base64Putter.hpp:30-41 | each byte put is added to the text in the making; a full block of 128 fits its 256-byte output with the NUL |
| Base64Codec.Base64Putter.Serialize | mercury/include/io/binary/Base64Putter.hpp:43-55 | what is written, then the buffered bytes and the end; the encoder moves on while the buffer stays, so another call encodes the buffered bytes again |
| Base64Codec.Base64Putter.SerializeOnce | mercury/include/io/binary/Base64Putter.hpp:43-55 | the first call returns the encoding of all bytes put |
| Base64Codec.SerializedTwice | mercury/include/io/binary/Base64Putter.hpp:43-55 | with one byte in the buffer the second text is a character shorter than the first |
| Base64Codec.Base64Putter.PutBytes | mercury/src/io/binary/Putter.cpp:8-11 | all bytes are added to the text in the making |
| Base64Codec.Base64Putter.EncodeBuffer | mercury/include/io/binary/Base64Putter.hpp:34-37 | a block written as a C string loses nothing, since the encoder never writes a NUL |
| Base64Codec.SimpleBase64Encode | mercury/include/io/binary/Base64Putter.hpp:66-70 | is the RFC encoding of the input, in lines |
| BinaryHeap.RunKeeps | mercury/include/containers/PriorityQueue.hpp:31-74 | every sequence of pushes, pops and removals keeps heap order, and pushed = present + popped + removed as multisets, throughout, if and only if no removal leaves the root unrepaired |
| BinaryHeap.PopsAreSorted | mercury/include/containers/PriorityQueue.hpp:31-74 | over every such sequence, at every moment repeated pop would yield in order exactly what was pushed and neither popped nor removed: again if and only if no removal leaves the root unrepaired |
| BinaryHeap.DrainSorts | mercury/include/containers/PriorityQueue.hpp:41-53 | popping a heap until it is empty yields a sorted permutation of it |
| BinaryHeap.RemoveKeepsHeap | mercury/include/containers/PriorityQueue.hpp:60-74 | removal keeps heap order if and only if the root is repaired: an inner slot always is, in either direction; the root is not when the word read by the underflowed parent index compares greater and the moved element does not fit |
| BinaryHeap.RemoveKeepsElements | mercury/include/containers/PriorityQueue.hpp:60-74 | removal takes exactly one element: in a heap the one found; in an array out of order, when the one found is last and less than its parent, the parent |
| BinaryHeap.RootNotRepaired | mercury/include/containers/PriorityQueue.hpp:133-138 | a heap of three whose root removal breaks the order |
| BinaryHeap.WrongElementTaken | mercury/include/containers/PriorityQueue.hpp:65-69 | an array out of order from which the wrong element is taken |
| BinaryHeap.PushKeeps | mercury/include/containers/PriorityQueue.hpp:31-35 | push keeps heap order and adds exactly the new element |
| BinaryHeap.PopKeeps | mercury/include/containers/PriorityQueue.hpp:48-53 | pop keeps heap order and takes exactly the front |
| BinaryHeap.FrontIsLeast | mercury/include/containers/PriorityQueue.hpp:41-43 | no element is less than the front |
| BinaryHeap.SiftUpHeap | mercury/include/containers/PriorityQueue.hpp:162-172 | sifting up restores heap order when only the element and its parent may disagree |
| BinaryHeap.SiftDownHeap | mercury/include/containers/PriorityQueue.hpp:143-157 | sifting down restores heap order when only the element and its children may disagree |
| BinaryHeap.SiftUpElements | mercury/include/containers/PriorityQueue.hpp:162-172 | sifting up permutes the elements |
| BinaryHeap.SiftDownElements | mercury/include/containers/PriorityQueue.hpp:143-157 | sifting down permutes the elements |
| BinaryHeap.VerifyIsTooStrict | mercury/include/containers/PriorityQueue.hpp:86-128 | verify, documented as always true, holds exactly for heaps in which no element is equivalent to its parent |
| BinaryHeap.PriorityQueue.PushBack | mercury/include/containers/PriorityQueue.hpp:31-35 | the vector operation has the effect of Push on the live elements |
| BinaryHeap.PriorityQueue.PopFront | mercury/include/containers/PriorityQueue.hpp:48-53 | the vector operation has the effect of Pop, also when the last element goes |
| BinaryHeap.PriorityQueue.Remove | mercury/include/containers/PriorityQueue.hpp:60-74 | finds the first equal element and has the effect of RemoveFirst; false and no change when there is none |
| BinaryHeap.PriorityQueue.SiftDownFrom | mercury/include/containers/PriorityQueue.hpp:143-157 | although nil takes index == size for present, the sift never moves the stale slot into the heap |
| BinaryHeap.PriorityQueue.SiftUpFrom | mercury/include/containers/PriorityQueue.hpp:162-172 | has the effect of SiftUp and leaves the slots behind the heap alone |
| BinaryHeap.PriorityQueue.ReheapFrom | mercury/include/containers/PriorityQueue.hpp:135-138 | has the effect of Reheap on a live slot; on the slot just removed it changes nothing unless the element left there is less than its parent |
| BinaryHeap.PriorityQueue.Front | mercury/include/containers/PriorityQueue.hpp:41-43 | returns the first element; in a heap nothing is less |
| BinaryHeap.PriorityQueue.Empty | mercury/include/containers/PriorityQueue.hpp:79-81 | true exactly when no element is live |
| BinaryHeap.PriorityQueue.FindSlot | mercury/include/containers/PriorityQueue.hpp:61-65 | the first slot with an equal element, or the size |
| BinaryHeap.EqualKeysRejected | mercury/include/containers/PriorityQueue.hpp:105-128 | a heap of two equal keys that verify rejects |
| Scheduler.RunKept | mercury/src/os/Scheduler.cpp:41-98 | in every run, at every moment, each executed runnable had the least deadline of all entries pending then and was not run before it, the entry to be run next is the earliest, and accepted = executed + cancelled + pending as multisets: if and only if no cancel leaves the root it removed unrepaired |
| Scheduler.RunGood | mercury/src/os/Scheduler.cpp:41-98 | the same for the order of the whole heap |
| Scheduler.CallServed | mercury/src/os/Scheduler.cpp:10-39 | what each call does when it is served: a runnable is pending for that moment plus its delay; a cancelled one has an entry less, if it had any; stop ends the loop; setStopOnEmpty changes the flag |
| Scheduler.WaitServed | mercury/src/os/Scheduler.cpp:92-96 | a wait in vain runs the first entry, with its deadline past and all that was pending on record, and takes it off the heap |
| Scheduler.StopEnds | mercury/src/os/Scheduler.cpp:43-74 | a served stop ends the loop, and so does setStopOnEmpty(true) with nothing pending |
| Scheduler.IsOverMeans | mercury/src/os/Scheduler.cpp:51-56 | a wait is over at the deadline, or at once if that has passed |
| Scheduler.RequestsInOrder | mercury/src/os/Scheduler.cpp:10-39 | each call has one request, in the order of the calls |
| Scheduler.IterateKept | mercury/src/os/Scheduler.cpp:43-97 | one iteration of the loop, with any calls of other threads and any clock, keeps those promises if and only if it leaves no root unrepaired |
| Scheduler.IterateGood | mercury/src/os/Scheduler.cpp:43-97 | the same for the order of the whole heap |
| Scheduler.RepairDecides | mercury/src/os/Scheduler.cpp:76-96 | after a request that leaves none behind, all that is run as its time comes is run in time if and only if no root was left unrepaired |
| Scheduler.UntimelyNext | mercury/src/os/Scheduler.cpp:92-96 | with a later entry at the front and no request, the next execution is out of time |
| Scheduler.OutOfTime | mercury/src/os/Scheduler.cpp:76-96 | a run from the start that executes a runnable ahead of one that was due before |
| Scheduler.PossibleIffTurn | mercury/src/os/Scheduler.cpp:44-65 | what the loop finds at its request queue is exactly what one turn of the only consumer of the blocking queue can give: a request when there is one, nothing in the time only when there was none before the wait |
| Scheduler.TurnIterates | mercury/src/os/Scheduler.cpp:44-96 | such a turn leaves queue and requests as the iteration does, and takes the request that is served |
| Scheduler.ServeGood | mercury/src/os/Scheduler.cpp:67-91 | serving a request keeps it under the same condition, which concerns only a CANCEL that removes the root |
| Scheduler.EarlyWordIsHarmless | mercury/src/os/Scheduler.cpp:76-81 | the condition holds whenever no pending deadline is before the word in front of the array |
| Scheduler.ExecuteGood | mercury/src/os/Scheduler.cpp:92-96 | after a timed wait in vain the front entry is due, and running and popping it keeps it |
| Scheduler.Scheduler.Run | mercury/src/os/Scheduler.cpp:41-98 | the loop follows the specification event by event, serves no event once asked to exit or empty with stop-on-empty set, stops before the environment does only then, and keeps the invariant if all roots are repaired |
| Scheduler.Scheduler.OneIteration | mercury/src/os/Scheduler.cpp:44-96 | one turn of the loop has the specified effect on queue, requests and history |
| Scheduler.Scheduler.ServeRequest | mercury/src/os/Scheduler.cpp:67-91 | CONTINUE changes nothing, EXIT ends, CANCEL removes the first entry of the runnable, SCHEDULE adds an entry at now + delay |
| Scheduler.Scheduler.DoCalls | mercury/src/os/Scheduler.cpp:10-39 | each public call appends one request; only setStopOnEmpty also sets the flag |
| Scheduler.PushAddsOne | mercury/src/os/Scheduler.cpp:83-89 | scheduling adds one entry and keeps the heap |
| Scheduler.RemoveTakesOne | mercury/src/os/Scheduler.cpp:76-81 | cancelling takes exactly the entry found, and keeps the heap if and only if the root is repaired |
| Scheduler.ByDeadlineIsStrictWeak | mercury/include/os/Scheduler.hpp:72-77 | the deadline comparison is a strict weak order |
| TimerProtocol.CancelClearsTimer | mercury/include/proc/StateMachine.hpp:165-178 | over every interleaving of the machine thread, other threads and the scheduler: the heap never holds two entries of the machine's timer and a served CANCEL leaves none, throughout, if and only if every served CANCEL of the timer takes the entry it finds |
| TimerProtocol.RepairedIsRegular | mercury/src/os/Scheduler.cpp:76-81 | it does as long as no removed root is left unrepaired |
| TimerProtocol.CancelClears | mercury/src/os/Scheduler.cpp:76-81 | in any array that holds the timer at most once, a CANCEL leaves none if and only if it takes the entry it finds |
| TimerProtocol.NotCleared | mercury/src/os/Scheduler.cpp:76-81 | an interleaving with one caller in which a served CANCEL takes another entry and leaves the timer in the heap |
| TimerProtocol.RunKeepsOneTimer | mercury/include/proc/StateMachine.hpp:97-178 | the invariant behind it over whole runs: at most one entry whatever is served next, none left before a schedule |
| TimerProtocol.StepKeepsOneTimer | mercury/include/proc/StateMachine.hpp:97-178 | each single step keeps it |
| TimerProtocol.ServeKeepsOneTimer | mercury/src/os/Scheduler.cpp:76-89 | serving any request keeps it, a cancel of another runnable that takes the timer included |
| TimerProtocol.CountCancel | mercury/src/os/Scheduler.cpp:76-81 | in any array a single removal takes one entry of the timer or none, by the runnable of the entry it takes |
| TimerProtocol.SafeSnoc | mercury/include/proc/StateMachine.hpp:171-177 | a schedule sent after a cancel is safe behind any safe queue of requests |
| TimerProtocol.FinalSnoc | mercury/src/os/Scheduler.cpp:76-89 | what one more request does to the number of entries there will be |
| TimerProtocol.SafeFewer | mercury/src/os/Scheduler.cpp:93-95 | the timer running out in between never makes the queued requests unsafe |
| TimerProtocol.SafeIffOneCaller | mercury/include/proc/StateMachine.hpp:80-84 | the heap never holds two entries of the timer, in any interleaving in which its CANCELs take the entries they find, if and only if at most one thread calls schedule_timeout |
| TimerProtocol.TwoCallersTwoEntries | mercury/include/proc/StateMachine.hpp:80-84 | with the lock commented out, two threads in schedule_timeout can leave two entries |
| TimerProtocol.EntryDecides | mercury/include/proc/StateMachine.hpp:165-178 | at the moment the cancel of schedule_timeout is queued: if and only if the scheduler is neither waiting for the timer's entry nor about to run it, no such interleaving up to the next call makes clearTimeout overlook a pending timer |
| TimerProtocol.FlagMissesIffLate | mercury/include/proc/StateMachine.hpp:97-102 | over every such run with one caller, clearTimeout overlooks a pending timer if and only if the timer last ran out after a new one was armed or while a SCHEDULE of it was queued, with no arming since |
| TimerProtocol.ClearTimeoutCancels | mercury/include/proc/StateMachine.hpp:97-102 | with the flag up clearTimeout queues one CANCEL of the timer behind whatever other threads and the scheduler do meanwhile, and then no entry of it is pending |
| TimerProtocol.LookDecides | mercury/include/proc/StateMachine.hpp:97-98 | it goes on to that exactly if the flag is up, and looking changes nothing else |
| TimerProtocol.ClearedForGood | mercury/include/proc/StateMachine.hpp:97-178 | from then on, until the timer is scheduled again, no entry of it is left whenever all requests are served |
| TimerProtocol.SetTimeoutSchedules | mercury/include/proc/StateMachine.hpp:165-178 | schedule_timeout queues a CANCEL of the timer, after which none is pending, puts the flag up and queues the SCHEDULE, after which one is, whatever others do in between |
| TimerProtocol.StepKeepsPrecise | mercury/include/proc/StateMachine.hpp:97-202 | each step keeps that the flag of an armed or pending timer is down exactly in a late run |
| TimerProtocol.StepKeepsShielded | mercury/src/os/Scheduler.cpp:43-96 | while that cancel waits behind other requests, each step keeps that the scheduler neither waits for the timer nor runs it, and that the flag is up once it is armed |
| TimerProtocol.StepKeepsClean | mercury/include/proc/StateMachine.hpp:97-202 | once that cancel is served, each step up to the next call keeps at most one entry or request of the timer, with the flag up for it |
| TimerProtocol.MissedAfterEntry | mercury/include/proc/StateMachine.hpp:171-177 | otherwise the entry runs between the arming and the scheduling: the interleaving that ends with a pending timer and the flag down is constructed |
| TimerProtocol.QueueStepIsTurn | mercury/src/os/Scheduler.cpp:43-65 | each step of the blocking queue with the scheduler as its only consumer is a push, a step of the scheduler in this protocol, or none |
| TimerProtocol.TurnIsQueueStep | mercury/src/os/Scheduler.cpp:43-65 | conversely the scheduler may wait, be woken, give up a wait (not before the first deadline) or run the first entry exactly where its thread is at that place of the queue protocol |
| TimerProtocol.StaleTimer | mercury/include/proc/StateMachine.hpp:97-102 | an interleaving in which the flag is down while an entry is pending, so that clearTimeout leaves it there |
| BlockingQueue.OneConsumer | mercury/include/containers/BlockingQueue.hpp:48-150 | one consumer, any number of producers, every interleaving: no read or pop of an empty queue, consumed is a prefix of pushed with the rest in the queue, and a consumer asleep outside a push means an empty queue |
| BlockingQueue.ConsumerGetsOn | mercury/include/containers/BlockingQueue.hpp:65-150 | with a value in the queue and the lock free, the consumer is not asleep, and its next step gives it the first value, or pops that value, or returns false |
| BlockingQueue.PushesWake | mercury/include/containers/BlockingQueue.hpp:48-55 | a push appends its value, and wakes any one thread that slept on the empty queue |
| BlockingQueue.RunGood | mercury/include/containers/BlockingQueue.hpp:48-150 | the invariant behind it over whole runs |
| BlockingQueue.StepGood | mercury/include/containers/BlockingQueue.hpp:48-150 | each step of push, front, front_timed and the unlocked pop keeps it |
| BlockingQueue.TurnReads | mercury/include/containers/BlockingQueue.hpp:65-150 | one turn of the only consumer, whatever is pushed meanwhile: it takes the first value there is, or, if its wait is timed, found the queue empty and takes nothing |
| BlockingQueue.SomeTurnReads | mercury/include/containers/BlockingQueue.hpp:48-73 | whenever there is a value, or one is pushed, a turn takes one |
| BlockingQueue.SomeTurnReadsNothing | mercury/include/containers/BlockingQueue.hpp:105-116 | a timed wait that began on an empty queue can end with nothing although values have been pushed meanwhile |
| BlockingQueue.SafeIffOneConsumer | mercury/include/containers/BlockingQueue.hpp:65-88 | the queue is safe in all interleavings exactly when there is at most one consumer |
| BlockingQueue.TwoConsumersFault | mercury/include/containers/BlockingQueue.hpp:68-72 | with two or more consumers a woken one can find the queue empty, because it waits with an if |
| BlockingQueue.TwoConsumersMissed | mercury/include/containers/BlockingQueue.hpp:52-54 | with two or more consumers one can sleep on although a value is there, because push signals only at size one |
| LatencyStats.OnePassNotNegative | mercury/src/mercury/dns/Test.cpp:180-180 | n*sumsq - sum*sum is never negative, so the root exists |
| LatencyStats.OnePassIsVariance | mercury/src/mercury/dns/Test.cpp:166-180 | for two or more values the one-pass form is the sum of squared deviations over n - 1 |
| LatencyStats.OnePassIsSpread | mercury/src/mercury/dns/Test.cpp:180-180 | n*sumsq - sum*sum is n times the squared deviations from the mean |
| LatencyStats.SumsSuffice | mercury/src/mercury/dns/Test.cpp:160-181 | average and deviation made from the three running sums are mean and variance of the samples that are not -1 |
| LatencyStats.SumUp | mercury/src/mercury/dns/Test.cpp:162-176 | the loop counts the lost samples on top of those before, and sums the received ones |
| LatencyStats.CalcHalfResults | mercury/src/mercury/dns/Test.cpp:160-181 | mean and squared deviation of the received samples of one half, with the running loss count |
| LatencyStats.StandardDeviation | hermes/Android/app/src/main/java/tester/PerformanceTester.java:459-476 | the two-pass loop computes the variance of its list; zero for an empty list, not a number for a single value |
| LatencyStats.BothAgree | hermes/Android/app/src/main/java/tester/PerformanceTester.java:459-476 | the C++ and the Java program report the same for the received samples if and only if there is one; with none the C++ gets not-a-number and the Java zero |
| LatencyStats.AllLost | hermes/Android/app/src/main/java/tester/PerformanceTester.java:459-476 | a list with its only packet lost, on which they differ |
| LatencyStats.LostOrReceived | mercury/src/mercury/dns/Test.cpp:168-175 | every sample is either lost or received |
| LatencyStats.ReceivedAndLost | mercury/src/mercury/dns/Test.cpp:165-172 | the samples lost are those of minus one, and every other sample is received once |
| LatencyStats.ReceivedConcat | mercury/src/mercury/dns/Test.cpp:165-172 | in their order |
| DnsTest.DnsTestImpl.RunTest | mercury/src/mercury/dns/Test.cpp:65-209 | under any stimuli, in any order, the test ends exactly when there are as many accepted replies and timeouts as hosts; every host was asked for once, in order; the samples are those of the stimuli, and the report is theirs, valid and invalid half apart, and says of each what ReportReports states |
| DnsTest.StimulusGoesOn | mercury/include/proc/StateMachine.hpp:141-156 | during a test a reply or timeout is one more sample and leads to the next query or the report, and any other stimulus changes nothing |
| DnsTest.BeginTests | mercury/src/mercury/dns/Test.cpp:65-89 | with hosts of both kinds, beginning clears both halves, forgets earlier samples and puts the first valid host out |
| DnsTest.PushRecords | mercury/src/mercury/dns/Test.cpp:127-138 | a sample goes to the half of the host that was asked for |
| DnsTest.MoveGoesOn | mercury/src/mercury/dns/Test.cpp:91-125 | after a sample comes the next host, or the turn to the invalid hosts, or, with all hosts asked, the report |
| DnsTest.TurnedToInvalid | mercury/src/mercury/dns/Test.cpp:114-121 | when the valid hosts are done the invalid ones are queued and the first of them is asked for |
| DnsTest.Reconfigured | mercury/src/mercury/dns/Test.cpp:140-146 | a new configuration during a test changes nothing but the invalid hosts, and those only before their turn |
| DnsTest.DnsTestImpl.StartTest | mercury/src/mercury/dns/Test.cpp:140-146 | starting an idle machine begins a test with no samples, or does nothing if there is no valid host; starting during a test only replaces invalid hosts whose turn has not come |
| DnsTest.DnsTestImpl.ProcessStim | mercury/include/proc/StateMachine.hpp:141-156 | the handlers do with the fields what the machine on values does with a stimulus |
| DnsTest.DnsTestImpl.SendResults | mercury/src/mercury/dns/Test.cpp:182-209 | the observer is told mean and squared deviation of each half and the loss ratio of both, stated by what they are times the numbers of samples |
| DnsTest.MakeReport | mercury/src/mercury/dns/Test.cpp:182-195 | two passes of calc_half_results with one running loss count give these numbers |
| DnsTest.ReportReports | mercury/src/mercury/dns/Test.cpp:160-209 | in a report each average times the number of received samples of that half is their sum, each squared deviation times one less is the sum of their squared distances from it, each is missing exactly with too few samples, and the loss ratio times the number of samples is the number of those of minus one |
| DnsTest.LossRatioBounds | mercury/src/mercury/dns/Test.cpp:195-195 | the loss ratio is the share of -1 samples, between 0 and 1, 0 exactly when none and 1 exactly when all are lost |
| DnsTest.HalvesGrow | mercury/src/mercury/dns/Test.cpp:78-136 | the two vectors are the first samples, as many as there are valid hosts, and the rest |
| DnsQuestion.SamePacketIffPlain | hermes/Android/app/src/main/java/tester/PerformanceTester.java:412-455 | the C++ and the Java encoder emit the same bytes if and only if the name is not empty and does not end in a dot, whatever its labels |
| DnsQuestion.QuestionReadsBack | mercury/src/io/DnsPacket.cpp:18-45 | for every name whose labels have 1 to 63 bytes, a reader after section 4.1 of RFC 1035, which accepts a standard query with recursion desired and one question only, gets back name and id from either packet |
| DnsQuestion.JavaFits | hermes/Android/app/src/main/java/tester/PerformanceTester.java:412-447 | the Java array of name.length() + 18 bytes is never too short, and filled exactly unless the name ends in a dot |
| DnsQuestion.GetContent | hermes/Android/app/src/main/java/tester/PerformanceTester.java:412-455 | the index loop stays in bounds and produces the specified packet, unused bytes zero |
| DnsQuestion.FillSection | hermes/Android/app/src/main/java/tester/PerformanceTester.java:434-443 | a section is its length byte and its characters, behind what was written before |
| DnsQuestion.FillHeader | hermes/Android/app/src/main/java/tester/PerformanceTester.java:417-429 | the twelve header bytes |
| DnsQuestion.DnsPacket.PutterSerialize | mercury/src/io/DnsPacket.cpp:18-45 | appends header, labels and trailer of the packet |
| DnsQuestion.Split | mercury/include/missing.h:18-25 | the getline loop gives the pieces between dots, without an empty piece after a last dot |
| DnsQuestion.GetLine | mercury/include/missing.h:21-22 | takes up to the next dot and drops it, or takes the rest, or fails at the end |
| DnsQuestion.CppSplitIsPieces | mercury/include/missing.h:18-25 | the C++ pieces joined by dots differ from the name only by a missing empty last piece |
| DnsQuestion.JavaSplitIsPieces | hermes/Android/app/src/main/java/tester/PerformanceTester.java:414-414 | String.split agrees with the pieces unless the name ends in a dot |
| DnsQuestion.JoinPieces | mercury/include/missing.h:18-25 | joining the pieces with dots gives the name back |
| DnsQuestion.ReadLabels | mercury/src/io/DnsPacket.cpp:34-40 | length-prefixed labels up to a zero are read back as the labels, the rest untouched |
| DnsQuestion.TrailingDotDiffers | hermes/Android/app/src/main/java/tester/PerformanceTester.java:414-415 | a name with a dot at its end, for which the packets differ |
| RingQueue.PushThenWalk | mercury/include/containers/RingQueue.hpp:97-181 | after any number k of pushes on a queue of any capacity c, iterating from begin to end terminates and yields the last min(k,c) values in push order |
| RingQueue.Walk | mercury/include/containers/RingQueue.hpp:22-56 | the loop over an unbounded index with == modulo capacity + 1 stops exactly behind the contents |
| RingQueue.RingQueue.PushBack | mercury/include/containers/RingQueue.hpp:133-146 | appends, dropping the oldest value when full |
| RingQueue.Cursor.Dereference | mercury/include/containers/RingQueue.hpp:111-116 | within the contents get names the right slot, although its modulus is the size or the array length |
| RingQueue.PushAll | mercury/include/containers/RingQueue.hpp:133-146 | many pushes leave the last values that fit |
| RingQueue.EndIsReached | mercury/include/containers/RingQueue.hpp:46-50 | an index k steps from the front equals the end's exactly when k is the size |
| RingQueue.LastOfLast | mercury/include/containers/RingQueue.hpp:136-145 | dropping at each push comes to the same as dropping once |
| RingBuffer.Run | mercury/src/io/RingBuffer.cpp:16-74 | on every interleaving of write, peek and read the buffer does what a sequence bounded by size - 1 does |
| RingBuffer.FirstInFirstOut | mercury/src/io/RingBuffer.cpp:16-74 | as long as nothing is pushed out, what was read followed by what is held is what was held followed by what was written |
| RingBuffer.RingBuffer.Write | mercury/src/io/RingBuffer.cpp:16-35 | leaves the last size - 1 bytes of the old content followed by the new bytes, and returns the count |
| RingBuffer.RingBuffer.Peek | mercury/src/io/RingBuffer.cpp:65-74 | copies the longest prefix that fits, touches nothing behind it, and keeps the content |
| RingBuffer.RingBuffer.Read | mercury/src/io/RingBuffer.cpp:58-63 | copies the same prefix and removes exactly it |
| RingBuffer.RingBuffer.constructor | mercury/src/io/RingBuffer.cpp:5-9 | a new buffer can be used exactly when it has two slots or more, and then already holds one byte of no particular value |
| IcmpPacket.SerializedIsSound | mercury/include/io/ICMPSocket.hpp:88-120 | the one's-complement sum (RFC 1071) of all words of a serialized buffer is 0xFFFF if and only if no carry is lost, neither by the second fold nor by the width of size_t |
| IcmpPacket.ShortIsSound | mercury/include/io/ICMPSocket.hpp:88-120 | so it is for every even buffer of at most 131078 bytes with a 64-bit size_t, 131076 with a 32-bit one |
| IcmpPacket.LongerFails | mercury/include/io/ICMPSocket.hpp:116-119 | two bytes longer there is a packet whose stored checksum is wrong |
| IcmpPacket.ChecksumHolds | mercury/include/io/ICMPSocket.hpp:105-120 | the exact condition for any even bytes whose checksum field is zero, on machines of either byte order |
| IcmpPacket.SoundIsWhole | mercury/include/io/ICMPSocket.hpp:109-111 | summing in machine order decides soundness as summing in network order does |
| IcmpPacket.CheckMakesWhole | mercury/include/io/ICMPSocket.hpp:116-119 | sum plus check is a multiple of 65535 exactly when no carry is lost |
| IcmpPacket.OnesSumIsResidue | mercury/include/io/ICMPSocket.hpp:109-111 | the end-around-carry sum is the residue modulo 65535 of the plain sum, zero only for zero |
| IcmpPacket.Checksum | mercury/include/io/ICMPSocket.hpp:105-120 | stores the complement of the twice-folded sum in the second word and changes nothing else |
| IcmpPacket.SumWords | mercury/include/io/ICMPSocket.hpp:107-111 | the loop adds up the words of the whole buffer, wrapping at the width of size_t |
| IcmpPacket.ICMPPacket.Serialize | mercury/include/io/ICMPSocket.hpp:88-103 | -1 and no change for a buffer too short; else the packet and a checksum over the whole buffer |
| IcmpPacket.ICMPPacket.Deserialize | mercury/include/io/ICMPSocket.hpp:50-55 | fails exactly for fewer than 8 bytes, keeping the message; else every field but the checksum comes from its place |
| IcmpPacket.SendAndReceive | mercury/include/io/ICMPSocket.hpp:50-103 | a packet sent and received keeps type, code, identifier, sequence number and payload |
| IcmpPacket.Send | mercury/include/io/ICMPSocket.hpp:88-103 | in a buffer of its own size every field is in its place and the checksum sound within the limit |
| IcmpPacket.Rfc792Reads | mercury/include/io/ICMPHeader.hpp:100-107 | a reader that expects the identifier and the sequence number where RFC 792 puts them finds both if and only if they are equal |
| IcmpPacket.HeaderLayout | mercury/include/io/ICMPHeader.hpp:100-107 | each field of the header in its place, words with their high byte first |
| IcmpPacket.Rfc792Differs | mercury/include/io/ICMPHeader.hpp:100-107 | a header whose two numbers such a reader exchanges |
| IcmpPacket.BufferPutter.PutHeader | mercury/include/io/ICMPHeader.hpp:100-107 | type, code, checksum, sequence number, identifier, the words big-endian; it fails when the buffer is full |
| IcmpPacket.BufferPutter.PutByte | mercury/include/io/binary/BufferPutter.hpp:29-38 | appends a byte, or fails and changes nothing |
| IcmpPacket.BufferGetter.GetByte | mercury/include/io/binary/BufferGetter.hpp:20-27 | takes the next byte, or fails and changes nothing |
| BinaryStream.Transfer | mercury/include/io/binary/Putter.hpp:34-91 | any list of 16, 32 and 64-bit puts of either order and strings, any writer buffer, any chunks of the reads: the matching gets return what was put, if and only if every item survives, which can be seen before it is put |
| BinaryStream.ReceivedIffSurvive | mercury/include/io/binary/Getter.hpp:52-168 | the same for the values alone: strings need to be free of NUL, and, if the compiler takes the right operand first, big-endian 64-bit values need equal halves |
| BinaryStream.GetAll | mercury/include/io/binary/Getter.hpp:52-168 | the gets of matching kinds return each item as it comes out and use up the stream exactly |
| BinaryStream.PutAll | mercury/include/io/binary/Putter.hpp:34-91 | the puts append the encodings in order |
| BinaryStream.StreamPutter.PutByte | mercury/src/io/binary/StreamPutter.cpp:31-37 | written plus buffered bytes grow by the byte; a full buffer is flushed |
| BinaryStream.StreamPutter.Flush | mercury/src/io/binary/StreamPutter.cpp:23-29 | everything buffered is written and the buffer is empty |
| BinaryStream.StreamPutter.PutInt16le | mercury/include/io/binary/Putter.hpp:34-37 | low byte first |
| BinaryStream.StreamPutter.PutInt16be | mercury/include/io/binary/Putter.hpp:43-46 | high byte first |
| BinaryStream.StreamPutter.PutInt32le | mercury/include/io/binary/Putter.hpp:55-58 | the four bytes, lowest first, from two halves |
| BinaryStream.StreamPutter.PutInt32be | mercury/include/io/binary/Putter.hpp:50-53 | the four bytes, highest first, from two halves |
| BinaryStream.StreamPutter.PutInt64le | mercury/include/io/binary/Putter.hpp:65-68 | the eight bytes, lowest first, from two halves |
| BinaryStream.StreamPutter.PutInt64be | mercury/include/io/binary/Putter.hpp:60-63 | the eight bytes, highest first, from two halves |
| BinaryStream.StreamPutter.PutBytes | mercury/src/io/binary/Putter.cpp:8-11 | appends the bytes |
| BinaryStream.StreamPutter.PutString | mercury/include/io/binary/Putter.hpp:88-91 | the size, cut to 32 bits, and all characters |
| BinaryStream.StreamGetter.GetByte | mercury/include/io/binary/StreamGetter.hpp:56-70 | the next byte of the whole stream, over any chunks, empty ones included; underflow exactly when nothing is left |
| BinaryStream.StreamGetter.GetInt16le | mercury/include/io/binary/Getter.hpp:52-57 | takes two bytes and returns the number they are, lowest first; underflow if there are fewer |
| BinaryStream.StreamGetter.GetInt16be | mercury/include/io/binary/Getter.hpp:64-69 | the same, highest first |
| BinaryStream.StreamGetter.GetInt32le | mercury/include/io/binary/Getter.hpp:76-80 | takes four bytes, lowest first |
| BinaryStream.StreamGetter.GetInt32be | mercury/include/io/binary/Getter.hpp:87-91 | takes four bytes, highest first |
| BinaryStream.StreamGetter.GetInt64le | mercury/include/io/binary/Getter.hpp:98-102 | takes eight bytes, lowest first |
| BinaryStream.StreamGetter.GetInt64be | mercury/include/io/binary/Getter.hpp:109-111 | takes eight bytes, highest first, with its halves exchanged when the right operand is taken first |
| BinaryStream.StreamGetter.GetBytes | mercury/include/io/binary/StreamGetter.hpp:72-76 | exactly the next len bytes, or underflow |
| BinaryStream.StreamGetter.GetString | mercury/include/io/binary/Getter.hpp:149-168 | length, then that many bytes, cut at the first NUL |
| BinaryStream.StringSurvives | mercury/include/io/binary/Getter.hpp:149-168 | what comes of a string equals it exactly when it has no NUL and less than 2^32 - 1 bytes |
| BinaryStream.TransferString | mercury/include/io/binary/Putter.hpp:88-91 | a string of any length put, through any buffer and chunks, and got again: it comes back whole exactly when it has no NUL and less than 2^32 - 1 bytes |
| BinaryStream.LeJoin | mercury/include/io/binary/Putter.hpp:55-68 | two halves written one behind the other are the little-endian number |
| BinaryStream.BeJoin | mercury/include/io/binary/Putter.hpp:50-63 | and the big-endian one with the high half first |
| BinaryStream.LeReads | mercury/include/io/binary/Getter.hpp:52-102 | reading undoes writing, lowest byte first |
| BinaryStream.BeReads | mercury/include/io/binary/Getter.hpp:64-111 | reading undoes writing, highest byte first |
| Common.CStringKeeps | mercury/include/io/binary/Getter.hpp:163-165 | a C string keeps everything exactly when there is no NUL |
| Common.CStringStops | mercury/include/io/binary/Base64Putter.hpp:36-37 | a C string stops at the first NUL |
| BinaryStream.NotReceived | mercury/include/io/binary/Getter.hpp:109-165 | a string with a NUL inside and a 64-bit value that do not come back |
| Inet4.PrintedReadsBack | mercury/src/io/Inet4Address.cpp:26-90 | every 32-bit address printed as a dotted quad is parsed as itself, whatever addr held at first |
| Inet4.SameForAllStarts | mercury/src/io/Inet4Address.cpp:27-51 | an accepted text gives one address for all starting values of addr if and only if it has four groups |
| Inet4.GroupsAreDots | mercury/src/io/Inet4Address.cpp:33-39 | the groups are one more than the dots |
| Inet4.ParseMeans | mercury/src/io/Inet4Address.cpp:26-52 | accepted are exactly one to four groups of digits of at most 255 each; the result is their number to the base 256 behind the starting value, modulo 2^32 |
| Inet4.FirstError | mercury/src/io/Inet4Address.cpp:33-47 | a rejected text fails at its first character that cannot follow, with the error of that character |
| Inet4.FromString | mercury/src/io/Inet4Address.cpp:26-52 | the loop computes that result, or stops with that error |
| Inet4.PortIsRejected | mercury/src/io/Inet4Address.cpp:82-90 | the text toString makes, with its port, is never accepted: it stops at the colon |
| Inet4.PortReadsBack | mercury/src/io/Inet4Address.cpp:82-90 | behind the address and a colon the port is printed in decimal |
| Inet4.ReadsGroups | mercury/src/io/Inet4Address.cpp:31-48 | the three variables of the loop after any prefix, in terms of its groups |
| Inet4.LoneOctet | mercury/src/io/Inet4Address.cpp:27-49 | a text without dots keeps three octets of whatever addr held before |

## Left out

- CombinatorCache.Engine.BeginRun: models outermost runs, which count up by one; nested runs inside `:not` and `:has`, numbered by adding random fractions, are not modelled, because their freshness is a matter of chance. Matchers are tests without state.
- CombinatorCache.Node.constructor: nodes of a page that changes during a run are not modelled; parents and siblings are fixed, and numbered so that following either ends.
- DocumentOrder.SortOrder: nodes are addressed by paths in a forest instead of pointers, and `sourceIndex` is a number of at most 32 bits where a node has it. The `compareDocumentPosition` variant is not modelled.
- Deferred.Callback: what a callback does is a finite list of calls, after which it returns or throws, so callbacks that add themselves for ever do not occur. `notify`, `progress`, `then`, `always`, `remove`, `empty`, `unique`, `stopOnFalse` and lists that may fire again are not modelled; the branch that disables a list without memory cannot be reached with these options.
- Base64.DecodeValue: `char` is signed, as the tests for negative need; the byte behind the decoding table is a parameter.
- BinaryHeap.Reheap: the word in front of the array is a parameter, given anew for each removal.
- Scheduler.Scheduler.Run: the clock, the outcome of each timed wait and the calls of other threads are an arbitrary list of events; a timed wait that returns false is taken to have lasted its full time. Logging is left out.
- TimerProtocol.Next: steps on values, not a class, since its subject is the interleaving of threads; the handlers of the machine are in `DnsTest`. The command queue of the state machine and the stimulus a timer sends are not part of the protocol; they touch neither the heap nor the requests. A push and its signal are one step unless the scheduler waits; then the thread that pushed may go on before its signal, which adds runs, but none that a lemma constructs uses it. A timer counts as pending even if a queued cancel of another runnable will take its entry by mistake.
- BlockingQueue.Next: a protocol on values, not a class, since its subject is the interleaving of threads; spurious wake-ups are not modelled. `front_default`, `emptyFront` and `empty` are left out.
- LatencyStats.Deviation: the square of the standard deviation, over exact numbers; what is not a number is None, and minus zero is zero. Rounding and overflow of the sums are not modelled.
- DnsTest.DnsTestImpl.StartTest: with a valid host and no invalid one the original reads an empty queue, so an invalid one is required then. The new configuration is stored in one step, although the caller is another thread. Sockets, the packet and the timer are left out; replies and timeouts may come at any time, stale ones included.
- DnsTest.MovedAlong: the branch for fewer than one packet sent cannot be reached and is not modelled.
- DnsQuestion.JavaSplit: `String.split` is a library call, given by its documented result. Names are bytes; characters beyond a byte are not modelled.
- RingQueue.RingQueue.PushBack: `pop_front`, copying and the constant iterator are left out, as the code gives them no coherent meaning.
- RingBuffer.RingBuffer.Write: needs two slots or more, as with fewer the end index is outside the array; `setSize` and copying are left out.
- IcmpPacket.Checksum: even lengths only; for an odd one the code reads behind its buffers. A packet whose message was never set has no length and is not modelled.
- BinaryStream.StreamGetter.GetByte: a read that returns 0 for ever makes the original loop for ever; here the source ends with an error instead. The sink takes every write whole.
- BinaryStream.StreamGetter.GetString: for a length of 2^32 - 1 the original allocates an empty array and writes behind it; None stands for that.
- Inet4.FromString: the text is what precedes the terminating NUL. The one-argument variant, the host and network byte order and `inet_aton` are left out.
- Sockets, polling, processes, logging, JSON, the Android and iOS front ends, the Flask server and the rest of jQuery: plumbing and user interface, with little to prove beside the above.
