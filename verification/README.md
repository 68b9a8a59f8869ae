# Containers, verified

Dafny models of the six containers of this library that carry the hard properties, with proofs of what each one is
for. Each model follows the code branch by branch; where the code falls short of its intent, the model keeps the code,
a theorem shows a state or an input on which the intent fails, and another says exactly when it holds.

`dafny verify dfyconfig.toml` checks the whole project.

## What is modelled

**The pipe** (`src/mpsc_fixed_pipe/mpsc_fixed_pipe.hpp`; files `Pipe*.dfy`). Any number of senders and one receiver
share a ring buffer of bytes and three paces: `sender_pace_to_` (T), `sender_pace_from_` (F) and `receiver_pace_` (R).
The model is a transition system: each sender has a program counter and locals, every read, CAS or store of a shared
word and each write of a part of a message (header, size, content, ready bit) is an action of its own, and publishing
R and blanking in `MsgConsumed` are two actions. `PipeModel` holds the system, `PipeInvariant` the invariant,
`PipeTheorems` and `PipeProgress` the results over all runs. A history variable records the messages in the order of
their reservation.

The protocol relies on timing in two places, and both are stated as conditions on single actions:

* Line 326 compares the offset of F with that of the message, not the lap. A sender that sleeps between making its
  message ready and loading F can find F back at the same offset in a later lap; it then takes the message of another
  sender for its own, and line 340 only tests that one for blank, not for ready. F passes a message that is not ready,
  and the receiver is given it unfinished (`UnfinishedMessageHandedOut`; `UntimelyMeasureHarms` for every such read).
* Lines 183-184 publish R before the consumed bytes are blanked. A sender that sees the new R can reserve, fill and
  finish a message there, which is then blanked (`ReadyMessageBlanked`; `UntimelyReserveLosesBytes` for every such
  reservation).

`StepIffTimely` proves that these are the only two gaps: from a state that satisfies the invariant, an enabled action
keeps the invariant if and only if it is timely, and `RunIffTimely` the same for whole runs. All results about
reachable states are about runs of timely actions. `AlwaysComesToRest` proves that the protocol does not lock up. The
atomic `MsgConsumed` is a special case, as every reservation is then timely in the second sense.

**The hash map** (`src/close_hashmap.hpp`; `Probing`, `HashTable`, `HashGrowth`, `CloseHashmap`). Double hashing with
tombstones, over any hash function and any table of primes. `Resize` does not check what `Init` checks, that no prime
of the table divides the size: 71 slots grow to 106 = 2 * 53. `GrowthIff` proves that growth keeps every entry for
every hash function if and only if no prime of the table divides the new size; the contracts of the methods that may
grow say what happens in either case.

**The heap** (`src/heap.hpp`; `HeapOrder`, `Heap`, `HeapDrain`). Nodes are objects with an index field, handles are
nodes, and the heap is proved to be a map from live handles to values.

**The timer table** (`src/events_driver.hpp`; `EventsDriver`). The table of descriptors and the heap agree: a
descriptor has a handle if and only if exactly that node of the heap names it. Registering a descriptor that still has
a timer breaks this for good (`AddOverLiveTimer`): a node stays in the heap that no sequence of deletions removes, so
that once it expires the loop of `RemoveTimeouts` does not end.

**The object pool** (`src/pool_objs/pool_objs.hpp`; `PoolObjs`). A stack laid out over blocks. The accounts of the
pool say that every object it has ever made or been given is in exactly one place: on the stack, handed out, or
dropped.

**JSON** (`src/jsontype/details/jsontype.cpp`; `JsonGrammar`, `JsonSyntax`, `JsonSound`, `JsonComplete`,
`JsonPrinter`, `JsonTheorems`, `JsonLocality`, `JsonParser`). `JsonGrammar` is what the code reads, as functions, and
`JsonParser` the parser and the printer as they run, proved to compute them. `JsonSyntax` writes down, without the
parser, which texts there are and what they mean, and `ReadsExactlyTrees` proves that the code reads exactly these.
The other results say exactly when parse undoes print, when a value is local, and when the parser comes back: a list
in which a lone minus stands where a value should never finishes (`NeverReturns`), and that is the only way for the
parser not to come back (`SpinsIff`, `StuckValue`).

## Model

| member | source | states |
|---|---|---|
| PipeTheorems.StepIffTimely | src/mpsc_fixed_pipe/mpsc_fixed_pipe.hpp:180-374 | From any state satisfying the invariant, an enabled action of a sender or of the receiver keeps it if and only if the action is timely. |
| PipeTheorems.RunIffTimely | src/mpsc_fixed_pipe/mpsc_fixed_pipe.hpp:180-374 | A run from a state satisfying the invariant satisfies it at every state if and only if all its actions are timely. |
| PipeTheorems.SenderStep | src/mpsc_fixed_pipe/mpsc_fixed_pipe.hpp:260-358 | Every timely action of a sender keeps the invariant. |
| PipeTheorems.ReceiverStep | src/mpsc_fixed_pipe/mpsc_fixed_pipe.hpp:360-374 | Every action of the receiver keeps the invariant. |
| PipeTheorems.RunKeeps | src/mpsc_fixed_pipe/mpsc_fixed_pipe.hpp:180-374 | The invariant holds after every run of timely actions. |
| PipeTheorems.ReachableInv | src/mpsc_fixed_pipe/mpsc_fixed_pipe.hpp:126-374 | Every reachable state satisfies the invariant. |
| PipeTheorems.FifoExactlyOnce | src/mpsc_fixed_pipe/mpsc_fixed_pipe.hpp:180-185 | After every run of timely actions the byte images the receiver has consumed are a prefix of the images of the messages in the order of their reservation: nothing lost, repeated, reordered or altered. |
| PipeTheorems.ImageDetermines | src/mpsc_fixed_pipe/mpsc_fixed_pipe.hpp:269-273 | The bytes of a message determine its header and content. |
| PipeTheorems.SentGrowsAlong | src/mpsc_fixed_pipe/mpsc_fixed_pipe.hpp:299-312 | Over every run the sequence of sent messages only grows: no message is taken back or changed. |
| PipeTheorems.HandedOutComplete | src/mpsc_fixed_pipe/mpsc_fixed_pipe.hpp:279-281 | After every run of timely actions the message handed out to the receiver is complete, byte for byte, and is the oldest one not consumed. |
| PipeTheorems.RingOrder | src/mpsc_fixed_pipe/mpsc_fixed_pipe.hpp:291-315 | After every run of timely actions: in unrolled order R <= F <= T, with T less than a lap ahead of R; unconsumed messages are inside the buffer, between R and T, in order and pairwise disjoint, each beginning where the one before ends or at the start of the next lap; every byte outside them is blank, except while MsgConsumed is blanking. |
| PipeTheorems.CasFromAdvances | src/mpsc_fixed_pipe/mpsc_fixed_pipe.hpp:343-356 | After every run of timely actions: a successful CAS on F strictly advances it, over exactly one ready message that had not been passed, however old the value the sender compares. |
| PipeTheorems.StoreFromAdvances | src/mpsc_fixed_pipe/mpsc_fixed_pipe.hpp:327-334 | After every run of timely actions: the plain store at a rewind strictly advances F from the end of the last message passed to a ready message at the start of the next lap, passing none. |
| PipeTheorems.FromOnlyAdvances | src/mpsc_fixed_pipe/mpsc_fixed_pipe.hpp:323-357 | Over every run of timely actions F never moves back, and where it has not moved no message was passed. |
| PipeTheorems.NoMessageStranded | src/mpsc_fixed_pipe/mpsc_fixed_pipe.hpp:317-358 | After every run of timely actions: as long as F is behind T some sender is between its reservation and the end of JustSendMsg_; it is obliged to advance F if the message at F is ready, and else it owns the next message. |
| PipeTheorems.QuietMeansAllPassed | src/mpsc_fixed_pipe/mpsc_fixed_pipe.hpp:317-358 | After every run of timely actions: once no sender is between its reservation and the end of JustSendMsg_, F equals T and every message has been passed. |
| PipeProgress.AlwaysComesToRest | src/mpsc_fixed_pipe/mpsc_fixed_pipe.hpp:260-374 | No deadlock: from every reachable state a run of timely actions leads to a state in which every sender has returned, F equals T and the receiver has been given every message ever reserved, those of the first state included. |
| PipeProgress.SettledMeansCaughtUp | src/mpsc_fixed_pipe/mpsc_fixed_pipe.hpp:327-358 | When no sender can move but by waiting for others, F equals T and no sender is in the loop of line 328. |
| PipeProgress.ReceiveAll | src/mpsc_fixed_pipe/mpsc_fixed_pipe.hpp:180-185 | Whatever it was doing, the receiver can consume all messages passed without any sender moving. |
| PipeTheorems.MeasureDecidesAdvance | src/mpsc_fixed_pipe/mpsc_fixed_pipe.hpp:339-344 | A sender at F that reads a size that is not blank makes its CAS succeed; F then lands on the end of a ready message if and only if the read was timely. |
| PipeProgress.UntimelyMeasureHarms | src/mpsc_fixed_pipe/mpsc_fixed_pipe.hpp:323-344 | Every untimely read of a size does harm: if F equals T, F overtakes T; otherwise there is a run after which the receiver holds a message that is not ready and whose bytes are not those of the message. |
| PipeTheorems.UntimelyMeasureCause | src/mpsc_fixed_pipe/mpsc_fixed_pipe.hpp:323-326 | A read of the size is untimely only if F has come back, in a later lap, to the offset of the message of that sender, long passed. |
| PipeTheorems.UntimelyReserveSucceeds | src/mpsc_fixed_pipe/mpsc_fixed_pipe.hpp:180-185 | An untimely reservation succeeds while MsgConsumed has published R and not yet blanked, and overlaps the bytes to be blanked. |
| PipeTheorems.UntimelyReserveLosesBytes | src/mpsc_fixed_pipe/mpsc_fixed_pipe.hpp:180-185 | From every reachable state with an untimely reservation there is a run after which the reserved message is ready and its bytes are not there. |
| PipeTheorems.BlankedBytesAreLost | src/mpsc_fixed_pipe/mpsc_fixed_pipe.hpp:183-184 | Blanking destroys any ready message that overlaps the bytes to be blanked. |
| PipeCounterexample.UnfinishedMessageHandedOut | src/mpsc_fixed_pipe/mpsc_fixed_pipe.hpp:323-340 | There is a run of two senders and the receiver after which F has passed a message of which only header and size are written, and the receiver holds it. |
| PipeCounterexample.ReservationOverBytesToBlank | src/mpsc_fixed_pipe/mpsc_fixed_pipe.hpp:180-185 | A state with an untimely reservation is reachable. |
| PipeCounterexample.ReadyMessageBlanked | src/mpsc_fixed_pipe/mpsc_fixed_pipe.hpp:180-185 | There is a run after which a ready message has been blanked. |
| PipeReceiverProof.BehindMeansNextLap | src/mpsc_fixed_pipe/mpsc_fixed_pipe.hpp:367-373 | When the receiver finds F behind it, F is one lap ahead, and the receiver jumps to the start exactly if the next message is there; if it does not jump, it is at that message. |
| PipeReceiverProof.AheadMeansMessage | src/mpsc_fixed_pipe/mpsc_fixed_pipe.hpp:362-365 | When the receiver finds F ahead of it, it is at the oldest message not consumed, and F has passed it. |
| PipeReceiverProof.HeldMessage | src/mpsc_fixed_pipe/mpsc_fixed_pipe.hpp:183-183 | The size MsgConsumed adds to R is the length of the message handed out. |
| PipeReserveProof.ReservationFacts | src/mpsc_fixed_pipe/mpsc_fixed_pipe.hpp:296-314 | Even if the copy of R that a sender compares is stale, the space it reserves is inside the buffer and does not reach R from behind. |
| PipeReserveProof.CasToKeeps | src/mpsc_fixed_pipe/mpsc_fixed_pipe.hpp:291-315 | A timely CAS on sender_pace_to_ keeps the invariant, whether it succeeds, fails or rewinds. |
| PipeReserveProof.UntimelyReserveBreaks | src/mpsc_fixed_pipe/mpsc_fixed_pipe.hpp:291-315 | A CAS on sender_pace_to_ that reserves bytes MsgConsumed has yet to blank breaks the invariant. |
| PipeProgress.ReservesIff | src/mpsc_fixed_pipe/mpsc_fixed_pipe.hpp:291-315 | In every state satisfying the invariant, with up-to-date paces the CAS on T succeeds if and only if a record of that length that begins at T or at the start of the next lap lies inside the buffer and ends less than a lap ahead of R; the new record is such a one, with the header and content given, at T whenever that is possible; otherwise nothing changes. |
| PipeProgress.SendsIff | src/mpsc_fixed_pipe/mpsc_fixed_pipe.hpp:260-315 | An idle sender that is not interrupted gets its space if and only if the content is not larger than the maximum and there is room in that sense. |
| PipeProgress.EmptyPipeRefusesIff | src/mpsc_fixed_pipe/mpsc_fixed_pipe.hpp:298-314 | The case of ReservesIff in which the pipe is empty: the message is refused if and only if it fits neither behind the offset of the paces nor before it. |
| PipeProgress.EmptyPipeTakesIff | src/mpsc_fixed_pipe/mpsc_fixed_pipe.hpp:291-315 | A message is taken by the empty pipe at every offset if and only if two of its length fit in the pipe, which is more than Init asks for. |
| PipeSenderProof.TimelyMeansReady | src/mpsc_fixed_pipe/mpsc_fixed_pipe.hpp:339-342 | A size read at F that is not blank is timely if and only if a ready message not yet passed begins there, and its size is then that of the message. |
| PipeSenderProof.GapIsBlank | src/mpsc_fixed_pipe/mpsc_fixed_pipe.hpp:346-351 | A size probed at F where the next message begins in the next lap is blank: the unused tail is never read as a message. |
| PipeSenderProof.WordAt | src/mpsc_fixed_pipe/mpsc_fixed_pipe.hpp:376-380 | The size field of a reserved message is blank until the size is written, not ready until the ready bit is set, and always the message's own size. |
| PipeSenderProof.UntimelyMeasureBreaks | src/mpsc_fixed_pipe/mpsc_fixed_pipe.hpp:339-342 | An untimely read of the size breaks the invariant. |
| PipeAdvanceProof.CasFromKeeps | src/mpsc_fixed_pipe/mpsc_fixed_pipe.hpp:343-357 | The CAS on sender_pace_from_ keeps the invariant, including that somebody stays obliged to advance it. |
| PipeAdvanceProof.RewindFacts | src/mpsc_fixed_pipe/mpsc_fixed_pipe.hpp:327-334 | A rewinding sender owns the next message to be passed, which is ready at the start of the next lap, and F is at the end of the message before. |
| PipeEncoding.CasComparesPositions | src/mpsc_fixed_pipe/mpsc_fixed_pipe.hpp:427-444 | Two packed words are equal if and only if offset and version agree; within 2^16 laps that means the same position, and exactly 2^16 laps later the words are equal again. |
| Probing.ProbeHits | src/close_hashmap.hpp:266-275 | A prime step that does not divide the size reaches every slot within as many probes as there are slots. |
| Probing.ProbesDistinct | src/close_hashmap.hpp:266-275 | No two of the first n probes with such a step are the same slot, n being the size. |
| Probing.CoversIff | src/close_hashmap.hpp:162-166 | A prime step covers the table from every start if and only if it does not divide the size: the check of Init is exactly what is needed. |
| HashTable.MissMeansAbsent | src/close_hashmap.hpp:258-276 | A probe that ends at a never-used slot, or after as many probes as slots, without the key proves that the table does not hold it. |
| HashTable.PutNew | src/close_hashmap.hpp:188-192 | Storing a new key in the first slot of its path that is not live keeps the table well formed and adds that one entry to the map. |
| HashTable.PutAgain | src/close_hashmap.hpp:199-204 | Overwriting the slot of a key changes its value alone. |
| HashTable.Remove | src/close_hashmap.hpp:224-233 | A tombstone removes that one key and keeps every other entry reachable. |
| HashTable.ModelSize | src/close_hashmap.hpp:178-233 | The map has as many keys as the table has live slots. |
| HashTable.SpareSlot | src/close_hashmap.hpp:288-294 | There is a slot that is not live, never used or erased, if and only if the live slots are fewer than the slots. |
| HashTable.NextSizeIs | src/close_hashmap.hpp:311-314 | The size grown to is 1.5 times the old one, rounded down, and one more than the old one for sizes below 2. |
| HashTable.PathFullIff | src/close_hashmap.hpp:286-294 | In a table of admissible size the path of a key has no free slot if and only if all slots are live. |
| HashTable.WalkYieldsEachKeyOnce | src/close_hashmap.hpp:92-126 | An iteration yields every key of the map exactly once. |
| CloseHashmaps.CloseHashmap.Begin | src/close_hashmap.hpp:93-107 | The iterator starts at the first live slot, or at the end. |
| CloseHashmaps.CloseHashmap.Next | src/close_hashmap.hpp:115-125 | It moves to the next live slot, or to the end. |
| HashGrowth.RehashKeeps | src/close_hashmap.hpp:309-343 | Rehashing into a size that no prime of the table divides keeps the map and the count, leaves no tombstone and yields a well-formed table. |
| HashGrowth.GrowthIff | src/close_hashmap.hpp:309-343 | Growth keeps every entry of every table, for every hash function, if and only if no prime of the table divides the new size. |
| HashGrowth.GrowthLoses | src/close_hashmap.hpp:329-336 | If the prime at index i divides the new size and all keys hash to i, growth does not keep every table. |
| HashGrowth.FullLoses | src/close_hashmap.hpp:329-336 | In that case no full table keeps all its entries when it grows. |
| CloseHashmaps.FillAndGrow | src/close_hashmap.hpp:157-196 | Such a table is reached by Init and n successful insertions of the keys 0 to n - 1, and growing then leaves fewer than n entries. |
| HashGrowth.RehashSound | src/close_hashmap.hpp:320-338 | Growth to any size yields a well-formed table whose entries are entries of the old one. |
| HashGrowth.SeventyOneGrowsBadly | src/close_hashmap.hpp:311-314 | A table of 71 slots, which Init accepts with 53 as first prime, can lose an entry when it grows to 106. |
| HashGrowth.RehashInClass | src/close_hashmap.hpp:329-336 | With a step that divides the size, all entries of one start end up in one residue class. |
| CloseHashmaps.CloseHashmap.Init | src/close_hashmap.hpp:157-176 | Succeeds if and only if no prime of the table divides the size; the map is then empty. |
| CloseHashmaps.CloseHashmap.GetItemOrNull | src/close_hashmap.hpp:258-276 | Finds the slot of a key of the map; NULL means that the map does not have the key. |
| CloseHashmaps.CloseHashmap.GetItemOrFree | src/close_hashmap.hpp:280-295 | Finds the slot of the key, or else the first slot of its path that is not live; NULL if and only if the key is absent and its path has no free slot, which on a table of admissible size means that all slots are live. |
| CloseHashmaps.CloseHashmap.Get | src/close_hashmap.hpp:246-254 | The value of the map at the key, or none. |
| CloseHashmaps.CloseHashmap.Insert | src/close_hashmap.hpp:179-196 | If growth, when needed, is to an admissible size: adds the entry if and only if the key is new and there is or can be room; never overwrites; everything else stays. After growth to any other size: the map is the rehashed one, with the entry added unless its key is there, or a NULL is dereferenced because the path of the key has no free slot. |
| CloseHashmaps.CloseHashmap.Upsert | src/close_hashmap.hpp:199-221 | Overwrites a key that is there. A new key is added to the map, which is the rehashed one if the table had to grow, unless there can be no room; after growth to a size some prime divides a NULL may be dereferenced, because the path of the key has no free slot. |
| CloseHashmaps.CloseHashmap.Erase | src/close_hashmap.hpp:224-233 | Removes that one key, and says whether it was there. |
| CloseHashmaps.CloseHashmap.Resize | src/close_hashmap.hpp:310-343 | The new slots are the rehashed old ones; the map has no new entries, and if no prime of the table divides the new size it is the same. |
| CloseHashmaps.CloseHashmap.Copy | src/close_hashmap.hpp:320-338 | Places one entry in the first never-used slot of its path, as Resize does. |
| CloseHashmaps.CloseHashmap.SizeIsDomain | src/close_hashmap.hpp:178-233 | num_elm_ is the number of keys. |
| HeapOrder.UpStep | src/heap.hpp:258-266 | Moving the parent down into the hole keeps the order everywhere but at the new hole. |
| HeapOrder.DownStep | src/heap.hpp:275-291 | Moving the smaller child up into the hole keeps the order everywhere but at the new hole. |
| HeapOrder.Fill | src/heap.hpp:268-269 | Filling the hole restores the order once the node fits between parent and children. |
| HeapOrder.ChangeOne | src/heap.hpp:149-155 | Any change of one value leaves what AdjustNode_ needs. |
| HeapOrder.TakeLast | src/heap.hpp:189-199 | Putting the last node in the place of any other leaves what AdjustNode_ needs. |
| HeapOrder.RootIsLeast | src/heap.hpp:55-55 | No value in the heap is less than the one at the root. |
| HeapOrder.IntegerFeature | src/heap.hpp:247-251 | For any finite set of values, comparing by any strict weak order is comparing an integer feature. |
| Heaps.Heap.AdjustNode | src/heap.hpp:254-296 | From any array that is a heap but for one node, sifting up or down terminates with heap order, right back-indices and the same nodes and values. |
| Heaps.Heap.SiftUp | src/heap.hpp:258-269 | The loop upstairs restores the heap. |
| Heaps.Heap.SiftDown | src/heap.hpp:270-295 | The loop downstairs restores the heap. |
| Heaps.Heap.Insert | src/heap.hpp:126-146 | Returns a handle distinct from all live ones, bound to the value; all others keep their values; recycled nodes are never live ones. |
| Heaps.Heap.Update | src/heap.hpp:149-155 | Changes the value of the named handle alone. |
| Heaps.Heap.UpdateTop | src/heap.hpp:158-164 | Changes the value of the top handle alone; nothing on an empty heap. |
| Heaps.Heap.Refresh | src/heap.hpp:167-172 | Restores the heap after the value of one node has been changed from outside. |
| Heaps.Heap.RefreshTop | src/heap.hpp:175-179 | Restores the heap after the value of the top node has been changed from outside; does nothing on an empty heap. |
| Heaps.Heap.Erase | src/heap.hpp:189-199 | Removes the named handle, wherever it is, and keeps all others and their values. |
| Heaps.Heap.Pop | src/heap.hpp:182-186 | Removes the handle whose value Top returns. |
| Heaps.Heap.Top | src/heap.hpp:55-55 | The value of a live handle whose feature is least among the live handles in a min heap and greatest in a max heap; none if and only if the heap is empty. |
| Heaps.Heap.Resize | src/heap.hpp:234-244 | Doubles the array; every handle stays at its place, and the added nodes are new. |
| Heaps.Heap.Clear | src/heap.hpp:202-204 | The heap is empty, and no node is lost. |
| Heaps.Heap.Size | src/heap.hpp:59-59 | The number of live handles. |
| HeapDrain.Drain | src/heap.hpp:181-199 | Top then Pop until nothing is left yields each live handle exactly once with its value; the feature never falls for a min heap and never rises for a max heap, ties included. |
| EventsDrivers.AddAgreesIff | src/events_driver.hpp:131-133 | Adding a timer keeps table and heap in agreement if the descriptor had none; if it had one, they agree on no assignment of timers at all. |
| EventsDrivers.ForgetAgreesIff | src/events_driver.hpp:134-136 | Forgetting the handle of a descriptor keeps table and heap in agreement if it had no timer; if it had one, they agree on no assignment of timers at all. |
| EventsDrivers.AddOverLiveTimer | src/events_driver.hpp:131-133 | After adding over a live timer, no sequence of deletions removes the old node from the heap. |
| EventsDrivers.OrphanDisagrees | src/events_driver.hpp:131-136 | With a heap node that no descriptor has as its handle, table and heap agree on no assignment of timers. |
| EventsDrivers.CancelAgrees | src/events_driver.hpp:175-179 | Cancelling keeps the agreement and removes just that timer. |
| EventsDrivers.UpdateAgrees | src/events_driver.hpp:147-148 | Moving a timer keeps the agreement and changes just that timer. |
| EventsDrivers.EventsDriver.RegEvent | src/events_driver.hpp:107-172 | Table and heap agree afterwards if and only if this was not an addition for a descriptor with a live timer. If they do: on success with a time of at least 0 the descriptor has a timer that expires at now plus that time, with a negative time its timer is as before; on failure it has none; all other timers stay. In every case the context of the descriptor alone changes. |
| EventsDrivers.RegisterAndExpire | src/events_driver.hpp:107-225 | A descriptor registered at a time with a timeout is taken by a later RemoveTimeouts if and only if the sum of the two is before that later time, and else keeps its timer. |
| EventsDrivers.EventsDriver.RegEventDel | src/events_driver.hpp:175-192 | The timer of the descriptor is gone whether or not the deletion succeeds; its context is cleared only on success. |
| EventsDrivers.EventsDriver.RemoveTimeouts | src/events_driver.hpp:208-225 | Terminates, whatever the deletions return; takes exactly the timers with expiry before now, once each and in non-decreasing order of expiry; returns their contexts that are not NULL; of each descriptor taken the context is gone if its deletion succeeded; all other timers and entries stay. |
| EventsDrivers.ContextsPicked | src/events_driver.hpp:215-217 | The contexts handed out are those of the descriptors that have one, one each, in the order of the descriptors. |
| EventsDrivers.EventsDriver.ClearAll | src/events_driver.hpp:228-240 | Returns the contexts of all descriptors in order; of each descriptor that had one the timer is gone, and the context too where the deletion succeeded; the others keep both. |
| EventsDrivers.TakeOne | src/events_driver.hpp:213-223 | One round of the loop takes the earliest timer left. |
| EventsDrivers.AllTaken | src/events_driver.hpp:213-223 | When no timer before now is left, the timers taken are all the expired ones in order. |
| PoolObjects.FlatAt | src/pool_objs/pool_objs.hpp:181-190 | The object at column c of row r has index r * block size + c in the stack. |
| PoolObjects.Pool.StackLies | src/pool_objs/pool_objs.hpp:181-190 | The block table holds the stack at these indices, whose size is row * block size + col. |
| PoolObjects.BalancedMore | src/pool_objs/pool_objs.hpp:163-167 | New objects join the stack without any object being in two places. |
| PoolObjects.BalancedTake | src/pool_objs/pool_objs.hpp:181-190 | Handing out the last object keeps the accounts. |
| PoolObjects.BalancedPut | src/pool_objs/pool_objs.hpp:215-231 | Taking back an object that is neither pooled nor dropped keeps the accounts, whether it is pushed or dropped. |
| PoolObjects.Pool.Init | src/pool_objs/pool_objs.hpp:137-153 | Succeeds if and only if a block is allowed and the initial objects fit in the blocks allowed; the stack is then the least number of blocks that hold them, full of new objects. |
| PoolObjects.Pool.SetUpMeans | src/pool_objs/pool_objs.hpp:138-146 | When a pool can be set up, and with how many blocks, as products of the sizes. |
| PoolObjects.Pool.AllocABlock | src/pool_objs/pool_objs.hpp:156-172 | Fails if and only if no block is left; else a row of new objects is on the stack above the old ones, also where the row filled is not the block attached. |
| PoolObjects.Pool.Take | src/pool_objs/pool_objs.hpp:180-199 | Get on a pool that is set up: the last object of the stack; if there is none, one of a row of new ones in row 0; if no block is left, a single new one or NULL. |
| PoolObjects.Pool.TakeFromNewRow | src/pool_objs/pool_objs.hpp:187-190 | Growth puts a full row of new objects in row 0 and loses none: all but the one handed out are on the stack. |
| PoolObjects.Pool.Get | src/pool_objs/pool_objs.hpp:175-200 | NULL if and only if the pool cannot be set up, or its stack is empty, no row can be added and no single objects are made. Otherwise the last object of the stack; if the stack is empty, one of a whole new row if there may be one, and else a single new object. The object handed out was not handed out before; on the first call the stack is that of the pool just set up. |
| PoolObjects.Pool.Put | src/pool_objs/pool_objs.hpp:205-232 | Free on a pool that is set up: drops the object if the pool may not grow and row * blocks + col is the initial number, or if all blocks are full and there can be no more; otherwise pushes it. |
| PoolObjects.Pool.Free | src/pool_objs/pool_objs.hpp:203-233 | Pushes the object if there is room and drops it otherwise, NULL changing nothing; a pool not set up yet is set up first, and the object then goes on its new stack by the same rule, or is lost if it cannot be set up. |
| PoolObjects.Pool.Destroy | src/pool_objs/pool_objs.hpp:263-287 | Deletes the objects of the stack, each exactly once, and the blocks, each exactly once. |
| JsonComplete.ReadsExactlyTrees | src/jsontype/details/jsontype.cpp:126-342 | A value is read from one cursor to another if and only if the text between them is that of blanks and a syntax tree that is in order and ends there, and it is what the tree means: blanks allowed before and behind every token, commas optional, one trailing comma directly before the bracket, the first of equal keys counting, numbers saturated at 64 bits, strings kept raw. |
| JsonSound.TreeRead | src/jsontype/details/jsontype.cpp:126-342 | Wherever the text of a tree that is in order stands, and is not prolonged, it is read with the meaning of the tree. |
| JsonComplete.TreeTaken | src/jsontype/details/jsontype.cpp:126-342 | Whatever is read, a lone minus excepted, is the text of such a tree. |
| JsonComplete.LoneMinusRead | src/jsontype/details/jsontype.cpp:274-288 | A minus without a digit behind it is read as 0 and takes nothing. |
| JsonComplete.FirstCounts | src/jsontype/details/jsontype.cpp:263-263 | Of the entries with a key the first gives the value. |
| JsonSyntax.CharClasses | src/jsontype/details/jsontype.cpp:338-342 | Blanks are newline, tab and space; digits are 0 to 9. |
| JsonGrammar.StringEnd | src/jsontype/details/jsontype.cpp:294-300 | The scan ends at the first position at which it has to stop. |
| JsonPrinter.RawIff | src/jsontype/details/jsontype.cpp:291-310 | A quoted string reads back as itself if and only if it has no NUL, every quote in it is behind a backslash and it does not end in a backslash. |
| JsonPrinter.IntBack | src/jsontype/details/jsontype.cpp:274-289 | Every printed integer, however large, reads back clamped to 64 bits unless a digit or a point follows: as itself if and only if it has 64 bits. |
| JsonPrinter.RoundTrip | src/jsontype/details/jsontype.cpp:81-336 | Wherever a printed document stands in a text, parsing it gives its value and leaves the cursor right behind it. |
| JsonTheorems.ParseUndoesPrint | src/jsontype/details/jsontype.cpp:81-336 | For every document, whatever the order in which its dictionaries enumerate their keys, and every text behind it: parsing gives its value and leaves exactly that text if and only if all its strings are raw, no key is empty, all integers have 64 bits, and it is not a number that the text prolongs. |
| JsonTheorems.ValueReadable | src/jsontype/details/jsontype.cpp:126-336 | Whatever the text, every string in a value that is read is raw, no key is empty and every integer has 64 bits. |
| JsonTheorems.DocReadable | src/jsontype/details/jsontype.cpp:81-124 | A document whose value can be read is one that survives printing. |
| JsonComplete.PrintedDocument | src/jsontype/details/jsontype.cpp:81-124 | The exact text printed: elements joined by a comma, entries by a comma and a blank, keys in quotes with a colon behind. |
| JsonComplete.PrintedInt | src/jsontype/details/jsontype.cpp:89-91 | An integer is printed as its sign and its decimal digits without zeros ahead. |
| JsonTheorems.HasDocument | src/jsontype/details/jsontype.cpp:81-124 | Every value built of null, 64-bit integers, raw strings, lists and dictionaries with non-empty keys is the value of such a document. |
| JsonTheorems.AnyOrder | src/jsontype/details/jsontype.cpp:110-120 | For every order of the keys of a dictionary there is a document that enumerates them in that order and has the same value. |
| JsonLocality.SpinsIff | src/jsontype/details/jsontype.cpp:230-245 | The list loop stays at its cursor for ever if and only if a lone minus is there. |
| JsonLocality.StuckValue | src/jsontype/details/jsontype.cpp:126-171 | If parsing does not end, a lone minus stands where a list wants a value. |
| JsonLocality.ValueText | src/jsontype/details/jsontype.cpp:126-342 | What a value takes contains no terminator. |
| JsonLocality.LocalIff | src/jsontype/details/jsontype.cpp:126-342 | What is read depends only on the text taken and on the one character behind if and only if the value is neither a lone minus nor a double that ends before the letter of an exponent that is not whole. |
| JsonLocality.ValueSame | src/jsontype/details/jsontype.cpp:126-342 | A value that is neither a lone minus nor a double cut off at an exponent depends only on the text it takes and on the one character behind. |
| JsonLocality.LoneMinusLooksFurther | src/jsontype/details/jsontype.cpp:274-276 | For every lone minus there is a text with the same next character that reads differently. |
| JsonLocality.CutLooksFurther | src/jsontype/details/jsontype.cpp:277-282 | For every double cut off at an exponent there is a text with the same next character that reads differently. |
| JsonLocality.MinusLooksFurther | src/jsontype/details/jsontype.cpp:274-276 | The texts "-" and "-5" agree up to the character behind the value of the first, and read differently. |
| JsonLocality.ExponentLooksFurther | src/jsontype/details/jsontype.cpp:274-281 | The texts "1.5e" and "1.5e3" agree up to the character behind the value of the first, and read differently. |
| JsonParsers.Reader.IgnoreBlanks | src/jsontype/details/jsontype.cpp:338-342 | Moves the cursor to the first character that is no blank. |
| JsonParsers.Reader.ReadinStrRaw | src/jsontype/details/jsontype.cpp:291-310 | The scanning loop reads what the grammar reads. |
| JsonParsers.Reader.ReadinList | src/jsontype/details/jsontype.cpp:224-246 | The list loop ends whenever the grammar is not stuck, with the value and cursor of the grammar. |
| JsonParsers.Reader.ReadDictPair | src/jsontype/details/jsontype.cpp:312-336 | Reads the entry that the grammar reads, or NULL, with blanks allowed on both sides of the colon as the grammar has it. |
| JsonParsers.Reader.ReadinDict | src/jsontype/details/jsontype.cpp:249-271 | The dictionary loop ends with the value and cursor of the grammar. |
| JsonParsers.Reader.ParseJson | src/jsontype/details/jsontype.cpp:126-171 | Returns the value and cursor of the grammar, whose texts are exactly those of ReadsExactlyTrees, and a failure on all others on which the parser comes back, a lone minus excepted. |
| JsonParsers.DumpJson | src/jsontype/details/jsontype.cpp:81-124 | Appends to the stream exactly the printed document. |

## Left out

- `PipeTheorems.FifoExactlyOnce`: not for runs with untimely actions, of which it is false (`PipeCounterexample.UnfinishedMessageHandedOut`, `PipeCounterexample.ReadyMessageBlanked`); `PipeTheorems.RunIffTimely` says which runs those are.
- `PipeTheorems.HandedOutComplete`: likewise only for runs of timely actions; `PipeProgress.UntimelyMeasureHarms` says what happens otherwise.
- `PipeTheorems.RingOrder`: only for runs of timely actions; an untimely size read at T moves F beyond T.
- `PipeTheorems.CasFromAdvances`: only for runs of timely actions; `PipeTheorems.MeasureDecidesAdvance` says which CAS passes a ready message.
- `PipeTheorems.StoreFromAdvances`: only for runs of timely actions.
- `PipeTheorems.NoMessageStranded`: only for runs of timely actions.
- `PipeTheorems.QuietMeansAllPassed`: only for runs of timely actions.
- The pipe is modelled under sequential consistency, with a lap number that does not wrap; `PipeEncoding.CasComparesPositions` says what 16 bits of version lose.
- A probe of the size field at line 347 that would reach beyond the end of the buffer reads as blank; in C++ it is a read out of bounds.
- A message header has at least one byte, and the content size is below 2^31 - 1, so that a ready size never looks blank.
- The receiver does not poll again while it holds a message, and consumes only what it was handed.
- Notification, timed and busy waiting, and the sizes reported by SizeSpace and SizeMsgReady are not modelled.
- `CloseHashmap::Copy` of the source (lines 236-243) copies only the first num_elm_ slots and is not modelled; the member Copy of the model is one round of the loop of Resize.
- The hash function and the equality of keys are a function and equality of Dafny; the growth factor 1.5 is exact; the table of primes is a parameter whose entries are assumed to be prime.
- The table of a map of size 0 cannot be set up, as every prime divides 0; the lookup of a map that was never set up is not modelled.
- `Heaps.Heap.constructor`: sets the heap up at once, where the source does so at the first call; the initial size is at least 2, as a heap of size 0 writes out of bounds at its first insertion, and Pop on an empty heap of size 1 reads out of bounds.
- The feature of a heap is an integer (`HeapOrder.IntegerFeature` says why that is no restriction); the width of its int variables and of sizes is not modelled anywhere.
- `Heaps.Heap.Erase`: asks for a live handle unless the heap is empty, as the source has no way to recognise others.
- kDelEvent in RegEvent takes the success of the deletion for a failure and is not modelled; Wait, CheckReadyEvent, epoll and locks are results passed in as parameters, or left out.
- `EventsDrivers.EventsDriver.RemoveTimeouts`: the clock does not advance during the call.
- NumObjsAlloc and the memory reports of the pool are not modelled; NumObjsLeft multiplies rows by the number of blocks and is kept as it is, in the one place where Free uses it.
- The block size of a pool is at least 1, and no object is freed twice or while it is pooled. What InitObj_ writes into a new object is not modelled.
- `JsonParsers.Reader.ParseJson`: the position of the cursor after a failure is left open, and so is the error log; NULL stands for every failure, where the source throws if fewer than 20 characters are left.
- A double is the text strtod converts, in the C locale; printing doubles and booleans loses information, so documents have neither.
- Reference counting and copy on write of JsonType, allocation failure, DelayDelPtr, buffers, slices, string helpers, monitors and thread-local storage are not modelled.
