# Verified models of the buffering, filtering and shaping in lib_ethernet

These Dafny modules model the parts of the Ethernet MAC whose correctness rests on hand-written
allocators, shared queues, counters and a cuckoo hash, and prove what those parts promise over every
interleaving of their calls. Ports, channels and cycle timing are not modelled: what arrives from the
wire, from another thread or from a timer is an argument of a step.

| files | what they model |
|---|---|
| `LiteBank`, `LiteDriver`, `LiteRuns`, `LiteReader`, `LiteMii` | the receive buffer of the MII driver: two circular banks with in-band headers, a ring of bank numbers, notifications |
| `MacFilter`, `MacTable`, `MacHash`, `MacCopies`, `MacRefill`, `MacAgree`, `MacLeftover`, `MacSwap`, `MacHashTables` | the linear MAC address filter, the double-buffered cuckoo hash that replaces it, the swap between its two tables |
| `RgmiiBuffers`, `RxClients`, `RgmiiRx`, `RgmiiServer`, `RgmiiTx`, `RgmiiTxServer` | the buffer pools of the RGMII MAC and its receive and transmit servers |
| `Shaper` | the credit-based shaper, as the RGMII server and the MII transmitter compute it |
| `MiiQueue`, `MiiQueueServer` | the packet queue of the MII real-time MAC with out-of-order frees, the server's cursor, the shared client queues |
| `MiiMemory`, `MiiPool`, `MiiTxPool` | the circular transmit pool of the MII real-time MAC, with the bytes in it, and the transmitter's word loop |
| `Icmp` | the Internet checksum and the echo reply of the ICMP example |
| `Bytes`, `Wrappers` | bytes and words in memory; optional values |

Each state machine is given twice: as functions on values, about which the theorems are proved, and as
classes whose methods follow the code statement by statement and are proved to do what the functions
say. `dafny verify dfyconfig.toml` checks everything.

## What was found

- The MII receive buffer needs 1530 words. The headers ask for 1500 (`lib_ethernet/api/ethernet.h:590`,
  `lib_ethernet/api/mii.h:145`) and 1520 (`lib_ethernet/src/mii_lite_driver.h:28`). Below 1530 one frame
  of 1518 bytes, taken and given back, ends reception for good (`LiteRuns.BufferSizeMatters`); from 1530
  on no run in which every take finds its reader stalls (`LiteRuns.NoStall`).
- Releasing packets in order is not enough for the MII receive buffer. A client that has taken every
  packet of a bank that waits to wrap, and only then releases the oldest, leaves that bank's read pointer
  on a word the driver may overwrite; a later call returns a wrong address and length
  (`LiteReader.InOrderReleaseIsNotEnough`). Over runs the driver is a FIFO queue exactly when every take
  finds its reader at the packet or at a zero word (`LiteRuns.RunIsFifoIff`). A client that looks at the
  pointers before it releases always does (`LiteRuns.CarefulFindsAll`), and one that holds a packet at a
  time need not look (`LiteRuns.OneAtATimeIsCareful`).
- A refill of the hash table whose first passes fail can leave an address in both of its slots. Lookups
  still agree with the active table (`MacRefill.RefillFinds`), but an addition or a deletion for such an
  address then has no effect, though it reports success. `MacCopies.AdditionTakesEffectIff` gives the
  exact condition on the two slots, for any table; `MacAgree.AddAgreesIff` and `MacAgree.DelAgreesIff` say
  when the two filters still agree; and `MacLeftover.AdditionIsLost` is a run of five additions to cleared
  tables that gets there, for a hash function chosen for the purpose, not the filter's own. Copies outside the two slots of their address can bring an old word back later;
  they stay behind exactly when an address with several copies is changed
  (`MacCopies.AdditionKeepsCoherentIff`). Over runs the two filters agree after every operation, with all
  copies in order, exactly when each operation names an address with one copy at most or changes nothing,
  and the linear table takes it or would not change (`MacAgree.RunAgreesIff`).
- `mii_macaddr_get_hash_table` reads `hash_table` and then clears the waiting flag. A table swap between
  the two does harm exactly when what was read is no longer current at the second access, unless the swap
  has still to flag the thread or the table is about to become current again (`MacSwap.HarmIff`); such a
  call is reached from the start (`MacSwap.LateCallIsReached`).
- A good frame that finds the ring of 32 bank numbers full leaves the MII driver without a next buffer
  although there is room (`LiteDriver.InterruptOffersIff`); the next release or refill finds it. Otherwise
  the driver goes without one only where no maximal frame fits (`LiteRuns.RunFromInit`).
- Thirty-two packets that arrive in the MII low-priority queue before the server dispatches the first of
  them stop that queue for good (`MiiQueue.ThirtyTwoArrivalsStop`, `MiiQueue.FullIsStuckIff`).
- `mii_transmit_packet` sends two words at least, so a frame of fewer than eight bytes goes out with
  bytes behind it that are not its own (`MiiPool.SentCarries`).
- The credit sum is exact even where the product of slope and elapsed time overflows by itself, as long
  as the sum fits (`Shaper.AccruedIsExactIff`). With the slope a port starts with it fits for 2978 timer
  ticks from credit 0, less than a maximal frame takes at 100 Mbit/s; after 2979 to 5957 ticks the credit
  is negative and holds high-priority packets back (`Shaper.DefaultSlopeOverflows`). The bound on what
  high-priority traffic may send holds all the same (`Shaper.ShaperBound`); the credit's lower limit does
  not, and `Shaper.FloorKeptIff` says exactly when a turn keeps it (`Shaper.DefaultSlopeBreaksFloor` is one
  that does not).
- `is_valid_icmp_packet` compares the stated total length with the packet only above 60 bytes
  (`icmp.xc:227`). An accepted packet that states more than 1504 bytes takes `build_icmp_response` out of
  its buffers, and none that states less does (`Icmp.AnsweredIff`, `Icmp.LongTotalLength`); one that
  states fewer than 20 is answered with a cut-off header, which is then wrong in general
  (`Icmp.ReplyHeaderValidIff`, `Icmp.ShortTotalLength`).

## Model

| member | source | states |
|---|---|---|
| LiteBank.GapTest | lib_ethernet/src/mii_lite_driver.xc:253 | the unsigned test against 1530 means room for every word the low-level driver may store |
| LiteBank.CommitKeepsBank | lib_ethernet/src/mii_lite_driver.xc:244-271 | a commit appends exactly the received record to the chain of disjoint records, keeps the marker 1 at the write position and at most one zero tail, and reports room exactly where a maximal frame fits |
| LiteBank.RestartKeepsBank | lib_ethernet/src/mii_lite_driver.xc:285-299 | looking at the bank again changes no record; room is reported exactly where a maximal frame fits, and always for an empty bank |
| LiteBank.ReleaseKeepsBank | lib_ethernet/src/mii_lite_driver.xc:309-320 | releasing the oldest record removes that record only; the free loop ends at a positive header within two turns; a stuck bank gets a free head |
| LiteBank.ReceiveKeepsBank | lib_ethernet/src/mii_lite_driver.xc:123-131 | a word the low-level driver stores into the buffer it was given spoils no record |
| LiteBank.NextRecord | lib_ethernet/src/mii_lite_driver.xc:202-210 | behind a record the reader finds the next one or the write position; a zero word is there exactly when the next is at the head |
| LiteBank.RecordsDisjoint | lib_ethernet/src/mii_lite_driver.xc:101-121 | no two records of a bank share a byte |
| LiteDriver.InterruptKeeps | lib_ethernet/src/mii_lite_interrupt.S:92-111 | the handler appends a good frame that finds a next buffer and a ring slot to the queue as it was received; rejected and dropped frames leave the queue alone |
| LiteDriver.ReceiveKeeps | lib_ethernet/src/mii_lite_driver.xc:123-131 | words stored into the driver's buffer change no packet of either bank |
| LiteDriver.RestartKeeps | lib_ethernet/src/mii_lite_driver.xc:278-300 | a restart keeps the queue, the buffers and the readers |
| LiteDriver.ReleaseKeeps | lib_ethernet/src/mii_lite_driver.xc:303-325 | releasing in order removes exactly the oldest packet; the readers stay exact if and only if the release does not let a stuck bank wrap from which all has been taken |
| LiteDriver.PickedIsNext | lib_ethernet/src/mii_lite_driver.xc:194-199 | the header that is picked is that of the oldest waiting packet exactly when the reader is at it or at a zero word |
| LiteDriver.GetKeeps | lib_ethernet/src/mii_lite_driver.xc:190-225 | the call returns the packet that has waited longest, its length without the CRC and its time stamp, never a null pointer while one waits |
| LiteDriver.GetNothing | lib_ethernet/src/mii_lite_driver.xc:193-223 | a null pointer is returned, and nothing changed, when nothing waits |
| LiteDriver.NotifiedKeeps | lib_ethernet/src/mii_impl.h:36-41 | consuming a notification keeps the queue and the notification state |
| LiteDriver.PacketsIntact | lib_ethernet/src/mii_lite_driver.xc:228-325 | every packet held or waiting is in memory as received, apart from the driver's buffer, and its payload ends before the next header |
| LiteDriver.PacketsDisjoint | lib_ethernet/src/mii_lite_driver.xc:228-325 | no two packets held or waiting share a byte |
| LiteDriver.NeverStalls | lib_ethernet/src/mii_lite_driver.xc:278-300 | once everything has been taken and released, the next buffer is the write pointer of the other bank, not -1 |
| LiteDriver.RestartOffersIff | lib_ethernet/src/mii_lite_driver.xc:278-300 | with no next buffer, a restart makes the write pointer of the bank that waits the next buffer exactly when a maximal frame has room there after the look, and else leaves -1 |
| LiteDriver.RestartOffers | lib_ethernet/src/mii_lite_driver.xc:278-300 | after a restart a next buffer is missing only if the bank that waits has no room for a maximal frame; a restart that finds a next buffer changes nothing |
| LiteDriver.ReleaseOffers | lib_ethernet/src/mii_lite_driver.xc:303-325 | after a release in order a next buffer is missing only if the bank that waits has no room for a maximal frame |
| LiteDriver.InterruptOffersIff | lib_ethernet/src/mii_lite_driver.xc:228-275 | the end of a frame: with no next buffer only the overrun count rises; else the old next buffer is filled next, a bad frame's buffer becomes the next one, a kept frame is appended and its bank's write pointer becomes the next buffer exactly when a maximal frame has room there, and a frame that finds the ring full leaves no next buffer although there is room |
| LiteDriver.NotifiesIff | lib_ethernet/src/mii_lite_driver.xc:177-244 | a take sends a notification exactly when packets still wait and none is outstanding, the end of a frame exactly when the frame is kept and none is |
| LiteDriver.WakeUp | lib_ethernet/src/mii_lite_driver.xc:177-214 | at most one notification is outstanding; while packets wait one is, or the client consumed one and has not asked yet |
| LiteDriver.InitInv | lib_ethernet/src/mii_lite_driver.xc:147-172 | an initialised buffer of at least 1530 words stands for the empty queue |
| LiteRuns.RunIsFifoIff | lib_ethernet/src/mii_lite_driver.xc:190-325 | over every interleaving with in-order release every take is answered as a FIFO queue of the kept frames answers it, exactly when every take finds its bank's reader at the packet or at a zero word |
| LiteRuns.RunConserves | lib_ethernet/src/mii_lite_driver.xc:190-325 | in every run whose takes find their readers the frames kept are, in order, those given and those that wait, and what is not released is intact; at its end a next buffer is missing only if the bank that waits has no room, or a frame has found the ring full since the last release or refill |
| LiteRuns.OverrunsCounted | lib_ethernet/src/mii_lite_interrupt.S:92-101 | over every run the overrun counter rises by the number of frames that end while there is no next buffer |
| LiteRuns.CarefulFindsAll | lib_ethernet/src/mii_lite_driver.xc:303-325 | every take finds its reader if the client never releases while a bank that waits to wrap has nothing left to take |
| LiteRuns.RunFromInit | lib_ethernet/src/mii_lite_driver.xc:147-325 | from start: FIFO exactly when every take finds its reader; and then the client is given exactly the kept frames, in order, with lengths and time stamps, the rest is intact in memory, and a next buffer is missing only if the bank that waits has no room, or a frame has found the ring full since the last release or refill |
| LiteRuns.OneAtATimeIsCareful | lib_ethernet/src/mii_lite_driver.xc:303-325 | a client that takes a packet only when it holds none never releases one while a bank that waits to wrap has nothing left to take |
| LiteRuns.StalledForever | lib_ethernet/src/mii_lite_driver.xc:278-300 | a stalled driver with nothing to give stays so whatever is called |
| LiteRuns.OneFrameStalls | lib_ethernet/src/mii_lite_driver.xc:247-258 | with 1500 to 1529 words one maximal frame, taken and given back, stalls the driver |
| LiteRuns.BufferSizeMatters | lib_ethernet/src/mii_lite_driver.h:27-29 | of the buffers of 1500 words or more, the least size the interface asks for, exactly those below 1530 words can be stalled by a client that takes one packet at a time |
| LiteRuns.NoStall | lib_ethernet/src/mii_lite_driver.xc:228-325 | with 1530 words, after any run whose takes found their readers and in which everything was taken and released there is a next buffer |
| LiteReader.InOrderReleaseIsNotEnough | lib_ethernet/src/mii_lite_driver.xc:247-251 | a run that releases in order and whose fourth packet is not the fourth frame kept |
| LiteMii.MiiLite.constructor | lib_ethernet/src/mii_lite_driver.xc:147-172 | the initial fields and the two markers |
| LiteMii.MiiLite.Notify | lib_ethernet/src/mii_lite_driver.xc:177-182 | a token is sent exactly when the last one was seen |
| LiteMii.MiiLite.GetInBuffer | lib_ethernet/src/mii_lite_driver.xc:190-225 | does what the step about which the FIFO theorem is proved does |
| LiteMii.MiiLite.CommitBuffer | lib_ethernet/src/mii_lite_driver.xc:228-246 | records the bank in the ring, or drops the frame when the ring is full, and the header |
| LiteMii.MiiLite.SettleBuffer | lib_ethernet/src/mii_lite_driver.xc:247-271 | the wrap, the marker, and the choice of the next buffer |
| LiteMii.MiiLite.RejectBuffer | lib_ethernet/src/mii_lite_driver.xc:273-275 | the rejected buffer is the next one |
| LiteMii.MiiLite.FrameEnd | lib_ethernet/src/mii_lite_interrupt.S:92-111 | swap, overrun count, then commit or reject |
| LiteMii.MiiLite.RestartBuffer | lib_ethernet/src/mii_lite_driver.xc:278-300 | does what the restart step does |
| LiteMii.MiiLite.FreeInBuffer | lib_ethernet/src/mii_lite_driver.xc:303-325 | the negated header, the loop and the restart do what the release step does |
| LiteMii.MiiLite.MoveFreePtr | lib_ethernet/src/mii_lite_driver.xc:310-320 | the loop moves the free pointer over released records and the unused tail to the next header in use |
| LiteMii.FreeLoopEnds | lib_ethernet/src/mii_lite_driver.xc:310-320 | for a client that releases in order the loop comes to a positive header |
| MacFilter.KeyOfInjective | lib_ethernet/src/macaddr_filter_hash.c:52-61 | two addresses have the same key only if they are the same |
| MacFilter.DeleteUndoesAdd | lib_ethernet/src/macaddr_filter.xc:8-24 | deleting a client after adding it restores the word exactly if the client had not asked before |
| MacFilter.AddedIs | lib_ethernet/src/macaddr_filter.xc:21-24 | the word after an addition has the bits it had, the client's, and for a high-priority one the priority bit, and no other |
| MacFilter.DeletedIs | lib_ethernet/src/macaddr_filter.xc:82-110 | the word after a deletion of its own priority lacks the client's bit and no other client's, and has the priority bit exactly if it had it and another client remains; a word of the other priority stays as it is |
| MacFilter.DeleteOfAbsent | lib_ethernet/src/macaddr_filter.xc:82-110 | deleting a client that is not in a word changes nothing, except that a priority bit alone is cleared |
| MacTable.FilterFinds | lib_ethernet/src/macaddr_filter.xc:127-151 | the scanning loop returns the one entry of an address, or 0 |
| MacTable.AddRefines | lib_ethernet/src/macaddr_filter.xc:37-79 | adding changes the word of the one address, unless the table is full or the priority differs; exactly then it reports so and changes nothing |
| MacTable.DeleteRefines | lib_ethernet/src/macaddr_filter.xc:82-110 | deleting changes the word of the one address as it should |
| MacTable.AddKeepsData | lib_ethernet/src/macaddr_filter.xc:37-79 | an address that is added for the first time is found with the data given; no other addition changes the data of an address |
| MacTable.DeleteKeepsData | lib_ethernet/src/macaddr_filter.xc:82-110 | a deletion leaves the data of every address that is still found |
| MacTable.FilterTable.AddEntry | lib_ethernet/src/macaddr_filter.xc:37-79 | the two loops on the array add the entry and report the result |
| MacTable.FilterTable.DeleteEntry | lib_ethernet/src/macaddr_filter.xc:82-110 | the loop on the array deletes the client from every match |
| MacTable.FilterTable.DoFiltering | lib_ethernet/src/macaddr_filter.xc:127-151 | the loop returns the word of the address and sets the application data to those of its entry, or leaves them without one |
| MacHash.FindsAll | lib_ethernet/src/macaddr_filter_hash.c:85-111 | in a well-formed table a lookup finds an entry wherever it lies, and no other |
| MacHash.EvictionKeeps | lib_ethernet/src/macaddr_filter_hash.c:142-182 | at every step of the eviction loop table plus carried entry hold what they held; if it gives up, exactly the carried entry is missing |
| MacHash.InsertRefines | lib_ethernet/src/macaddr_filter_hash.c:129-188 | on success the address has its new word, or-ed with the old one unless set, and every other address its own; on failure one entry is missing |
| MacHash.InsertSucceedsIff | lib_ethernet/src/macaddr_filter_hash.c:129-188 | an insertion succeeds at once if the first slot is free or has the address, and otherwise exactly when the walk of evictions from the second slot comes to a free slot or one with the address carried before num_entries + 9 evictions; success alone adds one to num_entries |
| MacHash.PresentNeverFails | lib_ethernet/src/macaddr_filter_hash.c:129-188 | insertion of an address that is present succeeds |
| MacHash.DeleteRefines | lib_ethernet/src/macaddr_filter_hash.c:294-332 | with equal polynomials deletion changes the word of the one address; it reports whether it did anything |
| MacCopies.OccupiedStays | lib_ethernet/src/macaddr_filter_hash.c:142-182 | the eviction loop never empties a slot |
| MacCopies.LoopKeepsCopies | lib_ethernet/src/macaddr_filter_hash.c:142-182 | whatever the eviction loop moves where, the copies of an address stay what they are, and an address that was findable or is inserted is findable on success |
| MacCopies.AdditionTakesEffectIff | lib_ethernet/src/macaddr_filter_hash.c:142-158 | in any table, as long as no address that is not found has a copy, an addition that reports success takes effect exactly when it does not write the first slot while the second holds the address, or adds nothing |
| MacCopies.CoherentAddition | lib_ethernet/src/macaddr_filter_hash.c:129-188 | where the copies of each address agree: an addition fails only for an absent address, changes no other address, and takes effect unless the address lies in both slots |
| MacCopies.AdditionKeepsCoherentIff | lib_ethernet/src/macaddr_filter_hash.c:129-188 | where the copies of each address agree, they still do after an addition exactly when its address had one at most or does not change |
| MacCopies.CoherentDeletion | lib_ethernet/src/macaddr_filter_hash.c:294-332 | where the copies of each address agree: a deletion changes no other address, takes effect unless the address lies in both slots or nothing would change, and leaves the copies in order exactly when the address had one at most or nothing changed |
| MacRefill.RefillFinds | lib_ethernet/src/macaddr_filter_hash.c:190-214 | a refill that returns, after any number of failed passes, gives every address the entry it has in the active table, and all copies agree |
| MacRefill.RefillPolys | lib_ethernet/src/macaddr_filter_hash.c:199-213 | a refill that returns after n passes leaves both polynomials n steps of the generator on; an empty table is refilled in one pass |
| MacRefill.FirstPassIsCuckoo | lib_ethernet/src/macaddr_filter_hash.c:190-214 | a refill that needs one pass leaves a well-formed table |
| MacAgree.AddKeeps | lib_ethernet/src/macaddr_filter_hash.c:257-292 | after an addition, with refills of any number of passes, through a second insertion or a copy, both tables are identical and one address has changed, as it should unless it lay in both slots |
| MacAgree.AddsAtOnce | lib_ethernet/src/macaddr_filter_hash.c:257-292 | an addition needs no refill, and the polynomials stay, if the address is in the table, its first slot is free, or the walk of evictions ends in time |
| MacAgree.DeleteKeeps | lib_ethernet/src/macaddr_filter_hash.c:335-345 | the second deletion makes the tables identical again; one address has changed, as it should unless it lay in both slots; the copies are in order exactly when the address had one at most or nothing changed |
| MacAgree.AddThenDelete | lib_ethernet/src/macaddr_filter_hash.c:257-345 | adding a client to an address and deleting it again restores the words of all other addresses, and that of this one exactly if the client had not asked before |
| MacAgree.ClearKeeps | lib_ethernet/src/macaddr_filter_hash.c:347-354 | clearing leaves two identical tables in which nothing is found |
| MacAgree.AddAgreesIff | lib_ethernet/src/macaddr_filter_hash.c:257-292 | after an addition hash and linear filter agree exactly when nothing would have changed, or the linear table took it just if the address does not lie in both its slots; they agree with all copies in order exactly when the addition is fitting |
| MacAgree.DelAgreesIff | lib_ethernet/src/macaddr_filter_hash.c:335-345 | after a deletion they agree exactly when nothing would have changed or the address does not lie in both its slots; with all copies in order exactly when the deletion is fitting |
| MacAgree.RunAgreesIff | lib_ethernet/src/macaddr_filter_hash.c:257-345 | over every sequence of additions and deletions, with refills of any number of passes, both filters give the same word for every address after each operation, with all copies in order, exactly when each operation names an address with one copy at most or changes nothing, and the linear table takes it or would not change |
| MacAgree.RunAgrees | lib_ethernet/src/macaddr_filter_hash.c:257-345 | after a run both filters give the same word for every address if the linear table takes every operation and none names an address with several copies |
| MacAgree.FirstPassRunsAreTidy | lib_ethernet/src/macaddr_filter_hash.c:190-292 | in a run that the linear table takes and whose refills each succeed in their first pass, no operation names an address with several copies |
| MacAgree.InitAgrees | lib_ethernet/src/macaddr_filter_hash.c:34-38 | two cleared hash tables and an initialised linear table give the same word for every address |
| MacLeftover.AdditionIsLost | lib_ethernet/src/macaddr_filter_hash.c:257-292 | five additions to cleared tables, one of them with a refill whose first pass fails, after which the hash table misses a client that the linear table has |
| MacHashTables.HashTable.ClearTable | lib_ethernet/src/macaddr_filter_hash.c:23-32 | the loop empties every slot and resets the polynomials |
| MacHashTables.HashTable.HashLookup | lib_ethernet/src/macaddr_filter_hash.c:85-111 | returns the word of the address and sets the application data to those of its entry, or leaves them without one |
| MacHashTables.HashFilter.Insert | lib_ethernet/src/macaddr_filter_hash.c:129-188 | the loop on the slots does what the recursive insertion does |
| MacHashTables.HashFilter.RefillBackupTable | lib_ethernet/src/macaddr_filter_hash.c:190-214 | the two loops do what the refill function does |
| MacHashTables.HashFilter.SwapTables | lib_ethernet/src/macaddr_filter_hash.c:216-255 | the tables change places and are made equal if asked to; the waiting flags are part of MacSwap |
| MacHashTables.HashFilter.AddEntry | lib_ethernet/src/macaddr_filter_hash.c:257-292 | the retry loop does what the addition about which agreement is proved does |
| MacHashTables.HashFilter.DeleteOnce | lib_ethernet/src/macaddr_filter_hash.c:294-332 | deletes from the backup table, by the active table's second polynomial |
| MacHashTables.HashFilter.DeleteFilter | lib_ethernet/src/macaddr_filter_hash.c:335-345 | deletes from both tables |
| MacHashTables.HashFilter.ClearFilters | lib_ethernet/src/macaddr_filter_hash.c:347-354 | clears both tables |
| MacSwap.WriterKeeps | lib_ethernet/src/macaddr_filter_hash.c:216-255 | whatever the threads do, the writer's statements keep complete tables where they belong |
| MacSwap.ThreadKeeps | lib_ethernet/src/macaddr_filter_hash.c:74-83 | no step but a thread's own second access makes it unsafe |
| MacSwap.ClearKeepsIff | lib_ethernet/src/macaddr_filter_hash.c:74-83 | a thread's second access leaves it safe exactly when what it fetched is current, or about to be, or the writer has still to flag it |
| MacSwap.ReadersSeeCompleteTables | lib_ethernet/src/macaddr_filter_hash.c:74-83 | over every interleaving of the writer and of both accesses of any number of threads, a thread whose second accesses are in time reads a complete table, from before or after the operation, and the writer never stores into the table it holds |
| MacSwap.BackToBackIsTimely | lib_ethernet/src/macaddr_filter_hash.c:74-83 | a call with nothing between its accesses is in time |
| MacSwap.HarmIff | lib_ethernet/src/macaddr_filter_hash.c:74-83 | after a second access a store into the table held can follow without a further call of the thread, exactly if the access was not in time |
| MacSwap.LateCallIsReached | lib_ethernet/src/macaddr_filter_hash.c:216-232 | from the start a run is possible in which a thread fetches, the writer flips and flags it, and its second access is not in time |
| MacSwap.OnlyActiveFlagged | lib_ethernet/src/macaddr_filter_hash.c:216-232 | over every run the writer waits for active threads only |
| MacSwap.WriterGetsOn | lib_ethernet/src/macaddr_filter_hash.c:216-255 | a writer that has flipped the tables reaches its second part by its own steps and one call of each thread that is active |
| RgmiiBuffers.FreeTakeIs | lib_ethernet/src/rgmii_buffering.xc:64-86 | taking removes one of the available buffers, or there is none |
| RgmiiBuffers.FreeAddIs | lib_ethernet/src/rgmii_buffering.xc:89-108 | adding makes the buffer available and keeps the others |
| RgmiiBuffers.UsedAddIs | lib_ethernet/src/rgmii_buffering.xc:111-133 | adding to a ring that is not full appends the buffer, although the indices wrap at 32 bits |
| RgmiiBuffers.UsedTakeIs | lib_ethernet/src/rgmii_buffering.xc:136-157 | taking removes the oldest buffer |
| RxClients.OfferAllQueues | lib_ethernet/src/rgmii_buffering.xc:276-314 | a packet is queued behind the others of every client that wants it and has room, and for no other |
| RxClients.OfferAllRefs | lib_ethernet/src/rgmii_buffering.xc:276-314 | the loop counts exactly the references it makes |
| RxClients.OfferAllDrops | lib_ethernet/src/rgmii_buffering.xc:296-312 | a packet is counted as dropped for exactly the clients that want it and have no room |
| RxClients.OfferToAll | lib_ethernet/src/rgmii_buffering.xc:276-314 | the loop over the clients, as both receive servers have it |
| RgmiiRx.StepsInBounds | lib_ethernet/src/rgmii_buffering.xc:64-343 | no enabled step overflows the stack, overwrites a ring entry or indexes a wrong count |
| RgmiiRx.StepKeeps | lib_ethernet/src/rgmii_buffering.xc:194-343 | every step keeps each buffer in exactly one place, and a shared one referenced tcount + 1 times |
| RgmiiRx.InitInv | lib_ethernet/src/rgmii_buffering.xc:203-207 | when the managers have issued their first buffers, each buffer is in exactly one place |
| RgmiiRx.EveryRunConserves | lib_ethernet/src/rgmii_buffering.xc:64-343 | over every interleaving of a session nothing is lost, freed twice or written out of bounds |
| RgmiiRx.RingsAreFifo | lib_ethernet/src/rgmii_buffering.xc:214-323 | over every interleaving low-priority buffers are dispatched, and high-priority ones sent on, in the order in which they were routed to the rings, each once |
| RgmiiRx.DriversAreFifo | lib_ethernet/src/rgmii_buffering.xc:203-246 | over every interleaving a driver fills the buffers it was issued in the order of their issue; a filled buffer is looked up and routed exactly when a fresh one was free, and is the one issued again otherwise |
| RgmiiRx.FramesGoOnward | lib_ethernet/src/rgmii_buffering.xc:203-323 | from the start of a session the buffers of the frames that were received while a fresh one was free and given a verdict are, in order, those dispatched or sent on with that verdict and those that wait in the ring |
| RgmiiRx.ClientsAreFifo | lib_ethernet/src/rgmii_buffering.xc:276-460 | over every interleaving each client is given, or loses to a drop, in order exactly the buffers that were dispatched, wanted by it and met with room; its drop counter rises by the number that met with none |
| RgmiiServer.BuffersFree.Take | lib_ethernet/src/rgmii_buffering.xc:64-86 | takes the top buffer off the stack in its array, or none |
| RgmiiServer.BuffersFree.Add | lib_ethernet/src/rgmii_buffering.xc:89-108 | puts a buffer on the stack in its array |
| RgmiiServer.BuffersUsed.Add | lib_ethernet/src/rgmii_buffering.xc:111-133 | puts a buffer behind the others of the ring in its array |
| RgmiiServer.BuffersUsed.Take | lib_ethernet/src/rgmii_buffering.xc:136-157 | takes the oldest buffer of the ring in its array |
| RgmiiServer.RxServer.constructor | lib_ethernet/src/rgmii_buffering.xc:203-207 | full stack, empty rings, two buffers for each driver |
| RgmiiServer.RxServer.ReceiveFrame | lib_ethernet/src/rgmii_buffering.xc:214-246 | takes a fresh buffer and routes the received one, or reuses it |
| RgmiiServer.RxServer.HandleIncomingPacket | lib_ethernet/src/rgmii_buffering.xc:263-323 | dispatches the oldest low-priority buffer or releases it |
| RgmiiServer.RxServer.PopPacket | lib_ethernet/src/rgmii_buffering.xc:443-460 | takes one reference and releases the buffer with the last one |
| RgmiiServer.RxServer.DropLpPackets | lib_ethernet/src/rgmii_buffering.xc:325-343 | every client loses its oldest packet and nothing else |
| RgmiiTx.CaseInBounds | lib_ethernet/src/rgmii_buffering.xc:566-649 | no case of the select writes outside an array |
| RgmiiTx.CaseKeeps | lib_ethernet/src/rgmii_buffering.xc:566-649 | every case keeps each buffer of either priority in one place and the counters exact |
| RgmiiTx.SendKeepsAll | lib_ethernet/src/rgmii_buffering.xc:666-705 | sending keeps the partition and at most two buffers at the MAC; with work and a place something is sent unless the shaper holds all of it |
| RgmiiTx.StageHpKeeps | lib_ethernet/src/rgmii_buffering.xc:707-710 | staging a high-priority buffer keeps the partition |
| RgmiiTx.StageLpKeeps | lib_ethernet/src/rgmii_buffering.xc:712-716 | staging buffers for the clients keeps the partition |
| RgmiiTx.EveryTurnConserves | lib_ethernet/src/rgmii_buffering.xc:555-717 | over every session work_pending is the number of queued buffers, sender_count that at the MAC and at most 2, and each buffer is in exactly one place |
| RgmiiTx.SentInOrder | lib_ethernet/src/rgmii_buffering.xc:555-717 | over every session the buffers of each priority reach the MAC in the order in which they were completed, each once |
| RgmiiTx.SendPicks | lib_ethernet/src/rgmii_buffering.xc:666-705 | with work and a place at the MAC, the oldest queued high-priority buffer is sent exactly when there is one and the shaper lets it go, the oldest low-priority one exactly when there is one and no high-priority one may go; otherwise nothing is |
| RgmiiTx.PriorityIsKept | lib_ethernet/src/rgmii_buffering.xc:555-717 | over every session no low-priority buffer goes to the MAC while a high-priority one waits that the shaper lets go |
| RgmiiTx.StageServes | lib_ethernet/src/rgmii_buffering.xc:712-716 | the clients that ask get a buffer each, the first ones first, as long as there are free ones; the others are left alone |
| RgmiiTx.TurnServes | lib_ethernet/src/rgmii_buffering.xc:566-716 | a client that asks has a buffer after the turn, unless none is free, and keeps it until it completes its packet, when buffer and request are cleared; a high-priority buffer is staged unless none is free |
| RgmiiTxServer.TxServer.RequestBuffer | lib_ethernet/src/rgmii_buffering.xc:567-571 | the request is recorded |
| RgmiiTxServer.TxServer.CompleteSend | lib_ethernet/src/rgmii_buffering.xc:582-608 | the client's buffer is marked low priority and queued |
| RgmiiTxServer.TxServer.CompleteSendHp | lib_ethernet/src/rgmii_buffering.xc:610-622 | the staged buffer is marked high priority and queued, and another one staged |
| RgmiiTxServer.TxServer.AcknowledgeSent | lib_ethernet/src/rgmii_buffering.xc:624-641 | the returned buffer goes to the pool its mark names |
| RgmiiTxServer.TxServer.SendNext | lib_ethernet/src/rgmii_buffering.xc:666-705 | sends the oldest buffer of the chosen priority |
| RgmiiTxServer.TxServer.StageBuffers | lib_ethernet/src/rgmii_buffering.xc:707-716 | stages what is missing |
| Shaper.LoopsAgree | lib_ethernet/src/mii_master.xc:493-541 | the MII loop shapes like the RGMII loop with a MAC that has a place |
| Shaper.SendsIff | lib_ethernet/src/rgmii_buffering.xc:651-705 | a queued packet with a place is sent exactly when the sum of credit and slope times elapsed, wrapped to 32 bits, is zero or more, and by the sum itself when it fits; 2^19 is charged for each of its bytes and 24 more; a positive credit is forfeited exactly when nothing is queued |
| Shaper.CostIs | lib_ethernet/src/rgmii_buffering.xc:697-703 | the shifted cost of a frame does not overflow and grows with the frame |
| Shaper.AccruedIsExactIff | lib_ethernet/src/rgmii_buffering.xc:652-656 | the accrued credit is exact exactly when the sum fits 32 bits |
| Shaper.ExactUpTo | lib_ethernet/src/rgmii_buffering.xc:652-656 | the accrued credit is exact up to a number of ticks that the slope and the credit give, and not beyond |
| Shaper.DefaultSlopeOverflows | lib_ethernet/src/server_state.xc:11 | for the slope a port starts with and credit 0 that number is 2978; after 2979 to 5957 ticks the credit is negative and a queued packet is held back |
| Shaper.CreditBalances | lib_ethernet/src/rgmii_buffering.xc:651-705 | over every run credit is start plus earned minus sent minus forfeited, minus the range of a machine word for every time a sum went round; none did exactly if every sum fits |
| Shaper.FloorKeptIff | lib_ethernet/src/rgmii_buffering.xc:651-705 | a turn leaves the credit at minus one maximal frame or above exactly when the sum it accrues, wrapped to 32 bits, is not below that |
| Shaper.FloorKept | lib_ethernet/src/rgmii_buffering.xc:651-705 | a run in which every sum fits 32 bits never takes the credit below minus one maximal frame |
| Shaper.DefaultSlopeBreaksFloor | lib_ethernet/src/server_state.xc:11 | with the slope a port starts with 2979 ticks from credit 0 take the credit below minus one maximal frame |
| Shaper.ShaperBound | lib_ethernet/src/rgmii_buffering.xc:651-705 | over every run, overflowing or not, the cost sent between any two moments is at most slope times elapsed plus starting credit plus one maximal frame (section 8.6.8.2 of IEEE 802.1Q), and at most slope times elapsed from a credit below minus that frame |
| Shaper.EarnedIsSlopeTimesTime | lib_ethernet/src/rgmii_buffering.xc:652-656 | for a constant slope what is earned is slope times elapsed time, although the timer wraps |
| Shaper.Credit.OneTurnRgmii | lib_ethernet/src/rgmii_buffering.xc:651-705 | one turn of the RGMII loop |
| Shaper.Credit.OneTurnMii | lib_ethernet/src/mii_master.xc:493-541 | one turn of the MII loop |
| MiiQueue.MoveIs | lib_ethernet/src/mii_buffering.c:218-239 | the loop comes to the next live packet or to the write index |
| MiiQueue.FreeIndexIs | lib_ethernet/src/mii_buffering.c:190-203 | freeing in any order leaves rd_index at the oldest live packet or at wr_index, and live pointers between them only |
| MiiQueue.AddIs | lib_ethernet/src/mii_buffering.c:175-182 | a packet goes behind the others unless all 32 slots are taken |
| MiiQueue.ArriveKeeps | lib_ethernet/src/mii_filter.xc:128-134 | the full test is true exactly with 32 slots taken; an added packet disturbs no other |
| MiiQueue.NextBufIs | lib_ethernet/src/mii_buffering.c:247-259 | the server finds the first packet it has not dispatched, unless there is none or the queue is full |
| MiiQueue.DispatchKeeps | lib_ethernet/src/mii_ethernet_rt_mac.xc:44-108 | the packet is dispatched once, referenced tcount + 1 times, or freed when no client takes it |
| MiiQueue.PopKeeps | lib_ethernet/src/mii_ethernet_rt_mac.xc:251-304 | a client's oldest slot is live; its reference goes, and the slot is freed exactly with its last reference |
| MiiQueue.RunDispatchesInOrder | lib_ethernet/src/mii_ethernet_rt_mac.xc:44-135 | over every interleaving packets are dispatched once each, in the order they were added |
| MiiQueue.ClientsAreFifo | lib_ethernet/src/mii_ethernet_rt_mac.xc:44-304 | over every interleaving each client is given, or loses to a drop, in order exactly the packets that were dispatched, wanted by it and met with room; its drop counter rises by the number that met with none |
| MiiQueue.InitInv | lib_ethernet/src/mii_buffering.c:55-61 | an initialised queue is empty |
| MiiQueue.FullIsStuckIff | lib_ethernet/src/mii_buffering.c:251-256 | a full queue can never move again exactly when its oldest packet has not been dispatched |
| MiiQueue.ThirtyTwoArrivalsStop | lib_ethernet/src/mii_buffering.c:247-259 | after any 32 packets that arrive in a row from the start the queue is full and no call changes it any more |
| MiiQueueServer.PacketQueue.constructor | lib_ethernet/src/mii_buffering.c:55-61 | every pointer null, both indices 0 |
| MiiQueueServer.PacketQueue.IsFull | lib_ethernet/src/mii_buffering.c:97-107 | full when the slot at the write index is taken |
| MiiQueueServer.PacketQueue.AddPacket | lib_ethernet/src/mii_buffering.c:175-182 | the queue with the packet behind the others |
| MiiQueueServer.PacketQueue.MoveMyRdIndex | lib_ethernet/src/mii_buffering.c:218-239 | the loop ends, at the next live slot or the write index |
| MiiQueueServer.PacketQueue.FreeIndex | lib_ethernet/src/mii_buffering.c:190-203 | the read index moves before the pointer is cleared |
| MiiQueueServer.PacketQueue.GetMyNextBuf | lib_ethernet/src/mii_buffering.c:247-259 | null when the indices meet, else the pointer |
| MiiQueueServer.LpServer.Add | lib_ethernet/src/mii_filter.xc:128-134 | the packet joins the stream or is dropped |
| MiiQueueServer.LpServer.HandleIncomingPacket | lib_ethernet/src/mii_ethernet_rt_mac.xc:44-108 | one packet dispatched and the cursor moved |
| MiiQueueServer.LpServer.GetAndDecTransmitCount | lib_ethernet/src/mii_buffering.c:281-304 | the old count; it falls by one unless it was 0 |
| MiiQueueServer.LpServer.TakePacket | lib_ethernet/src/mii_ethernet_rt_mac.xc:265-304 | one reference taken, the slot freed with the last |
| MiiQueueServer.LpServer.DropLpPackets | lib_ethernet/src/mii_ethernet_rt_mac.xc:110-132 | every client loses its oldest packet |
| MiiMemory.CommitAdvances | lib_ethernet/src/mii_buffering.c:161-173 | a commit moves the write pointer by the packet and at most 13 skipped words, so a header and four words of data never wrap; words are skipped only where fewer than 14 are left |
| MiiMemory.BigEnoughIff | lib_ethernet/src/mii_buffering.c:63-86 | a block is large enough for a frame, wherever it starts, exactly when it holds the packet and 14 words more |
| MiiMemory.ReadBack | lib_ethernet/src/mii_ethernet_rt_mac.xc:490-501 | bytes copied in one or two pieces round the end of the block are read back |
| MiiPool.StoreHolds | lib_ethernet/src/mii_ethernet_rt_mac.xc:486-504 | header and data of a completed packet are in memory, at every legal start and any split |
| MiiPool.StoreKeeps | lib_ethernet/src/mii_ethernet_rt_mac.xc:486-504 | a packet that lies clear of what is written keeps header and data |
| MiiPool.SentCarries | lib_ethernet/src/mii_master.xc:373-450 | the bytes sent begin with the frame given and are the frame exactly when it has eight bytes or more; shorter ones are sent as 8 bytes and the remainder of their length by 4 |
| MiiPool.ReserveKeeps | lib_ethernet/src/mii_buffering.c:115-136 | what is granted keeps clear of every packet that waits, with a word to spare |
| MiiPool.ReserveGrantsIff | lib_ethernet/src/mii_buffering.c:115-136 | with a request, no buffer held and a slot in the queue, a buffer is granted, at the write pointer, exactly when no packet waits or the free bytes from the write pointer round to the oldest packet reach the size asked for plus 1568; otherwise nothing changes |
| MiiPool.RequestThenReserve | lib_ethernet/src/mii_ethernet_rt_mac.xc:438-441 | a client without a buffer is granted one for the size it asked for last, exactly when that is not 0 and fits |
| MiiPool.IdlePoolSends | lib_ethernet/src/mii_ethernet_rt_mac.xc:438-513 | with nothing waiting every request for a frame is granted, and the frame goes out with the next send |
| MiiPool.Disjoint | lib_ethernet/src/mii_buffering.c:115-173 | waiting packets and the reservation share no word, and the write pointer is never at a waiting packet |
| MiiPool.CompleteKeeps | lib_ethernet/src/mii_ethernet_rt_mac.xc:480-513 | a completed packet is placed behind the others and the others stay whole |
| MiiPool.FreeKeeps | lib_ethernet/src/mii_master.xc:505-556 | what is sent carries the oldest frame, and freeing it keeps the others |
| MiiPool.RunSendsWhatItIsGiven | lib_ethernet/src/mii_ethernet_rt_mac.xc:480-549 | over every run of requests, reservations, completions and sends the frames go out once each, in order, byte for byte |
| MiiPool.StartInv | lib_ethernet/src/mii_buffering.c:63-86 | a block of 404 words or more starts as an empty pool |
| MiiTxPool.TxPool.constructor | lib_ethernet/src/mii_buffering.c:63-86 | the initialised pool and its empty queue |
| MiiTxPool.TxPool.InitSendPacket | lib_ethernet/src/mii_ethernet_rt_mac.xc:438-441 | the size is recorded unless a buffer is held |
| MiiTxPool.TxPool.ReserveAtLeast | lib_ethernet/src/mii_buffering.c:115-136 | the space test, with a full circle when the pointers meet |
| MiiTxPool.TxPool.Reserve | lib_ethernet/src/mii_ethernet_rt_mac.xc:30-42 | reserves for the client unless the queue is full |
| MiiTxPool.TxPool.CopyAround | lib_ethernet/src/mii_ethernet_rt_mac.xc:489-501 | the two copies write the data round the end and nothing else |
| MiiTxPool.TxPool.CompleteSendPacket | lib_ethernet/src/mii_ethernet_rt_mac.xc:480-513 | copy, length, commit, queue |
| MiiTxPool.TxPool.TransmitPacket | lib_ethernet/src/mii_master.xc:373-385 | sends the bytes behind the packet's header, as many as its length says and eight at least |
| MiiTxPool.TxPool.SendData | lib_ethernet/src/mii_master.xc:398-450 | first word, word loop with its wrap, tail bytes: the bytes behind one another round the end |
| MiiTxPool.TxPool.SendOldest | lib_ethernet/src/mii_master.xc:514-556 | sends the oldest packet, if any, and frees it |
| Icmp.FoldIs | examples/AN00199_gigabit_ethernet_demo_explorerkit/src/icmp.xc:20-24 | folding the carries keeps the value modulo 65535 and tells zero from 65535 |
| Icmp.ByteOrder | examples/AN00199_gigabit_ethernet_demo_explorerkit/src/icmp.xc:15-18 | sums of little-endian loads show validity as well as sums of the fields (section 2 (B) of RFC 1071) |
| Icmp.ChecksumIpIs | examples/AN00199_gigabit_ethernet_demo_explorerkit/src/icmp.xc:10-29 | the result is 0 exactly on a valid header (section 3.1 of RFC 791) |
| Icmp.GetChecksumIp | examples/AN00199_gigabit_ethernet_demo_explorerkit/src/icmp.xc:10-29 | the loops compute the checksum |
| Icmp.AnsweredIff | examples/AN00199_gigabit_ethernet_demo_explorerkit/src/icmp.xc:121-239 | in buffers of 1518 bytes an accepted packet is answered without leaving them exactly when it states 1504 bytes at most, which above 60 bytes it does |
| Icmp.AnswerIsValidIff | examples/AN00199_gigabit_ethernet_demo_explorerkit/src/icmp.xc:121-239 | for every packet that is answered: the length of the answer, when its header has checksum 0, and that its ICMP checksum is valid exactly when the request's was |
| Icmp.RespondsIff | examples/AN00199_gigabit_ethernet_demo_explorerkit/src/icmp.xc:197-239 | a packet is not ignored exactly if it has type 0x0800, a header of 20 bytes with a valid checksum, protocol 1, this address, ICMP type 8 and code 0, and, above 60 bytes, the length it states |
| Icmp.AnswerFields | examples/AN00199_gigabit_ethernet_demo_explorerkit/src/icmp.xc:121-194 | an answer to a packet that states 28 bytes or more, byte by byte: to the sender's MAC address from this one, type 0x0800, version and header length 0x45, the request's total length, TTL 64, protocol 1, IP addresses exchanged, ICMP type 0 and code 0, identifier, sequence number and data of the request, zeros behind them up to 64 bytes |
| Icmp.ReplyHeaderValidIff | examples/AN00199_gigabit_ethernet_demo_explorerkit/src/icmp.xc:121-194 | a reply's header has checksum 0 for every request that states 20 bytes or more, and otherwise exactly when the bytes cut off sum to nothing |
| Icmp.LongTotalLength | examples/AN00199_gigabit_ethernet_demo_explorerkit/src/icmp.xc:149-152 | an accepted packet that states 65535 bytes, for which the copy leaves the buffers |
| Icmp.ShortTotalLength | examples/AN00199_gigabit_ethernet_demo_explorerkit/src/icmp.xc:189-193 | an accepted request whose reply has a bad header |
| Icmp.ReplyIcmpValidIff | examples/AN00199_gigabit_ethernet_demo_explorerkit/src/icmp.xc:174-180 | the reply's ICMP checksum is valid exactly when the request's was, at any length (section 3 of RFC 1624) |
| Icmp.IsValidIcmpPacket | examples/AN00199_gigabit_ethernet_demo_explorerkit/src/icmp.xc:197-239 | accepts exactly the echo requests to this address with a valid header and, above 60 bytes, a consistent length |
| Icmp.BuildFields | examples/AN00199_gigabit_ethernet_demo_explorerkit/src/icmp.xc:133-187 | the fields of the reply, in place; the loop over the data stays inside exactly when the stated length does |
| Icmp.BuildIcmpResponse | examples/AN00199_gigabit_ethernet_demo_explorerkit/src/icmp.xc:121-194 | the buffer holds the reply, cut at the stated length and filled to 64 bytes, and is unchanged behind it; or the copy left the buffers |
| Icmp.Serve | examples/AN00199_gigabit_ethernet_demo_explorerkit/src/icmp.xc:268-293 | a packet is ignored, answered or leaves the buffers as acceptance and its stated length decide |

## Left out

Hypotheses of the theorems:

- LiteRuns.RunIsFifoIff: the client releases packets in the order it took them, and frames have at most 1518 bytes. `mii_ethernet_mac.xc:282-286` releases out of order and is outside.
- LiteMii.MiiLite.FreeInBuffer: entered only where the loop ends, which FreeLoopEnds proves for release in order.
- MacAgree.RunAgreesIff: no address 0, client numbers below 31, and a hash table that gets through the run's refills. Where the linear table's assertion fails for a second priority, the model leaves that table unchanged. The application data word is not part of the claim of agreement. What the filters give after an operation that is not fitting is said for that operation only.
- MacHashTables.HashFilter.AddEntry: entered only where the retry loops end, which depends on the concrete hash function; the hash is an arbitrary function into 0 to 255.
- MacHashTables.HashFilter.SwapTables: the waiting flags and the wait for the threads are steps of MacSwap, not statements of this method.
- MacSwap.ReadersSeeCompleteTables: the get-out after 100 retries is not taken.
- RgmiiRx.EveryRunConserves: one session between speed changes, starting with empty client queues.
- RgmiiTx.EveryTurnConserves: one session, and the MAC returns only buffers it was sent.
- Shaper.ShaperBound: slopes are not negative and two turns of the loop are less than half the timer's range (about 21 seconds) apart.
- MiiPool.RunSendsWhatItIsGiven: one client, a block of at least 404 words, and frames no longer than was requested, as send_packet does it.

Simplifications:

- The step functions give the free loop of the MII driver at most k turns; the theorems hold for every k from 2 on and say that the loop has ended by itself.
- Retry loops of the hash table take ghost bounds in the same way.
- Every call of one thread is one step; races inside a call are modelled only for the table swap.
- A packet that takes build_icmp_response out of its buffers is a result of its own; what happens to the memory behind them is not modelled.
- The memory of the MII driver is a map from addresses to words, its bank pointers are records, and the 32 bits of read_bank are a sequence.
- Result words of the filters are sets of bits. The CRC check is a length of 0 for a bad frame.
- RgmiiTxServer keeps its two pools as values rather than as arrays; RgmiiServer has the arrays.
- prioritize_ack and prioritize_rx only delay cases that the models may take at any time; they are not modelled.
- Ethertype filters and the filter result together are one flag for each client; VLAN stripping, time stamps, latency correction and link-status notifications are not modelled.
- Of a transmit packet's header only the length is in memory; the transmit count of a sent packet is always 0.
- The transmit count of a received packet is kept beside its slot.

Not modelled:

- mii_reserve with the shared read pointer: it rests on a stale pointer and an assumption on traffic (`mii_buffering.c:266-268`).
- Several low-priority clients reserving transmit memory at once: `mii_ethernet_rt_mac.xc:30-42` can give them the same address.
- The high-priority receive path of the MII MAC, which has the same queue with one consumer.
- ARP replies of the ICMP example, del_all_macaddr_filters, ethernet_clear_filter_table, and all pin and assembly drivers but the interrupt handler's decision.
