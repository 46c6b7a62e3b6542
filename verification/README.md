# Verification of the Bluetooth Mesh gateway

The firmware connects a Bluetooth Mesh network to the cloud. Its own logic lies in a handful of
hand-written tables and protocols: a sorted beacon table with a pool of one-shot timers and a
deferred removal pass, a block list, the life of application keys on remote nodes over a lossy
link, two walkers over composition data of which one builds a heap structure, a provisioning
permit that travels between four contexts, a request queue that carries memory, subscription
tables, sorted listings, and hexadecimal and access-message codecs. This project models them and
proves what they keep. `dafny verify dfyconfig.toml` checks it.

## How the model is laid out

| file | what it holds |
|---|---|
| Util.dfy | UUID and key bytes, their text and their order |
| SortedTable.dfy | the UUID-ordered table shared by the beacon list and the block list, with its in-place loops |
| Beacons.dfy | beacon list, timers, removal pass and block list as one state machine, and the theorems over its runs |
| BeaconTable.dfy | the arrays and tails, each operation proved to be a step of that machine |
| Composition.dfy | Composition Data Page 0: encoding, parsing, the pull buffer |
| KeyLifecycle.dfy | remote node, lossy link, retries, bind, unbind and key collection, and the theorems about safety |
| KeyExactness.dfy | when the stored keys are exactly the bound ones, and runs that go wrong |
| KeyGateway.dfy | the loops of the same operations over the byte buffer, proved to compute those functions |
| Discovery.dfy, NodeDiscovery.dfy | the heap structure discovery builds, who owns it, and how every exit frees it |
| Permit.dfy | the provisioning semaphore as an interleaved step system |
| Queue.dfy | ownership of JSON trees, payload copies and queue items |
| Subscriptions.dfy | subscription slots and message delivery |
| Listing.dfy | successive-minimum listings and the lowest free index |
| AccessMessage.dfy | access opcodes and payloads, and the payload argument |
| Counting.dfy | the pigeonhole principle |

Static tables that the C code changes in place are arrays or fields of classes; their methods are
proved equal to a step function, and whole runs are reasoned about on the step functions. Code
that runs in several contexts (`Permit`, `Queue`, and the events of `Beacons`) is a system of
steps in which every interleaving is a run. Table sizes are arbitrary.

Conventions of the model:

- A UUID is represented by the number its sixteen bytes denote, most significant first.
  `Util.UuidsAreByteStrings` shows that this loses nothing and that `memcmp` is the order of the
  numbers.
- A kernel timer is a running flag, an expiry count that is cleared when it is read or when the
  timer is started, and the user data pointer; starting it is counted. When it expires is left to
  the environment. A work item submitted while it runs is run again.
- The block list array has one cell more than the list: `btmesh_unblock_beacon` copies the slot at
  the tail as well, which for a full list lies behind the array.
- The remote node is permissive: it binds keys it does not store and deletes keys that are still
  bound. It refuses models it does not have, and, as the environment chooses, any other request;
  a refused model query answers with an empty list. Each attempt may get lost before or after it
  takes effect. The number of elements on record for a node is that of its composition data.
- Composition data is received into a buffer of 64 bytes and what does not fit is lost. Pulling
  more bytes than the buffer has left fails an assertion (`CONFIG_ASSERT=y`); this is the outcome
  `Overrun`. It and `NullKey` are crashes: a run goes on when the gateway has started again.
- Allocations fail as the environment chooses in `NodeDiscovery`; in `Queue` only the allocation
  in the cloud handler may fail. Block names are never reused, so freeing a block twice is
  visible.
- `util_str2` hands two characters without a terminator to `strtoul`. What lies behind them in
  memory, possibly something else for each byte, is a parameter of the reader. `unsigned long` has
  32 bits.

What the code does that one might not expect, stated as theorems:

- A full beacon table does not refresh the beacons it lists (`Beacons.RefreshedIff`,
  `Beacons.HeardAgainSurvivesIff`; reached in `Beacons.FullTableIsReached`). Unblocking reads
  behind a full block list (`BeaconTable.Table.UnblockUuid`).
- The key collector ignores the status of model queries (`KeyLifecycle.CleanKeepsSafeIff`; a bound
  key is deleted in `KeyExactness.LosesKeyIsReached`) and of the deletion
  (`KeyLifecycle.DoneMeansDeletedIff`; `KeyExactness.RefusedDeletionIsReached`). It looks up the key
  without checking that it exists, and reads composition data that does not fit its buffer
  (`KeyExactness.CleanDeletesIffUnused`; `KeyExactness.FirstUnbindCrashes`), and then leaves unused
  keys behind (`KeyExactness.UnbindKeepsExactIff`).
- Binding a key to a model the node does not have leaves the key on the node unused
  (`KeyExactness.BindKeepsExactIff`; `KeyExactness.AbsentModelLeavesKey`).
- Discovery reads the same buffer to its end (`NodeDiscovery.Discoverer.DiscoverAndFree`), and
  queries the vendor models of an element without SIG models at another element's address
  (`Discovery.VendorAddrIsOwnIff`).
- A take that times out gives back a permit it never had (`Permit.TimedOutTakeGivesForeignPermit`),
  as does a late node-added event (`Permit.StaleNodeAddedGivesForeignPermit`), and a request that
  waits while the reply to the one before it is queued can never get the permit
  (`Permit.SelfBlockedStays`). Runs from power-on reach all three.
- Re-subscribing past a hole stores an address twice (`Subscriptions.SubscribeKeepsSingleIff`;
  `Subscriptions.DuplicateIsReached`).
- The odd leading digit of a payload argument is dropped (`AccessMessage.LeadingDigitIsKeptIff`).
  Reading a valid key or UUID goes wrong when a digit lies behind the two characters that are read
  (`Util.BytesRoundTripIff`, `Util.TextRoundTripIff`).

## Model

| member | source | states |
|---|---|---|
| Beacons.EveryRunIsSound | src/btmesh.c:653-757 | in every interleaving of beacons, expiries, partial passes and blocking: the list is strictly ordered, timers in use are exactly those of listed beacons and pairwise distinct, a table with room has a free timer, a listed beacon's timer runs or has expired, and an expired one will still be visited (no lost expiry) |
| Beacons.FreeTimerExists | src/btmesh.c:745-750 | by pigeonhole the unbounded scan for a free timer stops inside the pool when the list is not full |
| Beacons.StepKeepsInv | src/btmesh.c:653-757 | every single step keeps the whole invariant |
| Beacons.HearingListsBeacon | src/btmesh.c:718-756 | a new, unblocked beacon with room is listed with its data and a running timer nobody had, and nothing else changes |
| Beacons.RefreshedIff | src/btmesh.c:698-716 | hearing a listed beacon restarts its timer if and only if the table is not full and the beacon not blocked |
| Beacons.HeardAgainSurvivesIff | src/btmesh.c:653-716 | an expired beacon heard again before the pass reaches it survives the pass if and only if the table has room and the beacon is not blocked |
| Beacons.FullTableIsReached | src/btmesh.c:653-757 | a full table with an expired beacon ahead of the pass occurs three events after power-on |
| Beacons.PassRemovesExpired | src/btmesh.c:653-691 | however a pass is interleaved with other events, an expired beacon ahead of it that is not heard again is unlisted when the pass is over |
| Beacons.ExpiryIsNoticed | src/btmesh.c:687-691 | when the timer of a listed beacon runs out, that beacon and no other becomes due, and the removal work is queued, whether or not it was queued before |
| Beacons.ExpiredBeaconLeaves | src/btmesh.c:653-691 | a beacon whose timer runs out and that is not heard again is unlisted when the next pass that starts is over, whatever else happens before and during the pass |
| Beacons.OnlyExpiredLeave | src/btmesh.c:661-681 | in no interleaving does a beacon leave the list but by a visit that finds its timer expired |
| Beacons.PassIsStableFilter | src/btmesh.c:653-683 | an undisturbed pass keeps exactly the unexpired entries in their order, in one turn for each entry and one for the tail |
| Beacons.BlockedRunsOut | src/btmesh.c:703-716 | while a UUID stays blocked it is never listed anew, and an old listing keeps its timer, which is never restarted |
| Beacons.BlockListRefinesSet | src/btmesh.c:578-637 | blocking and unblocking act on the set of UUIDs, with the error codes for full, already blocked and not blocked |
| Beacons.BlockListIsCanonical | src/btmesh.c:592-608 | two histories that leave the same blocked set leave the same array prefix |
| Beacons.UnblockUndoesBlock | src/btmesh.c:578-637 | unblocking a UUID just blocked restores the list exactly |
| BeaconTable.Table.constructor | src/btmesh.c:1921-1925 | initialisation yields the initial state of the machine |
| BeaconTable.Table.Recv | src/btmesh.c:693-757 | the in-place code is the receive step |
| BeaconTable.Table.AddBeacon | src/btmesh.c:721-756 | shifting, allocation of a timer and start amount to listing the beacon on the first free timer |
| BeaconTable.Table.FindFreeTimer | src/btmesh.c:745-750 | the loop without a bound returns the first timer without user data |
| BeaconTable.Table.TimerExpires | src/btmesh.c:687-691 | the handler is the step of the expiry, of which `Beacons.ExpiryIsNoticed` says that it is never ignored |
| BeaconTable.Table.VisitOne | src/btmesh.c:661-681 | one turn of the removal loop is the visit step |
| BeaconTable.Table.CloseGap | src/btmesh.c:666-674 | the nested shift removes one slot and keeps the others in order |
| BeaconTable.Table.RemoveInactive | src/btmesh.c:653-683 | the undisturbed work handler leaves the unexpired entries |
| BeaconTable.Table.BlockUuid | src/btmesh.c:578-611 | the in-place code is the block step, with its code |
| BeaconTable.Table.UnblockUuid | src/btmesh.c:613-637 | the search that turns into a shift is the unblock step, with its code; it reads behind the array if and only if the list is full and holds the UUID |
| BeaconTable.Table.IsBlocked | src/btmesh.c:554-567 | membership in the blocked set |
| BeaconTable.Table.BeaconText | src/btmesh.c:759-766 | the text of the UUID in the slot, or NULL past the tail |
| SortedTable.ShiftInsert | src/btmesh.c:718-736 | the shift from the tail inserts at the sorted position |
| SortedTable.ShiftOver | src/btmesh.c:617-631 | the scan that turns into a shift at the UUID it looks for removes exactly that slot, and changes nothing when the UUID is not there; it reads one slot behind the tail exactly when it is there |
| SortedTable.InsertKeepsOrder | src/btmesh.c:592-608 | insertion keeps the strict order |
| SortedTable.SortedIsCanonical | src/btmesh.c:592-608 | sorted tables with the same UUIDs are equal slot by slot |
| SortedTable.SortedByText | src/btmesh.c:592-594 | tables in byte order are in the order of their stored strings |
| Util.MemCmpIsRankOrder | src/util.c:40-43 | `memcmp` orders byte strings as the numbers they denote |
| Util.UuidsAreByteStrings | src/util.c:40-43 | byte strings of sixteen bytes and UUID numbers correspond one to one, with the same order |
| Util.BytesRoundTripIff | src/util.c:45-80 | bytes to text to bytes is the identity on all keys and UUIDs if and only if no hexadecimal digit ever lies behind the unterminated array handed to `strtoul` |
| Util.TextRoundTripIff | src/util.c:10-80 | text to bytes to text is lower-casing on all valid texts if and only if no hexadecimal digit ever lies behind that array, and never on a text that is not valid |
| Util.PrintedTextIsValid | src/util.c:57-80 | printed text passes the validity check |
| Util.TextOrderIsByteOrder | src/util.c:40-80 | comparing bytes and comparing printed strings agree |
| Util.ToText | src/util.c:57-80 | the loop prints two digits for each byte and the terminator |
| Util.ToBytes | src/util.c:45-55 | the loop reads every pair of characters, and what lies behind them, as `strtoul` does: blanks, sign, prefix, digits until the first other character, saturation |
| Util.ReadAnyPair | src/util.c:48-53 | what two characters with a terminator read as, digits or not |
| Util.LongNumbersSaturate | src/util.c:48-53 | with seven more digits behind the array any pair but one that starts with 0 reads as 0xFF |
| Util.PrefixIsSkipped | src/util.c:48-53 | "0x" reads as the number that lies behind the array |
| Util.IsValid | src/util.c:10-33 | accepts exactly the strings of 32 hexadecimal digits |
| Composition.ParseUndoesEncode | src/btmesh.c:1453-1520 | parsing the encoding of any element list returns it, with the cursor at its end |
| Composition.EncodeUndoesParse | src/btmesh.c:1722-1840 | whatever parses is the encoding of what was read |
| Composition.CutNeverParses | src/btmesh.c:1453-1520 | a prefix of an encoding parses if and only if it is the whole |
| Composition.AddressesCount | src/btmesh.c:1724-1765 | element addresses count up from the node's address, and 0 follows 0xFFFF |
| Composition.ElementBytes | src/btmesh.c:1725-1727 | location, least significant byte first, then the two numbers of models, then their identifiers |
| Composition.IdBytes | src/btmesh.c:1761-1837 | an identifier is sixteen bits, least significant byte first, with the company before it for a vendor model |
| KeyLifecycle.ModelsAre | src/btmesh.c:1453-1490 | the models the collector asks are exactly those of each element, each asked at the node's address plus the element's index in sixteen bits |
| KeyLifecycle.RetriesActOnce | src/btmesh.c:998-1421 | however many attempts and lost answers, a request takes effect once or not at all, and an accepted reply means that it did |
| KeyLifecycle.GivesUpIff | src/btmesh.c:1003-1420 | a request fails for want of an answer exactly when every one of its attempts goes unanswered |
| KeyLifecycle.GivesUpAfterThree | src/btmesh.c:1003-1421 | that is, when three attempts in a row go unanswered; no operation makes more |
| KeyLifecycle.OpTiming | src/btmesh.c:998-1421 | what an operation leaves, when it is over, and when it is answered and accepted, for any losses and refusals |
| KeyLifecycle.EveryRunKeepsBoundKeys | src/cli.c:4176-4291 | over every run of bind and unbind with arbitrary losses and refusals, as long as no model query is refused, every key bound to a model is stored |
| KeyLifecycle.RunsAreSafeIff | src/cli.c:4176-4291 | over every run with any losses and refusals, every bound key stays stored if and only if no command loses a key in the way of `CleanKeepsSafeIff` |
| KeyExactness.BindKeepsExactIff | src/cli.c:4183-4250 | when every request is answered at the latest by its third attempt, a bind keeps stored and bound keys the same if and only if the node has the model, the database lacks the key, or the key is stored already |
| KeyExactness.UnbindKeepsExactIff | src/cli.c:4258-4291 | likewise an unbind, if and only if the composition data fits the buffer or the model is not the only one that uses the key |
| KeyExactness.HeardRunsAreExactIff | src/cli.c:4176-4291 | when every request is answered at the latest by its third attempt, the stored keys are exactly the bound ones throughout a run if and only if every command in it is of that kind |
| KeyExactness.FreshRunsAreExactIff | src/cli.c:4176-4291 | in particular from a node on which nothing is stored or bound |
| KeyExactness.AbsentModelLeavesKey | src/cli.c:4183-4250 | on such a node, binding a key of the database to a model the node lacks fails and leaves the key stored and unused |
| KeyLifecycle.CleanDeletesOnlyUnused | src/btmesh.c:1424-1539 | under losses and refusals, as long as no model query is refused, the collector changes the node only by deleting a key on record that no model uses |
| KeyLifecycle.CleanInAnyEnvironment | src/btmesh.c:1424-1539 | in every environment: when the key is deleted; success if and only if a use is found, or none is and the deletion is answered; null pointer if and only if no use is found, the data is whole and the key not on record; overrun if and only if no use is found before the data is cut off; failure in all other cases |
| KeyLifecycle.DoneMeansDeletedIff | src/btmesh.c:1526-1538 | after a reported success an unused stored key is gone if and only if some attempt of the deletion took effect: its status is ignored |
| KeyExactness.RefusedDeletionIsReached | src/btmesh.c:1526-1538 | a run in which success is reported and the unused key stays |
| KeyLifecycle.CutIff | src/btmesh.c:1439-1451 | composition data is cut off if and only if its elements are encoded with more than 54 bytes |
| KeyExactness.CleanDeletesIffUnused | src/btmesh.c:1448-1538 | with truthful answers, however many attempts they take, the key is deleted if and only if no SIG or vendor model on any element uses it, the composition data fits the buffer and the key is on record; the null pointer is read exactly when only the last of these fails, and the buffer overrun exactly when the data is cut off and no model before the cut uses the key |
| KeyExactness.FirstUnbindCrashes | src/btmesh.c:1448-1527 | both crashes happen at the first unbind from an empty node |
| KeyLifecycle.CleanKeepsSafeIff | src/btmesh.c:1424-1539 | whatever is lost or refused, collecting makes the node unsafe if and only if the key is used and stored under the one network key on record, the composition data is answered and fits the buffer, the first answered attempt of each query comes in time and refuses every model that uses the key, and an attempt of the deletion takes effect |
| KeyExactness.LosesKeyIsReached | src/btmesh.c:1462-1538 | a run of three commands from an empty node after which a bound key is not stored |
| KeyLifecycle.BindOutcome | src/cli.c:4183-4250 | success means bound and stored; a missing key is reported exactly when it is missing; no other binding changes |
| KeyLifecycle.UnbindOutcome | src/cli.c:4258-4291 | in every environment: success, or a missing database entry, means no longer bound; no other binding changes |
| KeyLifecycle.BindInAnyEnvironment | src/cli.c:4183-4250 | the node and the outcome after a bind, for any losses and refusals: lookup, addition unless reported, and binding, each only if the one before was answered and accepted |
| KeyLifecycle.UnbindInAnyEnvironment | src/cli.c:4258-4291 | likewise an unbind: the collector follows if and only if the request was answered and accepted |
| KeyGateway.Gateway.PerformOp | src/btmesh.c:1000-1421 | the retry loop stops at the first reply and after three attempts |
| KeyGateway.Gateway.AskModels | src/btmesh.c:1462-1482 | the loop with its break and comparison agrees with asking in turn the models whose identifiers are in the buffer |
| KeyGateway.Gateway.AskElements | src/btmesh.c:1453-1524 | the nested loops over the bytes ask the models of the composition in order, up to the first that uses the key or to the end of the buffer; they come to the end of the elements only if nothing was cut off |
| KeyGateway.Gateway.CleanNodeKey | src/btmesh.c:1424-1539 | the byte-level code on its 64-byte buffer computes the collector, crashes included |
| KeyGateway.Gateway.BindKey | src/cli.c:4183-4250 | the bind branch |
| KeyGateway.Gateway.UnbindKey | src/cli.c:4258-4291 | the unbind branch with its collection |
| Discovery.VendorAddrIsOwnIff | src/btmesh.c:1769-1846 | vendor models are queried at their own element's address if and only if the element has a SIG model, or none up to it has one and the stale address is its own |
| NodeDiscovery.Discoverer.FreeNode | src/btmesh.c:833-862 | frees every block of the tree once, leaves the pointer NULL, and does nothing when called again |
| NodeDiscovery.Discoverer.NewList | src/btmesh.c:1776-1790 | a failed allocation frees the whole node; a successful one is hung into its cell |
| NodeDiscovery.Discoverer.FillModel | src/btmesh.c:1760-1832 | each exit of a model's turn has freed everything or filled the cell with what the node answered |
| NodeDiscovery.Discoverer.FillModels | src/btmesh.c:1760-1909 | the model loop fills every cell in order and consumes exactly its identifiers |
| NodeDiscovery.Discoverer.FillElement | src/btmesh.c:1722-1910 | one element: address, location, both model arrays, cursor at the next element |
| NodeDiscovery.Discoverer.Discover | src/btmesh.c:1708-1911 | success rebuilds exactly the encoded elements, the i-th at the node's address plus i in sixteen bits, and owns every block; every failure is that of an allocation or of a reply with this error or status, and leaves nothing allocated and the pointer NULL; success means that the buffer holds all the elements, and an overrun that it does not |
| NodeDiscovery.Discoverer.DiscoverAndFree | src/btmesh.c:833-1911 | after discovery and the release of its result the heap is as before, whatever happened short of a crash; if no query and no allocation fails, the crash happens if and only if header and elements exceed 64 bytes |
| Permit.PermitIsNeverLost | src/gateway.c:197-276 | in every interleaving the semaphore stays binary and, while it is taken, some releaser is outstanding |
| Permit.PermitCanBeFreed | src/gateway.c:197-276 | from every state with the permit taken the system can free it by itself within a bounded number of steps |
| Permit.HoldersAreAccounted | src/gateway.c:197-276 | in every state: who comes to hold a permit, who ends to, and when the semaphore changes |
| Permit.StepKeepsSingleIff | src/gateway.c:216-276 | a step keeps the permit single if and only if it is no timed-out take, no failed allocation of the reply, and no cancellation without a pending timeout or for another device |
| Permit.OneProvisioningAtATimeIff | src/gateway.c:197-276 | throughout a run semaphore and releasers make up one permit, and each request that gets it ends in exactly one result for its own device before the next begins, if and only if every step is of that kind |
| Permit.RunsFromPowerOn | src/gateway.c:145-276 | both, the invariant and the equivalence, for every run from power-on |
| Permit.OnlyRecordedDeviceMatches | src/gateway.c:1206-1215 | a node-added event goes on exactly for the device recorded last; for any other it changes nothing |
| Permit.CancelsItsOwnIff | src/gateway.c:1206-1226 | throughout a run the event cancels the timeout of its own device if and only if no other is recorded between the comparison and the cancellation |
| Permit.QueueIsFifo | src/gateway.c:197-276 | over every run what was queued is what was taken and what is left, in order |
| Permit.ServedInOrder | src/gateway.c:216-276 | over every run in which no take times out, the permit is taken once for each request that begins, in that order |
| Permit.TimedOutTakeGivesForeignPermit | src/gateway.c:229-234 | a take that times out frees a permit that is still outstanding |
| Permit.TimedOutTakeIsReached | src/gateway.c:197-276 | two requests lead there from power-on |
| Permit.StaleNodeAddedGivesForeignPermit | src/gateway.c:1206-1226 | so does a matching node-added event without a pending timeout |
| Permit.StaleNodeAddedIsReached | src/gateway.c:197-276 | a finished request and another one lead there from power-on |
| Permit.SelfBlockedStays | src/gateway.c:216-276 | a request that waits while the reply to an earlier one is queued gets no permit in any orderly run |
| Permit.SelfBlockedIsReached | src/gateway.c:197-276 | two requests of which the first times out lead there from power-on |
| Queue.StepKeepsInv | src/gateway.c:1028-1525 | each step frees only live blocks, each once, and keeps ownership and order exact |
| Queue.EveryRunOwnsExactly | src/gateway.c:1028-1525 | live blocks are exactly those referred to by handler, callback, queue or thread, each once; items are processed in order of arrival |
| Queue.QuiescentRunsLeakNothing | src/gateway.c:1028-1525 | when all contexts are idle and the queue is empty nothing is allocated |
| Queue.ProcsAreNamed | src/gateway.c:1401-1515 | a text passes the chain of comparisons if and only if it is the name of an operation, and yields that operation |
| Queue.OperationIsQueued | src/gateway.c:1314-1520 | a message that asks for an operation ends, if there is memory, as the last item with its own tree and the operation, and is accepted |
| Queue.OthersAreDropped | src/gateway.c:1314-1525 | every other message, and any without memory, leaves nothing allocated and nothing queued, and is refused unless it is about the shadow |
| Queue.VerdictIs | src/gateway.c:1331-1525 | which refusals a message gets |
| Queue.MeshMessageIsQueued | src/gateway.c:1246-1290 | a message from the mesh ends as the last item with its own copy |
| Subscriptions.SubscribeRefinesSet | src/btmesh.c:490-501 | adds exactly the address; fails exactly without a hole and without the address |
| Subscriptions.UnsubscribeRefinesSet | src/btmesh.c:517-521 | removes all copies and nothing else |
| Subscriptions.SubscribeKeepsSingleIff | src/btmesh.c:490-501 | addresses stay single if and only if the address is new or no hole comes before it |
| Subscriptions.DuplicateIsReached | src/btmesh.c:477-522 | four calls on an empty table store an address twice |
| Subscriptions.RunRefinesSet | src/btmesh.c:477-522 | over every run of nonzero addresses the table holds exactly the addresses subscribed with success and not unsubscribed since |
| Subscriptions.FreshRunRefinesBoundedSet | src/btmesh.c:477-522 | over runs that re-subscribe no present address it is a set bounded by its slots, each address in one slot |
| Subscriptions.Tables.Subscribe | src/btmesh.c:477-502 | changes only the client's table; an unknown client is refused |
| Subscriptions.Tables.Unsubscribe | src/btmesh.c:504-522 | changes only the client's table |
| Subscriptions.FilteredIff | src/btmesh.c:967-974 | the messages left out are those with opcodes up to 6 and 0x8000 to 0x80FF, and of the vendor messages those of the companies 0x8000 to 0x80FF |
| Subscriptions.Tables.Deliver | src/btmesh.c:962-995 | a message that is not filtered is delivered as often as its destination occurs: at least once if and only if subscribed, once when addresses are single |
| Listing.NextLowest | src/cli.c:308-315 | the scan finds the least key not yet listed, if there is one |
| Listing.PrintSorted | src/cli.c:303-327 | the nested scans print each used index once in ascending order, from the first slot that holds it |
| Listing.FillCompletions | src/cli.c:2076-2095 | the completion strings are the sorted distinct keys, then only 0xffff |
| Listing.ListingIsUnique | src/cli.c:303-327 | there is only one such listing |
| Listing.LowestFree | src/cli.c:429-436 | the least free index within table size plus one probes, without wrap-around |
| AccessMessage.RoundTripIffWellSized | src/codec.c:1664-1674 | a receiver decodes opcode and payload back if and only if the opcode's leading bits match its length |
| AccessMessage.MessageBuffer.Build | src/codec.c:1664-1702 | the buffer holds the opcode bytes and the payload, and decodes to both |
| AccessMessage.ParsePayload | src/cli.c:2855-2901 | the characters are decoded from the right, two for a byte; an argument is refused exactly when it is too long or a pair is not accepted |
| AccessMessage.PairAcceptedIff | src/cli.c:66-121 | a pair is accepted if and only if it is two zeros or starts with a number other than zero, blank, plus and minus included |
| AccessMessage.CommandMessage | src/cli.c:4611-4634 | the message command composes both within its 32 bytes, so that a receiver decodes the opcode and the payload of the argument |
| AccessMessage.LeadingDigitIsKeptIff | src/cli.c:2876-2892 | hexadecimal arguments are accepted, and the bytes are the ones written if and only if the number of digits is even or the first is zero |

## Left out

- The stages of `btmesh_discover_node` before the elements are allocated, and the `subnet_idxs` block they allocate, which `btmesh_free_node` does not release.
- NodeDiscovery.Discoverer.Discover: the element structure is a tree of values held in one field and rewritten cell by cell, with blocks named by numbers, so aliasing between blocks is not expressible; what the lists hold is stated for truthful replies, which elements exist for any replies.
- KeyLifecycle.EveryRunKeepsBoundKeys: the command-line path, which checks statuses; the cloud path ignores the status of the addition, collects only after SIG unbinding, and may interleave with the command line.
- KeyLifecycle.CleanDeletesOnlyUnused: composition data is never refused and as on record.
- Permit.OneProvisioningAtATimeIff: time is not modelled; a take or a timeout may expire at any moment.
- Queue.EveryRunOwnsExactly: the item queued by the provisioning timeout is excluded, because its JSON root is never set; allocations in the mesh callbacks succeed.
- AccessMessage.MessageBuffer.Build: the cloud path does not bound the payload; it must fit the buffer.
- Listing.LowestFree: tables with so many entries that the 16-bit counter would wrap.
- `get_dynamic_subnets`, whose first minimum is right only if index 0 exists.
- `change_subscribe_list`, which applies the subscription operations one by one and stops at the first error.
- The handlers behind the request queue other than provisioning, with their JSON encoding and sending.
- Kernel, mesh stack, configuration database storage, cloud connection, modem and watchdog.
- Shell parsing other than the payload argument, help texts, opcode and model name tables, publish periods.
