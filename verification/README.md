# A verified model of the variable server

The server keeps named variables in an in-memory tree, lets clients subscribe to them, lock them, read
and delete whole groups with wildcards, and survives restarts through a text dump. This project models
that behaviour in Dafny and proves what its parts promise, up to runs of the whole server.

`dafny verify dfyconfig.toml` checks everything. The layers, bottom up:

- **Text.dfy** has the string functions: splitting, joining, decimal numbers, iteration in some order.
- **FlatStore.dfy** is the store as its callers think of it, a map from word paths to values with a
  prefix-closed set of nodes. **NodeTree.dfy** and **RamCache.dfy** are the store as it is, mutable nodes
  with parent links and child maps, proved to behave like the flat one.
- **DumpText.dfy**, **RoundTrip.dfy** and **Restart.dfy** are about the dump: what loading any text does, exactly
  which stores come back unchanged, and what a flush and the next start make of it.
- **Keys.dfy** and **Views.dfy** give the server's bookkeeping entries readable names and show that no two
  of them share a path.
- **EntryLists.dfy**, **Observers.dfy**, **ObserverIndex.dfy**, **ObserverNodes.dfy** are a variable's
  observer list: the sequence it stands for, the inverse index, the nodes it uses.
  **VarHelper.dfy** is the helper that works on it.
- **Registry.dfy**, **RegistryNodes.dfy**, **RegistryCount.dfy**, **RegistryList.dfy** are the client registry and
  each client's own list; **ClientHelper.dfy** is the helper that works on them.
- **Subscriptions.dfy**, **Runs.dfy**, **ServerRuns.dfy**, **StopMismatch.dfy** are whole runs: the
  invariant that ties the two records of a subscription together, what keeps it, what breaks it.
- **Bookkeeping.dfy**, **Wildcard.dfy**, **Writes.dfy** say which paths are the server's own, which names may
  be written, and what a delete does; **CleanStores.dfy** and **CleanRuns.dfy** exactly which operations the dump
  survives, over whole runs; **LineEnds.dfy** what it makes of others; **HiddenDeletes.dfy** what a delete of a
  hidden entry breaks; **Collisions.dfy** which client ids and tags share entries.
- **Walks.dfy** and **Misreads.dfy** are whole reads by name, and when the names are those of the nodes below.
- **Reading.dfy**, **Notifications.dfy**, **Controller.dfy** are the controller's operations, on the node graph.
- **NamedLock.dfy** and **VarLock.dfy** are the locks, as interleaved steps.
- **NestedJson.dfy**, **JsonDocument.dfy** and **ArrayShape.dfy** are the JSON answers.
- **Framing.dfy** and **Sessions.dfy** are the line protocol's buffers and its maps of ids and connections.

Methods on objects state their whole effect as a function of the old state (`Contents()` for the store,
`Items()` for a JSON object, `Now()` for locks and sessions); the theorems are about those functions.

Things the code does that its names and comments do not say, kept as they are and stated exactly:

- Removing one tag of a client drops the index of all its tags on that variable
  (`ObserverIndex.RemoveKeepsCompleteExactly`), and stopping a subscription one does not have damages one's
  own record (`Runs.StopAgreesExactly`, `StopMismatch.MismatchedStopOrphans`).
- Removing a client shifts the client list but not the positions on record of the clients behind it
  (`RegistryList.PositionStaysExactly`, `RegistryList.FirstForgotten`).
- `SetVar` accepts values with line ends, which the dump writes as they are: such a value does not survive a
  restart, and its later lines set other entries, locks and records included (`LineEnds.LineEndAssigns`,
  `LineEnds.ValueLocksAnother`). A name that ends in two dots does not survive either, nor do observed names, ids
  and tags with `=`. Which operations are safe is stated exactly (`CleanStores.WriteKeepsSafeExactly`,
  `CleanRuns.OpStaysSafeExactly`, `CleanRuns.RunsSafeExactly`); restarts are proved to keep everything over all
  runs of safe operations (`CleanRuns.RestartInCleanRun`).
- The dumper forgets that changes are pending even when writing the file failed, so they are not written before
  something else changes (`Restart.Flush`).
- `DelVar` does not look for hidden words, as `SetVar` does: it deletes observer counts and lock flags like any
  variable (`HiddenDeletes.DeletedCountHidesObservers`, `HiddenDeletes.DeletedFlagUnlocks`). When a delete spares
  the bookkeeping, and when at least the records of subscriptions, is stated exactly (`Walks.SparesExactly`,
  `Walks.SparesRecordsExactly`); runs contain the deletes that spare the records.
- Client ids and tags with dots can share entries: exactly when is stated for any two entries, for the tags of one
  client and for two clients (`Collisions.EntriesShareExactly`, `Collisions.TagsShareExactly`,
  `Collisions.ClientsApartExactly`).
- A whole read of a name that ends in a dot, of `vars` or of everything looks for some children under names that
  denote other nodes (`Misreads.DottedRightExactly`, `Misreads.VarsRightExactly`, `Misreads.TopRightExactly`).
- A connection that takes another's id over cannot be reached any more once that other one disconnects
  (`Sessions.TakeoverIsLost`, `Sessions.ReachableExactly`).
- A change of a name that is itself a wildcard pattern is told to that pattern's observers twice
  (`Notifications.ConsultedExactly`).
- The comment on array normalisation (sources/services/apis/httpapi/httpapi.go:466-468) promises arrays with
  empty slots for any numeric keys; the code makes an array only when it happens to visit the keys counting up
  from zero, and then without gaps (`ArrayShape.Shape`). The model follows the code.
- `SetVar` on a name with a wildcard writes nothing and reports success (`VarHelper.ControllerVarHelper.SetValue`).
- A connection that asks for the empty id keeps being reachable under it
  (`Sessions.RenameKeepsExactly`, `Sessions.EmptyIdStays`).

Default assumptions of the run theorems: raw database access is off; client ids are single non-empty words;
tags are single words or empty; names of observed and locked variables do not start with `vars.` and have no word
`_observers`. Runs of **ServerRuns.dfy** restart only from states the dump can carry. Clean runs of **CleanRuns.dfy**
restart from any state and ask instead that ids, tags, names of observed and locked variables hold no `=` and no line
end, that values, API ids and times hold no line end, and that written names do not end in two dots.

## Model

| member | source | states |
|---|---|---|
| `Decimal.AtoiItoa` | sources/misc/dynamicvar.go:134-147 | a counter written as decimal text and read back through the number parser is the same number |
| `Decimal.NumbersExactly` | sources/misc/dynamicvar.go:134-155 | which texts are numbers, character by character: one sign at most in front, then at least one digit and nothing else; any other text counts as zero |
| `Decimal.PositionalValue` | sources/misc/dynamicvar.go:134-147 | what they are worth: a digit counts its distance from 0, each further digit ten times what stands before it, a minus negates |
| `Decimal.NoLeadingZero` | sources/controller/controller_varhelper.go:96-97 | numbers are written without leading zeros |
| `Decimal.ItoaInjective` | sources/controller/controller_varhelper.go:96-101 | different slot numbers have different names, so list keys never collide |
| `Text.SplitInjective` | sources/services/storage/ramcachedb.go:118-125 | a dotted name is recovered from its words; two names with the same words are the same name |
| `MapOrder.KeysInSomeOrder` | sources/services/storage/ramcachedb.go:185-204 | an iteration visits every key of a map exactly once, in an order nothing else is known about |
| `FlatStore.NodePathStep` | sources/services/storage/ramcachedb.go:118-153 | splitting off the first word again and again, as the walk does, yields exactly the words of the name less one trailing empty word |
| `FlatStore.NodePathIsSplit` | sources/services/storage/ramcachedb.go:118-153 | a name that does not end in a dot denotes precisely its words |
| `FlatStore.NodePathExtend` | sources/services/storage/ramcachedb.go:118-153 | a name built as base, dot, rest denotes the base's words followed by what the rest denotes; an empty rest lands on the base itself |
| `FlatStore.PutClosed` | sources/services/storage/ramcachedb.go:157-165 | writing keeps every node's shorter paths in the store |
| `FlatStore.RemoveClosed` | sources/services/storage/ramcachedb.go:217-233 | either kind of delete keeps the node set prefix-closed |
| `FlatStore.ChildlessByWords` | sources/services/storage/ramcachedb.go:229-231 | a node has nothing below it exactly when its child map is empty |
| `NodeTree.TreeAfterAdd` | sources/services/storage/ramcachedb.go:127-147 | hanging a fresh node under its parent keeps the graph a tree: parent and name match the key it hangs at, nothing is shared |
| `NodeTree.ValuesAfterAdd` | sources/services/storage/ramcachedb.go:127-147 | and adds exactly one path, with no value, to the flat store |
| `NodeTree.TreeAfterAssign` | sources/services/storage/ramcachedb.go:160-163 | writing a value keeps the tree |
| `NodeTree.TreeAfterCut` | sources/services/storage/ramcachedb.go:226-231 | unlinking a node leaves a tree of exactly the nodes that are not below it |
| `NodeTree.ValuesAfterCut` | sources/services/storage/ramcachedb.go:226-231 | and removes exactly the paths at or below it from the flat store |
| `RamCache.RamCacheDB.Empty` | sources/services/storage/ramcachedb.go:40-45 | a new database is the empty flat store |
| `RamCache.RamCacheDB.FindNode` | sources/services/storage/ramcachedb.go:118-153 | the read-only walk returns the node at the denoted path, or nothing when there is none |
| `RamCache.RamCacheDB.MakeNode` | sources/services/storage/ramcachedb.go:118-153 | the creating walk returns that node after adding exactly the missing prefixes of its path |
| `RamCache.RamCacheDB.Set` | sources/services/storage/ramcachedb.go:157-165 | on the node graph, a write is the flat store's write: all prefixes become nodes and the last one gets the value |
| `RamCache.RamCacheDB.Get` | sources/services/storage/ramcachedb.go:168-176 | a read answers as the flat store does, with the default for a missing node |
| `RamCache.RamCacheDB.HasValue` | sources/services/storage/ramcachedb.go:209-214 | answers whether the path is a node, valued or not |
| `RamCache.RamCacheDB.GetChilds` | sources/services/storage/ramcachedb.go:179-206 | returns each child word once, the root's for the empty name, none for a missing node |
| `RamCache.RamCacheDB.DeleteValue` | sources/services/storage/ramcachedb.go:217-233 | a cascade removes exactly the subtree; a plain delete removes a childless node and only clears any other |
| `RamCache.RamCacheDB.DumpToString` | sources/services/storage/ramcachedb.go:333-346 | the text lists every valued path once, as `name=value` lines, in an order fixed only by the maps' iteration |
| `RamCache.RamCacheDB.LoadAll` | sources/services/storage/ramcachedb.go:359-376 | the loop over the lines writes what the line-by-line reading of the text says |
| `RamCache.RamCacheDB.Load` | sources/services/storage/ramcachedb.go:349-379 | after reading a file a path holds what the last line that gives it a value says, any other path what it held, and a node exists where it did or where something was given at or below it; a missing or unreadable file changes nothing; the pending mark goes only when the file was read |
| `RamCache.RamCacheDB.FromDisk` | sources/services/storage/ramcachedb.go:57-71 | starting up, which loads twice, gives what the file's lines say, each path the last one for it, and an empty store without a readable file |
| `DumpText.LoadedStore` | sources/services/storage/ramcachedb.go:362-376 | after loading any text, a path holds the value of the last line that denotes it and a node exists exactly where it existed or some line's path passes |
| `DumpText.LineSays` | sources/services/storage/ramcachedb.go:363-371 | a line without `=` says nothing; any other gives what follows its first `=` to the name before it, whatever white space it has |
| `DumpText.LoadTakesLines` | sources/services/storage/ramcachedb.go:362-376 | reading any lines into any store: the last line for a path wins, other paths keep their values, and the nodes are the old ones and those on the way to what was given |
| `DumpText.NothingSaid` | sources/services/storage/ramcachedb.go:363-368 | lines without `=` set and create nothing |
| `DumpText.LoadTwice` | sources/services/storage/ramcachedb.go:59-68 | loading any text twice is loading it once |
| `DumpText.DumpSplits` | sources/services/storage/ramcachedb.go:333-376 | splitting the dump at line ends gives back one line per entry, provided no entry holds a line end |
| `DumpText.ParseEntry` | sources/services/storage/ramcachedb.go:339-371 | a dumped line parses to the entry it was made from |
| `DumpText.EntryExactly` | sources/services/storage/ramcachedb.go:333-346 | a path is written as its words with dots between them, `=`, and its value |
| `RoundTrip.SafeStoreReturns` | sources/services/storage/ramcachedb.go:333-379 | for every visiting order, reloading the dump gives each path its old value and as nodes exactly the prefixes of valued paths |
| `RoundTrip.RoundTripExactly` | sources/services/storage/ramcachedb.go:333-379 | every value survives dump and load exactly when each valued path's words and value can be spelled on a line: the condition is necessary as well as sufficient |
| `Restart.StartOver` | sources/services/storage/ramcachedb.go:57-71 | a start over any dump of a store has every value back exactly when the file can carry them all, and then exactly the nodes that lead to a value |
| `Restart.Flush` | sources/services/storage/ramcachedb.go:90-117 | a turn of the dumper rewrites the file when changes are pending; what is then on disk reads back as what is in memory exactly when the file can carry it; the pending mark goes even if the write failed |
| `Restart.StopAndStart` | sources/services/storage/ramcachedb.go:80-117 | the last turn of the dumper and the next start lose no value if what was pending was written and can be carried |
| `RoundTrip.LoadedIsClean` | sources/services/storage/ramcachedb.go:359-376 | whatever text is loaded, nothing in the store holds a line end afterwards |
| `RoundTrip.SurvivorsAreCanonical` | sources/services/storage/ramcachedb.go:333-379 | a store all of whose values survive spells every valued path canonically |
| `Keys.NameDenotes` | sources/controller/controller_varhelper.go:89-124 | every dotted name a helper builds denotes the path its entry is modelled at |
| `Keys.ObserverNames` | sources/controller/controller_varhelper.go:89-124 | the names of a variable's entries, written out |
| `Keys.ClientNames` | sources/controller/controller_clienthelper.go:85-178 | the names of the registry's and a client's entries, written out |
| `Keys.PathOfInjective` | sources/controller/controller_varhelper.go:89-106 | no two entries of any variables or of clients with dotless ids share a path |
| `Collisions.EntriesShareExactly` | sources/controller/controller_varhelper.go:89-106 | whatever client ids and tags look like, two entries share a path exactly when they are one, or are index entries of one variable or record entries whose names end in the same text, one final dot not counting |
| `Collisions.TagsShareExactly` | sources/controller/controller_varhelper.go:89-106 | one client's tags share an index entry exactly when they are equal up to one final dot |
| `Collisions.ClientsShareExactly` | sources/controller/controller_varhelper.go:89-106 | two clients have tags whose index entries coincide exactly when one id is the other followed by the word `byMetadata`, and perhaps more words |
| `Collisions.PositionsShareExactly` | sources/controller/controller_clienthelper.go:85-99 | a client's position is kept at one of another client's entries exactly when its id, up to one final dot, is that client's or extends it by `apiId`, `lastLiveTime`, `observing.count` or `observing.<i>` |
| `Collisions.OthersAreApart` | sources/controller/controller_clienthelper.go:85-180 | entries other than positions are never shared between clients |
| `Collisions.ClientsApartExactly` | sources/controller/controller_varhelper.go:89-106 | so two clients have some entry in common exactly in those cases |
| `Views.PutViews` | sources/services/storage/ramcachedb.go:157-165 | writing one metadata entry changes that entry and no other |
| `Views.CutSlotViews` | sources/controller/controller_varhelper.go:183 | deleting a slot's subtree empties that slot's two entries and nothing else |
| `Views.CutByIdViews` | sources/controller/controller_varhelper.go:187 | deleting a client's `byId` subtree on a variable empties all its tags' index entries there, and nothing else |
| `Views.CutRecordViews` | sources/controller/controller_clienthelper.go:237 | deleting a client record empties that client's entries only |
| `KeyAccess.WriteKey` | sources/controller/controller_varhelper.go:89-106 | a write under a built name is a write of the one entry it stands for |
| `Observers.RegisterAppends` | sources/controller/controller_varhelper.go:89-106 | registering appends exactly one entry to the variable's list |
| `Observers.ShiftedViews` | sources/controller/controller_varhelper.go:172-181 | the shift-left loop moves each later entry down one slot and re-points its index entry, touching nothing else |
| `Observers.RemoveDropsLast` | sources/controller/controller_varhelper.go:163-191 | a removal deletes exactly the last entry equal to the pair and keeps the order of the rest |
| `ObserverIndex.RegisterKeepsTruth` | sources/controller/controller_varhelper.go:89-106 | after registering, every index entry still names its pair's last slot |
| `ObserverIndex.RemoveKeepsTruth` | sources/controller/controller_varhelper.go:163-191 | after any removal, duplicates included, every index entry left names its pair's last slot |
| `ObserverIndex.RemoveKeepsCompleteExactly` | sources/controller/controller_varhelper.go:187 | a removal leaves every listed pair indexed exactly when the client keeps no entry on the variable: removing one tag drops the index of all its tags |
| `EntryLists.DropLastExactly` | sources/controller/controller_varhelper.go:163-191 | taking out a pair takes out its last occurrence and leaves what stands before and after it |
| `EntryLists.WithoutExactly` | sources/controller/controller_varhelper.go:147-161 | leaving a client out works entry by entry |
| `ObserverIndex.PurgeFilters` | sources/controller/controller_varhelper.go:147-191 | removing all of a client's observations is the order-preserving filter, although it searches from the end of a list it is shrinking |
| `ObserverIndex.PurgeKeepsTruth` | sources/controller/controller_varhelper.go:147-191 | and leaves no index entry for the client, the others truthful |
| `ObserverNodes.RegisterKeepsOk` | sources/controller/controller_varhelper.go:89-106 | registering keeps the whole shape of the subtree: slots 0 to count-1 and no other, entries well-formed, index truthful, no index node without an entry |
| `ObserverNodes.RemoveKeepsOk` | sources/controller/controller_varhelper.go:163-191 | so does a removal |
| `ObserverNodes.PurgeKeepsOk` | sources/controller/controller_varhelper.go:147-161 | so does removing all of a client's observations |
| `ObserverNodes.RemovedFramed` | sources/controller/controller_varhelper.go:163-191 | a removal touches nothing outside the variable's `_observers` subtree |
| `ObserverNodes.OtherVariable` | sources/controller/controller_varhelper.go:89-191 | work on one variable's observers leaves every other variable's as they were |
| `ObserverNodes.IsObservingExactly` | sources/controller/controller_varhelper.go:323-325 | with a complete index the membership test is list membership, and with an empty tag it asks whether the client is listed at all |
| `VarHelper.ControllerVarHelper.RegisterObservation` | sources/controller/controller_varhelper.go:89-106 | on the node graph: the four entries are written as modelled and the old count is the id |
| `VarHelper.ControllerVarHelper.GetAllObservingClients` | sources/controller/controller_varhelper.go:108-124 | returns exactly the entries with a client, each under its slot number |
| `VarHelper.ControllerVarHelper.RemoveObservationById` | sources/controller/controller_varhelper.go:126-139 | reads the slot the id names and removes the pair found there; an id with a character that is neither a digit nor a sign in front removes nothing |
| `VarHelper.StrangeIdRemovesNothing` | sources/controller/controller_varhelper.go:127-130 | nor does an empty one or a lone sign |
| `VarHelper.RemoveByIdExactly` | sources/controller/controller_varhelper.go:126-139 | any other id is a number, and the entry in that number's slot goes, unless the slot is empty |
| `VarHelper.IdSpelled` | sources/controller/controller_varhelper.go:131-134 | the name of the slot an id names, written out, negative numbers included |
| `VarHelper.RemoveByIdDrops` | sources/controller/controller_varhelper.go:126-139 | an id in use removes the last entry like the one in its slot, an id past the end removes nothing |
| `VarHelper.ControllerVarHelper.InternalRemoveObserving` | sources/controller/controller_varhelper.go:163-191 | the search from the end with its shift loop has the modelled effect |
| `VarHelper.ControllerVarHelper.RemoveAllClientObservations` | sources/controller/controller_varhelper.go:147-161 | the descending loop over the shrinking list has the modelled effect |
| `VarHelper.ControllerVarHelper.IsClientObserving` | sources/controller/controller_varhelper.go:323-325 | asks whether the index node exists |
| `VarHelper.ControllerVarHelper.IsLocked` | sources/controller/controller_varhelper.go:276-280 | a flag that is missing, empty or "0" is no lock |
| `Bookkeeping.LockedExactly` | sources/controller/controller_varhelper.go:276-280 | a variable is locked exactly when there is a `_lock` below it that holds something other than nothing and `0` |
| `Bookkeeping.FlagExactly` | sources/controller/controller_varhelper.go:294-318 | a lock that succeeds writes `1` there, one that fails writes nothing, an unlock writes `0`, and no other value changes |
| `VarHelper.ControllerVarHelper.TryLock` | sources/controller/controller_varhelper.go:289-299 | one attempt succeeds exactly when the variable was not locked, and leaves it locked either way |
| `VarHelper.ControllerVarHelper.Lock` | sources/controller/controller_varhelper.go:282-313 | repeated attempts succeed exactly when the variable was not locked at the start, since nothing else runs in between, and leave it locked either way |
| `VarHelper.ControllerVarHelper.Unlock` | sources/controller/controller_varhelper.go:315-321 | afterwards the variable is not locked |
| `VarHelper.ControllerVarHelper.SetValue` | sources/controller/controller_varhelper.go:224-230 | a name with a wildcard is never written |
| `VarHelper.ControllerVarHelper.GetChildNames` | sources/controller/controller_varhelper.go:232-245 | lists each child once, leaving out empty words and words that start with an underscore |
| `Registry.SubscribeAppends` | sources/controller/controller_clienthelper.go:171-180 | subscribing appends the variable to the client's list |
| `Registry.FindSubFinds` | sources/controller/controller_clienthelper.go:182-193 | the search loop finds the first position of the variable |
| `Registry.UnsubscribeDropsFirst` | sources/controller/controller_clienthelper.go:195-211 | unsubscribing deletes the first occurrence and keeps the order of the rest |
| `Registry.DropFirstExactly` | sources/controller/controller_clienthelper.go:182-211 | taking out a variable takes out its first occurrence and leaves what stands before and after it |
| `Registry.UnsubscribeSees` | sources/controller/controller_clienthelper.go:195-211 | and counts as a sighting of the client, whether it had the variable or not |
| `RegistryNodes.SubscribeKeepsRecord` | sources/controller/controller_clienthelper.go:171-180 | the nodes under `observing` stay the counter and the slots in use |
| `RegistryNodes.UnsubscribeKeepsRecord` | sources/controller/controller_clienthelper.go:195-211 | also after unsubscribing |
| `RegistryNodes.UnregisterEmpties` | sources/controller/controller_clienthelper.go:222-239 | removing a client empties its list and drops its record |
| `RegistryCount.InitializeKeepsRegistry` | sources/controller/controller_clienthelper.go:85-99 | the client counter stays the number of registered ids |
| `RegistryCount.UnregisterKeepsRegistry` | sources/controller/controller_clienthelper.go:222-239 | also when a client is removed, whatever position it had on record |
| `RegistryList.EnlistAppends` | sources/controller/controller_clienthelper.go:85-99 | first contact appends the id to the client list, later contact leaves the list alone |
| `RegistryList.UnregisterDelists` | sources/controller/controller_clienthelper.go:222-239 | removing a client takes one id off the list, at the position the client has on record, and keeps the order of the rest |
| `RegistryList.PositionStaysExactly` | sources/controller/controller_clienthelper.go:229-235 | with every client listed once and both positions right, removing one client leaves another's position right exactly when the other was listed before it |
| `RegistryList.FirstForgotten` | sources/controller/controller_clienthelper.go:85-99 | two contacts and the removal of the first client reach a store whose recorded position is wrong |
| `ClientHelper.ControllerClientHelper.constructor` | sources/controller/controller_clienthelper.go:61-65 | enlists an unknown client, refreshes a known one |
| `ClientHelper.ControllerClientHelper.Initialize` | sources/controller/controller_clienthelper.go:85-99 | writes the modelled entries, the list only on first contact |
| `ClientHelper.ControllerClientHelper.RegisterNewObservation` | sources/controller/controller_clienthelper.go:171-180 | has the modelled effect on the node graph |
| `ClientHelper.ControllerClientHelper.UnregisterObservation` | sources/controller/controller_clienthelper.go:195-211 | the search and the shift loop have the modelled effect |
| `ClientHelper.ControllerClientHelper.RemoveClientFromObservationSystem` | sources/controller/controller_clienthelper.go:222-239 | the shift loop from the recorded position and the cascade have the modelled effect |
| `ClientHelper.ControllerClientHelper.GetObservingVars` | sources/controller/controller_clienthelper.go:143-158 | yields one name per child not named like the counter, in the order the children are visited |
| `ClientHelper.SlotNamedExactly` | sources/controller/controller_clienthelper.go:146-149 | passed over are exactly the children with `count` or `size` anywhere in their names |
| `Subscriptions.Aliases` | sources/controller/controller_varhelper.go:69-80 | a name that starts with `vars.` is taken as it is, so it is an alias of the name without it |
| `Subscriptions.StripExactly` | sources/controller/controller_clienthelper.go:151-155 | names are told without the `vars.` they are kept under, unless nothing would be left |
| `ClientHelper.VisitListsSubs` | sources/controller/controller_clienthelper.go:143-158 | in a well-kept record those names are exactly the variables on the client's list, as many as it has entries |
| `Runs.ObserveEffect` | sources/controller/controller.go:343-349 | observing adds one entry to each of the two records, or nothing when the index has the pair, and changes no other list |
| `Runs.StopEffect` | sources/controller/controller.go:366-372 | stopping takes the last equal entry off the variable and the first off the client, whatever was stopped |
| `Runs.StopAgreesExactly` | sources/controller/controller.go:366-372 | after a stop the two records agree exactly when the pair was listed or the client had nothing on the variable |
| `Runs.DeleteLeavesNoOrphan` | sources/controller/controller.go:430-438 | when the records agree, removing a client takes it off every variable and leaves everybody else's subscriptions alone |
| `Runs.DeletePurges` | sources/controller/controller.go:430-438 | whether or not they agree, it takes the client's entries off the variables its own list names, and off no other |
| `Runs.OrphansExactly` | sources/controller/controller.go:430-438 | so a removed client is left behind at exactly the variables that listed it without being on its list |
| `ServerRuns.EffectKeepsSound` | sources/controller/controller.go:118-438 | every operation, stops of any kind, locks and unlocks included, keeps each record well formed; accepted writes, restarts and deletes that spare the bookkeeping change no answer, other deletes that spare the records and locks none about subscriptions |
| `ServerRuns.ReachableIndexTrue` | sources/controller/controller_varhelper.go:100-187 | in every reachable state an index entry names a slot below the count that holds its pair, the last such slot |
| `ServerRuns.RestartKeepsAnswers` | sources/services/storage/ramcachedb.go:333-379 | dumping and reloading keeps every observer list, index answer, client list and lock, although nodes without a value are lost |
| `LineEnds.LineEndAssigns` | sources/services/storage/ramcachedb.go:333-376 | a value with a line end in it, written into any dump-safe store, sets after a restart whatever entry its last line names to whatever that line says, exactly when the dump does not come to that entry's own line later |
| `LineEnds.ValueLocksAnother` | sources/controller/controller.go:118-173 | so an accepted write of such a value to one variable locks another after the restart, which nobody locked |
| `CleanStores.WriteKeepsSafeExactly` | sources/controller/controller.go:118-173 | which accepted writes leave a dump-safe store dump-safe: those with a wildcard or an empty value, and those of a one-line value under a name that does not end in two dots, and no other |
| `CleanStores.PurgedTidy` | sources/controller/controller_varhelper.go:147-191 | the descending loop over a list of clean entries writes only entries the dump can carry |
| `CleanRuns.ObserveKeepsSafeExactly` | sources/controller/controller.go:343-349 | an observation leaves a dump-safe store dump-safe exactly when the index screens it out or its names hold no `=` and no line end and its API id and time no line end |
| `CleanRuns.ContactKeepsSafeExactly` | sources/controller/controller_clienthelper.go:85-99 | likewise for a contact |
| `CleanRuns.StopKeepsSafeExactly` | sources/controller/controller.go:366-372 | and for a stop, where the variable and the tag do not matter |
| `CleanRuns.OpStaysSafeExactly` | sources/controller/controller.go:118-438 | for every operation, restarts included: it leaves a store the next dump can carry exactly when it is clean, or an observation that is screened out |
| `CleanRuns.RunsSafeExactly` | sources/services/storage/ramcachedb.go:333-346 | over a whole run from an empty store: every state is one the dump can carry exactly when every operation is clean, or an observation that is screened out |
| `CleanRuns.CleanRunsStaySafe` | sources/services/storage/ramcachedb.go:333-346 | so every state of a run of clean operations is dump-safe; nothing is assumed of the states |
| `CleanRuns.CleanRunIsRun` | sources/controller/controller.go:118-438 | so what is proved of all runs holds of these, wherever they restart |
| `CleanRuns.RestartInCleanRun` | sources/services/storage/ramcachedb.go:333-379 | a restart at any point of such a run, in any dump order, keeps every value, every subscription, index answer, client list and lock, and the agreement of the two records |
| `ServerRuns.RecordsKeepSound` | sources/controller/controller.go:118-341 | anything that leaves the clients' records and the observer subtrees alone keeps every record and every answer about subscriptions |
| `ServerRuns.WritesKeepSound` | sources/controller/controller.go:159-167 | anything that leaves all bookkeeping alone keeps every lock as well |
| `Bookkeeping.FlagSparesRecords` | sources/controller/controller_varhelper.go:255-263 | writing a lock flag touches no record and no observer subtree |
| `ServerRuns.FlagKeepsSound` | sources/controller/controller_varhelper.go:255-263 | and changes no answer but that variable's lock |
| `ServerRuns.LockKeepsSound` | sources/controller/controller.go:308-317 | locking keeps both records of every subscription and every other lock |
| `ServerRuns.UnlockKeepsSound` | sources/controller/controller.go:319-328 | so does unlocking |
| `ServerRuns.RunsStayHealthy` | sources/controller/controller.go:343-438 | in every run in which clients stop what they observe, client and variable agree on how often one is listed at the other |
| `ServerRuns.ReachableCountsAgree` | sources/controller/controller.go:343-438 | counted out: a variable lists a client exactly as often as the client lists the variable's full name |
| `ServerRuns.ReachableRecords` | sources/controller/controller_clienthelper.go:85-99 | in every reachable state the client counter is the number of ids on record, every counter is the length of its list, and nothing malformed is listed |
| `ServerRuns.NoOrphans` | sources/controller/controller.go:430-438 | so right after a client is removed no variable lists it |
| `StopMismatch.MismatchedStopOrphans` | sources/controller/controller.go:366-372 | a client with one entry that stops a pair it does not hold is still listed after it is removed |
| `StopMismatch.ObserveThenMismatchedStop` | sources/controller/controller.go:343-372 | two calls reach such a state |
| `StopMismatch.OrphanReachable` | sources/controller/controller.go:343-438 | a run of three operations from an empty store ends with a variable that lists a client just removed |
| `StopMismatch.StepKeepsDistinct` | sources/controller/controller_varhelper.go:100-187 | with a complete index no step of the server puts an entry on a list twice |
| `StopMismatch.RunsStayComplete` | sources/controller/controller_varhelper.go:100-187 | when a client only ever stops the last tag it has on a variable, every listed pair stays indexed and no two slots of a list hold the same pair |
| `StopMismatch.ObservingIsMembership` | sources/controller/controller_varhelper.go:323-325 | so in such runs the membership test is list membership |
| `StopMismatch.IndexInverse` | sources/controller/controller_varhelper.go:89-106 | and list and index are inverse to each other: every slot's pair is in no other slot and indexed under that slot's number |
| `Controller.TheController.ObserveVar` | sources/controller/controller.go:343-363 | from any reachable state, whatever was stopped before: checks the index, enlists, records both sides, tells the current values, and refreshes or gives up on the client; each record stays well kept and, if the two agreed, they agree |
| `Controller.TheController.StopObservingVar` | sources/controller/controller.go:366-372 | is the stop of the runs, from any reachable state; if the two records agreed they still do exactly when the stop matched |
| `Controller.TheController.ClientConnected` | sources/controller/controller.go:380-388 | enlists the client, under a fresh id if it brought none, and counts its subscriptions |
| `Controller.TheController.Notify` | sources/controller/controller.go:421-427 | a client that answers is refreshed; one that does not is deleted only if it was silent too long; so it does nothing, or what a sighting does, or what a removal does |
| `Controller.AfterNotifyExactly` | sources/controller/controller.go:421-427 | a client that was reached or answers a ping gets a new sighting and nothing else; one that does not is off the registry and off its variables if it was silent too long, and untouched if not |
| `Controller.TheController.DeleteClient` | sources/controller/controller.go:430-438 | reads the list, removes the record, then purges each variable: afterwards the client is off exactly the variables its list named, and off every variable if the records agreed |
| `Controller.TheController.TellObserver` | sources/controller/controller.go:496-514 | a client whose API is unknown is dropped, any other told |
| `Controller.TheController.LockVar` | sources/controller/controller.go:308-317 | locks as the helper does; under a name that is a variable's the reachable-state invariant holds again and no answer about subscriptions changes |
| `Controller.TheController.UnlockVar` | sources/controller/controller.go:319-328 | likewise for unlocking |
| `Controller.TheController.SetVar` | sources/controller/controller.go:118-173 | each refusal exactly, as conditions on the cleaned name, the three limits and the lock; a name of letters, digits, `.`, `_`, slashes, `,` and `-` that is external, within the limits and unlocked is written under itself; an accepted write changes no answer about subscriptions or locks |
| `Controller.TheController.ReadFromDb` | sources/controller/controller.go:193-218 | the recursion ends for every name, and tells every valued name it spells through visible children once, descendants before ancestors, whatever nodes those names denote |
| `Controller.TheController.GetVars` | sources/controller/controller.go:188-253 | an empty name and an inner wildcard are refused; a name that ends in `*` answers with that read of its base, or with the default alone; below all bases but `vars`, the empty one and those that end in a dot that is everything within reach |
| `Reading.StripWildcard` | sources/controller/controller.go:226-244 | takes off the final wildcard and up to two dots before it, and refuses a wildcard that does not end the name |
| `Reading.BaseExactly` | sources/controller/controller.go:226-244 | which names are read below a base `n`: `n..*`, and, if `n` does not end in a dot, `n.*` and `n*`; so `*` reads everything |
| `Controller.TheController.DelVar` | sources/controller/controller.go:256-289 | deletes exactly what the read returned, one by one; the same read then tells nothing, whatever the name; whether bookkeeping, and whether records of subscriptions, are spared is stated exactly, and what stays as it was |
| `Walks.WalkReads` | sources/controller/controller.go:193-218 | where children can be spelled, what a read tells is everything within reach below, under the names of the nodes |
| `Misreads.DottedRightExactly` | sources/controller/controller.go:193-218 | a read of a name that ends in a dot returns the right nodes exactly when nothing but the node itself is within reach, and nothing where the read looks for its children |
| `Misreads.VarsRightExactly` | sources/controller/controller.go:193-218 | likewise for `vars`, whose children are spelled like top-level variables |
| `Misreads.TopRightExactly` | sources/controller/controller.go:193-218 | and for the empty name, which reads everything: the right nodes exactly when `vars` hangs below `vars.vars` or nothing there is within reach |
| `Walks.SparesExactly` | sources/controller/controller.go:256-289 | a whole delete spares the bookkeeping exactly when its base has no hidden word, or it does nothing at all |
| `Walks.SparesRecordsExactly` | sources/controller/controller.go:256-289 | and the records of subscriptions exactly when its base has no word `_observers`, or it does nothing at all |
| `HiddenDeletes.DeletedCountHidesObservers` | sources/controller/controller.go:256-289 | deleting `n._observers.list.count` after a recorded observation leaves a client counted as observing on a variable without observers: the invariant is gone |
| `HiddenDeletes.DeletedFlagUnlocks` | sources/controller/controller.go:256-289 | deleting `n._lock` unlocks `n`, whoever locked it |
| `Reading.DeletedAnswersDefault` | sources/controller/controller.go:256-289 | after `DelVar(p.*)` a read of `p.*` answers with the default alone |
| `Controller.TheController.GetChildsOfVar` | sources/controller/controller.go:292-304 | the visible children, or none for a wildcard |
| `Controller.TheController.GetVarInternal` | sources/controller/controller.go:519-541 | a new observer is told the value, if there is one, and every visible child, valued or not |
| `Reading.TellsExactly` | sources/controller/controller.go:519-541 | the names and values it is told, written out, each once |
| `Wildcard.SpelledExactly` | sources/controller/controller.go:192-224 | a name told below `n` is `n`, a dot and the words below, dotted; below the empty name the words alone |
| `Walks.WalkedBelow` | sources/controller/controller.go:204-210 | below such a name, the names spelled by appending words denote the nodes below, one by one |
| `Walks.WalkStep` | sources/controller/controller.go:209-215 | putting a child's answers in front keeps descendants before ancestors and every name single |
| `Wildcard.ClearedEffect` | sources/controller/controller.go:275-283 | deleting deepest first empties every listed path, keeps its node exactly when something not listed hangs below, and touches nothing else |
| `Walks.NothingTold` | sources/controller/controller.go:256-289 | after deleting what a read tells, the same read tells nothing |
| `Writes.GetOnly` | sources/misc/misc.go:12-20 | keeps the allowed characters, in order |
| `Writes.AllowedExactly` | sources/controller/controller.go:121 | the characters a name may hold, one by one: letters, digits, `.`, `_`, both slashes, `,`, `-` and `*` |
| `Writes.PlainName` | sources/controller/controller.go:118-129 | a name of these characters with no underscore at the start of a word is taken as it is |
| `Writes.LimitExactly` | sources/controller/controller.go:141-153 | a word of exactly the limit's length fits, a longer one does not, and a limit of zero or less refuses none |
| `Writes.WrittenThere` | sources/controller/controller.go:155-166 | what is written without a star is found under the name below `vars` |
| `Writes.KeptIsClean` | sources/misc/misc.go:12-20 | every occurrence of an allowed character and no other |
| `Writes.KeptInOrder` | sources/misc/misc.go:12-20 | piece by piece, so in order |
| `Writes.CleanStays` | sources/misc/misc.go:12-20 | a name of allowed characters is left as it is |
| `Writes.NodeIsMeta` | sources/controller/controller.go:126-129 | a name's node is bookkeeping exactly when the name has a hidden word |
| `Writes.ContainsUnderscoreDot` | sources/controller/controller.go:175-183 | finds a dot followed by an underscore |
| `Writes.InternalNames` | sources/controller/controller.go:126-129 | the two character tests reject exactly the names with a word that starts with an underscore |
| `Writes.EachWordFits` | sources/controller/controller.go:141-153 | accepts exactly the names all of whose words are within the limit, if there is one |
| `Writes.WriteSparesMeta` | sources/controller/controller.go:155-167 | an accepted write changes the value of one path under `vars` without hidden words or wildcards, and no bookkeeping |
| `ServerRuns.WriteRunSparesMeta` | sources/controller/controller.go:118-173 | over any run of accepted writes only such paths change value, and every record and answer stays |
| `Notifications.LastDotIndex` | sources/controller/controller.go:467-474 | the last dot, or -1 |
| `Notifications.LastDotCutsWord` | sources/controller/controller.go:457-465 | cutting at the last dot takes off the last word |
| `Notifications.EnclosingOnce` | sources/controller/controller.go:457-465 | the climb consults each proper word-prefix with `.*` exactly once |
| `Notifications.ConsultedExactly` | sources/controller/controller.go:441-465 | each pattern that is the name or `q.*` for a word-prefix `q` is consulted once and no other, exactly when the changed name is not itself such a pattern |
| `Notifications.ConsultedLists` | sources/controller/controller.go:441-465 | no two consulted patterns share an observer list, the variable `vars` included |
| `Notifications.NotifyClientsAboutVarChange` | sources/controller/controller.go:477-496 | one notice per reported observation, in any order |
| `Notifications.NotifyParentGenericObservers` | sources/controller/controller.go:457-465 | the climb on the node graph tells every observation under each enclosing pattern once |
| `Notifications.HearsExactly` | sources/controller/controller.go:436-465 | the patterns that hear of a change of `n`, character by character: `n` itself, and `q.*` for every `q` that is `n` or stands before one of its dots |
| `Notifications.NotifyVarModification` | sources/controller/controller.go:441-454 | each observation whose pattern hears of the change is told exactly once, and nobody else |
| `NamedLock.LockTable.AcquireLookup` | sources/misc/namedlock.go:16-25 | finds the name's channel or makes one with its token |
| `NamedLock.LockTable.Receive` | sources/misc/namedlock.go:27-33 | takes the token |
| `NamedLock.LockTable.ReleaseLookup` | sources/misc/namedlock.go:39-45 | finds the channel the token goes back to |
| `NamedLock.LockTable.Send` | sources/misc/namedlock.go:47-50 | puts the token back unless the channel is full |
| `NamedLock.StepKeepsInv` | sources/misc/namedlock.go:16-60 | every step of every call keeps one token per name |
| `NamedLock.TokenConserved` | sources/misc/namedlock.go:16-60 | in every interleaving, with any timeouts, a name's tokens and the calls between acquire and release add up to one |
| `NamedLock.BodiesExclude` | sources/misc/namedlock.go:53-60 | bodies under one name never overlap |
| `NamedLock.DefaultNeverTaken` | sources/misc/namedlock.go:47-50 | the non-blocking default of a release is never taken |
| `NamedLock.TimeoutsLoseNothing` | sources/misc/namedlock.go:31-36 | a waiting call can take the token exactly when nobody holds it, however many gave up before |
| `NamedLock.UndisturbedCall` | sources/misc/namedlock.go:14-60 | a call on a name nobody holds gets through all its steps if nobody comes between, leaves its token behind and no other token touched |
| `VarLock.MoveKeepsSafe` | sources/controller/controller_varhelper.go:282-321 | every step of every attempt and unlock keeps the invariant: a flag is set by one attempt at a time, and whatever was locked last reads as locked |
| `VarLock.LocksExclude` | sources/controller/controller_varhelper.go:282-321 | in every interleaving an unlock of the variable lies between any two successful locks of it |
| `VarLock.FlagExactly` | sources/controller/controller_varhelper.go:276-321 | in every interleaving a variable's flag reads as locked exactly when the last thing that happened to it was a lock, or it started out locked and nothing happened, or a lock of it is between its set and its re-read |
| `VarLock.AttemptSucceedsExactly` | sources/controller/controller_varhelper.go:282-302 | an attempt that comes to its end has succeeded exactly when, at its test, the last thing that had happened to the variable was no lock and it had not started out locked with nothing since |
| `VarLock.AttemptAlone` | sources/controller/controller_varhelper.go:290-302 | an attempt that nobody disturbs always comes to its end, and succeeds if the variable is free |
| `VarLock.UnlockAlone` | sources/controller/controller_varhelper.go:314-321 | an unlock that nobody disturbs always comes to its end and clears the flag, whoever set it |
| `VarLock.RereadSucceeds` | sources/controller/controller_varhelper.go:293-296 | an attempt that found the flag clear reads its own write back |
| `NestedJson.InsertBuilds` | sources/services/apis/httpapi/httpapi.go:423-464 | inserting a variable, below the base or the base itself, into the object of some makes the object of one more, or with a new value if it was there |
| `NestedJson.AllBuilt` | sources/services/apis/httpapi/httpapi.go:176-232 | inserting variables one after the other makes the object of all of them |
| `NestedJson.OrderIrrelevant` | sources/services/apis/httpapi/httpapi.go:423-464 | every insertion order makes the same object |
| `NestedJson.Lossless` | sources/services/apis/httpapi/httpapi.go:423-464 | reading the object back gives exactly the variables put in, own values taken from under `_value`, and it holds no value besides |
| `NestedJson.SitsExactly` | sources/services/apis/httpapi/httpapi.go:423-464 | where everything sits, with the key written out: a value at its path, or under `_value` when other variables lie below, and an object wherever something lies below |
| `NestedJson.OwnValue` | sources/services/apis/httpapi/httpapi.go:442-459 | a variable with others below it keeps its value under `_value`, where no other variable's value can be |
| `NestedJson.GoodPathsExactly` | sources/services/apis/httpapi/httpapi.go:216 | variables are all paths of non-empty words other than `_value`, and the base itself, which is inserted as `_value` |
| `NestedJson.EmptyWordSkipped` | sources/services/apis/httpapi/httpapi.go:427-429 | an empty word before others is passed over |
| `NestedJson.FinalEmptyStoresNothing` | sources/services/apis/httpapi/httpapi.go:450-453 | a name that ends in an empty word stores no value |
| `JsonDocuments.JsonDocument.InsertNested` | sources/services/apis/httpapi/httpapi.go:423-464 | the walk over mutable maps has exactly the modelled effect, for every list of words, empty ones included, and keeps the maps a tree |
| `JsonDocuments.JsonDocument.InsertEach` | sources/services/apis/httpapi/httpapi.go:176-232 | the loop over the answers builds the object of all of them in place, the later of two for one path counting |
| `ArrayShape.NormalizeArrays` | sources/services/apis/httpapi/httpapi.go:469-514 | each object keeps all its children or becomes an array with each child in the slot its key names and no slot without one; an object with a key that is no number keeps its keys |
| `ArrayShape.Shape` | sources/services/apis/httpapi/httpapi.go:478-505 | an object becomes an array exactly when the keys happened to be visited counting up from zero, and never if a key has a character that is neither a digit nor a sign in front |
| `ArrayShape.ArrayKeys` | sources/services/apis/httpapi/httpapi.go:485-505 | in an array every child stands at the number its key spells in digits |
| `ArrayShape.StrangeKeyStays` | sources/services/apis/httpapi/httpapi.go:473-505 | an object with a key that is no number keeps all its keys when it is normalised, and its children are normalised below them |
| `ArrayShape.OneKeyExactly` | sources/services/apis/httpapi/httpapi.go:485-505 | an object with one child becomes an array exactly when its key is zero, with any sign and any number of zeros |
| `ArrayShape.ObjectlessStays` | sources/services/apis/httpapi/httpapi.go:506-513 | what has no object in it, arrays included, is left exactly as it is |
| `ArrayShape.FillSlots` | sources/services/apis/httpapi/httpapi.go:499-505 | indexing stays in range in whatever order the children are placed |
| `ArrayShape.Recoverable` | sources/services/apis/httpapi/httpapi.go:469-514 | with canonical decimal keys the original is recoverable from every outcome |
| `Framing.TakeLines` | sources/services/apis/vstp/vstp.go:142-151 | takes off all complete lines, in order, without their carriage returns |
| `Framing.FirstLine` | sources/services/apis/vstp/vstp.go:142-151 | the first line is what stands before the first line end, less the carriage returns at its end, and the rest is cut in the same way |
| `Framing.LinesContinue` | sources/services/apis/vstp/vstp.go:138-154 | more bytes finish the line left over and begin others |
| `Framing.ReadsAreOneRead` | sources/services/apis/vstp/vstp.go:138-154 | reading in pieces takes the lines of the whole and leaves its leftover |
| `Framing.DivisionIrrelevant` | sources/services/apis/vstp/vstp.go:138-154 | any two divisions of the same bytes take the same lines in the same order and leave the same buffer |
| `Sessions.VSTP.OnClientConnect` | sources/services/apis/vstp/vstp.go:81-95 | records the connection under its new id both ways, with an empty buffer |
| `Sessions.VSTP.OnClientDisconnect` | sources/services/apis/vstp/vstp.go:105-124 | afterwards no id leads to the connection; with true records the scanning fallback removes nothing |
| `Sessions.VSTP.OnClientData` | sources/services/apis/vstp/vstp.go:138-154 | extends the connection's buffer and takes its lines |
| `Sessions.VSTP.ChangeOrConfirmId` | sources/services/apis/vstp/vstp.go:364-380 | moves the connection to the id it asked for |
| `Sessions.VSTP.IdForSubscription` | sources/services/apis/vstp/vstp.go:302-309 | a connection without an id gets one |
| `Sessions.RenameKeepsExactly` | sources/services/apis/vstp/vstp.go:366-380 | changing the id keeps mapped ids recorded ones exactly when the connection does not leave an empty id behind |
| `Sessions.IdentifyKeepsExactly` | sources/services/apis/vstp/vstp.go:302-309 | likewise for the id given at a subscription |
| `Sessions.DisconnectForgets` | sources/services/apis/vstp/vstp.go:108-111 | even if another connection had taken the id over |
| `Sessions.MoveFindsExactly` | sources/services/apis/vstp/vstp.go:81-124 | a move leaves every connection reachable under its recorded id exactly when it gives nobody an id that belongs to another |
| `Sessions.ReachableExactly` | sources/services/apis/vstp/vstp.go:81-124 | over a whole run without empty ids: everyone is reachable in every state exactly when no move takes an id over |
| `Sessions.TakeoverIsLost` | sources/services/apis/vstp/vstp.go:105-111 | a connection that took an id over is lost when the one it took it from leaves |
| `Sessions.ScanFindsNothing` | sources/services/apis/vstp/vstp.go:112-121 | the fallback has nothing to find |
| `Sessions.RunsKeepIdsTrue` | sources/services/apis/vstp/vstp.go:91-123 | in every run without empty ids asked for, an id mapped to a connection is that connection's recorded id |
| `Sessions.EmptyIdStays` | sources/services/apis/vstp/vstp.go:366-380 | asking for the empty id and then another leaves the connection reachable under the empty id after it is gone |
| `Sessions.ClientsDoNotMix` | sources/services/apis/vstp/vstp.go:138-154 | however reads of different clients interleave, each client's lines are those of everything it sent |

## Left out

- Networking, HTTP and WebSocket handlers, TLS, the configuration layer, logging, the name generator and terminal helpers: input and output only.
- Reading and writing the dump file: the model has the text produced and consumed, a missing or unreadable file, and a write that fails altogether; when the ticker fires is left open.
- The clock, backoff and timeout lengths: times are texts handed in, "silent too long" is an input, a timeout may come at any step.
- Timeouts of the named locks around store operations: an operation whose lock times out silently does nothing; the operations are modelled as run, one at a time.
- The lock check and the write in `SetVar` are separate steps in the server; no claim is made that no write lands while a variable is locked.
- Raw database access mode, names that start with `vars.`, and variables with a word `_observers`: they alias other entries.
- `RemoveAllObservations`, `GetMetadatasOfAClient`, `ForEachChilds`, `ForEachChildsParallel`, `GetParentName` and the generic flag setters: unused or easy.
- No claim is made that the client list stays the inverse of the recorded positions: the code does not renumber them, so over whole runs only the count is proved to stay right.
- Values as types: a value is its text; JSON parsing and float or bool inference are not part of this model, and counters are not cut to 64 bits.
- Text is a sequence of characters; the server's bytes are taken to be one character each.
- The one recursive tree walk with a read-only flag is modelled as two methods, `FindNode` and `MakeNode`.
- Controller.TheController.SetVar: the change notice is a separate step that runs after the write, modelled as Notifications.NotifyVarModification.
- Controller.TheController.ClientConnected: the update sent to the client that connects is not modelled; it is notifications like the one in `Notify`, with no new effect on the store.
- Keys.PathOfInjective: for client ids and tags without dots, because with dots it is false; Collisions.EntriesShareExactly is the general statement.
- VarHelper.ControllerVarHelper.RegisterObservation: requires a counter that is not negative, as it is in every state of the runs proved here.
- ClientHelper.ControllerClientHelper.constructor: likewise for the number of clients.
- ClientHelper.ControllerClientHelper.Initialize: likewise.
- ClientHelper.ControllerClientHelper.RegisterNewObservation: likewise for the number of the client's variables.
- ClientHelper.ControllerClientHelper.RemoveClientFromObservationSystem: likewise, and positive when the client is listed.
- ServerRuns.EffectKeepsSound: restarts are from states the dump can carry, and deletes spare the records, because otherwise it is false; LineEnds.LineEndAssigns and HiddenDeletes.DeletedCountHidesObservers are the inputs.
- ServerRuns.ReachableIndexTrue: likewise.
- NamedLock.LockTable.TimeOut: changes ghost state only, since giving up changes nothing another call can see.
- ArrayShape.NormalizeArrays: works on values, so the maps it rewrites in place, and arrays shared between places, are not captured; the array of slots is a real one.
- JsonDocuments.JsonDocument.InsertNested: values are plain text, so an array already present in the object is not modelled.
- Sessions.VSTP.OnClientData: requires a connection the server has a buffer for; the branch for unknown connections takes the clients' lock while it holds it, and is not modelled.
