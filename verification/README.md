# Shorty, modelled and proved

A Dafny 4.11 model of the stateful core of the shorty URL shortener: the delayed-batch
queue, the memory store and its file persistence, shortening and resolving over that store,
the logging response writer, the `os.Exit` analyzer and the subnet filter.
`dafny verify dfyconfig.toml` checks everything.

## What is modelled

**The delayed-batch queue** (`Flusher*.dfy`). Any number of `Push` calls and one `Run` loop
share a mutex, a wake-up channel of capacity one and two atomic flags. `FlusherProtocol` gives
each of them a program counter and lets every load, store, send, receive, lock and unlock be
one action; a run is any sequence of enabled actions, so statements about `Exec` and
`Reachable` are about every interleaving. The timer branch may fire at any moment. Nothing is
assumed of the configured flush size: a size below one behaves like one. `FlusherTheorems`
proves conservation and order, that no wake-up is lost, that nothing but a cancellation shuts
the queue down, and what shutdown leaves behind. The
queue is *not* free of deadlock: a flush may lower `flushNeed` while a token lies in the
channel, and a later `Push` then sends on a full channel with the mutex held. The stuck states
are characterised exactly, they are shown to be final and to need such a flush; and the states
from which they can still be reached are decided exactly too (`FlusherWedges`): every state
before shutdown is one, for every flush size. So are the states from which no further flush can
happen, and those from which shutdown can leave elements behind. `FlusherSlice` is the object itself over a Go slice (array, length, capacity); its
methods are tied to the same state functions, so that a batch handed to the callback is shown
never to be written again.

**The store** (`MemoryDb.dfy`, `MemoryStore.dfy`). The map with tombstones, ownership and
all-or-nothing batches: what each operation makes of it, and laws over whole runs of
operations by any users. `DelayedDelete.dfy` composes it with the queue, and says when a delete
may wait while other operations go by.

**Persistence** (`RecordFile.dfy`, `Persister*.dfy`). The line format with its loader, and the
concurrent persistence loop: mutating calls edit the map entry by entry under the mutex, the
dump copies it key by key in any order, and a `changed` flag connects them. Updates *can* be
lost: a call that sets `changed` after the dump has passed it by, and before the loop clears
the flag, is reported as successful and never reaches the file, even through an orderly
`Close`. That is shown for any loaded database, and a run loses an update exactly when the loop
clears the flag behind such a call. What the file holds after `Close` is decided exactly too,
in terms of the state at the store of `shutdown` (`PersisterClosing.dfy`), and what makes the
loop end, and that it can, in `PersisterProgress.dfy`. `DeletesToFile.dfy`
runs queue and file store together under one context, as `internal/app/app.go` does: every
flushed batch is one version of the store or was refused whole, and although `Close` waits for
the queue's loop, the last flush can always be refused.

**Shortening** (`Resolver.dfy`, `Shortener.dfy`). Key generation, path validation, lookup, the
retry loop, batches, and the queueing of deletes.

**The smaller machines.** `ResponseWriter.dfy`: the header that is held back until the first
body byte, through panics and write errors. `ExitCheck.dfy`: the preorder walk with its mutable
flag. `Filter.dfy`: the list parser and the nested subnet loop.

Random draws, UUIDs, `url.Parse`, JSON, base64 and the address library are parameters, and so
is every answer of the underlying HTTP writer. Strings stand for byte strings.

Where the code and its own comments disagree the model follows the code:

- `internal/filter/filter.go:54` says that without trusted subnets every request matches;
  the code matches none (`Filter.Filter.CheckRequestParams`).
- `internal/analyzers/exitcheck/exitcheck.go:15` speaks of calls inside main; the code also
  reports those in a method named main, and in a variable declaration between main and the
  next function (`ExitCheck.NestedExactly`).

## Model

| member | source | states |
|---|---|---|
| FlusherInvariant.InvStep | internal/buffer/buffer.go:57-106 | every action of every thread keeps the invariants relating mutex, flag, channel, program counters, lock order and queue contents |
| FlusherInvariant.InvReachable | internal/buffer/buffer.go:41-106 | the invariants hold in every reachable state of every interleaving |
| FlusherTheorems.ShutdownNeedsCancel | internal/buffer/buffer.go:57-88 | in every run without a cancellation the queue does not shut down: Run neither stops nor returns, and no Push is refused |
| FlusherTheorems.TokensBalance | internal/buffer/buffer.go:65-84 | in every run the sends of Push are the receives of Run plus the token in the channel: each wake-up is received once, and only through its branch |
| FlusherTheorems.ConservationInOrder | internal/buffer/buffer.go:57-106 | flushed batches followed by the buffer are the pushed elements in lock order, each once; size is their number; no batch is empty; every call that returned nil is among them |
| FlusherTheorems.NoLostWakeup | internal/buffer/buffer.go:65-99 | with the mutex free, flushNeed holds exactly when the buffer is full enough, and then a token is in the channel or Run has received it and is on its way into doFlush |
| FlusherTheorems.TokenPathUnblocked | internal/buffer/buffer.go:65-99 | once Run has received from the channel, no Push is blocked in its send until that flush is done, even if the token was stale |
| FlusherTheorems.HeadingReachesFlush | internal/buffer/buffer.go:82-99 | a Run that needs the mutex for doFlush gets it when the holder alone takes its remaining steps, five at most, and then Run its lock; no other call moves; this works after a receive always and otherwise unless the holder is bound to send on the full channel |
| FlusherTheorems.StuckExactly | internal/buffer/buffer.go:57-106 | the reachable states in which unfinished threads cannot move are exactly those where a Push holds the mutex at its send over a full channel with the flag down, Run came by timer or context or has returned, and every other call waits for the mutex or has finished |
| FlusherTheorems.WedgedForever | internal/buffer/buffer.go:57-106 | nothing leads out of such a state: the mutex never changes hands, nothing more is flushed, no further Push returns nil, whoever calls |
| FlusherTheorems.WedgeNeedsStaleToken | internal/buffer/buffer.go:65-67 | a run in which doFlush never lowers the flag over a waiting token does not get there |
| FlusherWedges.WedgePossibleExactly | internal/buffer/buffer.go:57-106 | a wedge can still be reached from a reachable state if and only if shutdown is not stored yet, or the waiting calls suffice: to fill the buffer over the token present, or, where the flag is up or the last flush has the mutex, to fill an empty one over the token it leaves, or, without a token, to do the one and then the other |
| FlusherWedges.BackStep | internal/buffer/buffer.go:57-106 | no action of any thread makes a wedge reachable that was not |
| FlusherWedges.NextStep | internal/buffer/buffer.go:57-106 | after the store of shutdown, while a wedge can be reached, the mutex holder, Run or a waiting call has a step that brings it nearer |
| FlusherTheorems.FlushPossibleExactly | internal/buffer/buffer.go:57-106 | in every reachable state before the last flush, some continuation flushes if and only if it is not the case that Run has left select by timer or context while the holder of the mutex, past its lock, is to send on a full channel with the flag down |
| FlusherTheorems.ShutdownLeftovers | internal/buffer/buffer.go:58-88 | when Run has returned, the flushed batches are a prefix in lock order that includes everything locked before shutdown was stored; the rest belongs to calls that were then past the check and waiting for the mutex |
| FlusherTheorems.CleanShutdown | internal/buffer/buffer.go:58-88 | with no call waiting at that store, the buffer ends empty and the batches are exactly the elements of the calls that return nil, in lock order |
| FlusherTheorems.LeftoverPossible | internal/buffer/buffer.go:58-88 | from any such store whose last flush is still possible, each call waiting there can be the one whose element stays in the buffer after Run has returned, whoever holds the mutex |
| FlusherTheorems.LeftoverExactly | internal/buffer/buffer.go:58-88 | in every reachable state before that store, some run to Run's return leaves elements in the buffer if and only if a call is waiting for the mutex and the last flush is still possible |
| FlusherTheorems.DoFlushAlone | internal/buffer/buffer.go:94-106 | a doFlush without interruption moves the buffer into a batch, lowers the flag and goes back to select, or returns after the context branch |
| FlusherSlice.Flusher.constructor | internal/buffer/buffer.go:41-54 | a new queue is the initial shared state of the protocol |
| FlusherSlice.Flusher.AppendElem | internal/buffer/buffer.go:63-64 | append, in place or into a larger array, adds one element and changes no batch already handed over |
| FlusherSlice.Flusher.Push | internal/buffer/buffer.go:57-70 | the method does to the slice what an uninterrupted Push of the protocol does to the shared state, including refusal and the blocked send |
| FlusherSlice.Flusher.DoFlush | internal/buffer/buffer.go:94-106 | the handed slice keeps its array and length, the queue continues on another array, the flag is down |
| FlusherSlice.Flusher.Drive | internal/buffer/buffer.go:57-106 | no sequence of Push and doFlush writes to any array handed to the callback before it, spare capacity included |
| FlusherSlice.PushAloneIsRun | internal/buffer/buffer.go:57-70 | the function that specifies Push is a run of the protocol, and its blocked outcome is a send that is not enabled |
| MemoryDb.KeyedAlways | internal/storage/memory/simple.go:51-128 | every record stays filed under its own short URL through any operations |
| MemoryDb.StoreExactly | internal/storage/memory/simple.go:51-68 | one store, for every input: which error, exactly when, and otherwise a new record with each given field, all other keys as they were |
| MemoryDb.PrepareFailsAtFirst | internal/storage/memory/simple.go:108-119 | a batch fails with the error of its first refused entry, whose key is tested before its UUID is drawn |
| MemoryDb.DeleteAllExactly | internal/storage/memory/simple.go:88-102 | deleting in sequence marks exactly the keys some entry names for their owner in the database as it was, changes nothing else, and counts the hitting entries |
| MemoryDb.DeleteCountExactly | internal/storage/memory/simple.go:88-102 | the count is the number of entries that, in the database as it was, name a key on behalf of its owner |
| MemoryDb.DeleteConcat | internal/storage/memory/simple.go:88-102 | deleting a concatenation is deleting the parts in turn, and the counts add |
| MemoryDb.DeleteOrderFree | internal/storage/memory/simple.go:88-102 | neither the database nor the count depends on the order of the entries |
| MemoryDb.DeletePastStoreExactly | internal/storage/memory/simple.go:51-102 | delaying one delete past one store, overwriting or not, changes the result exactly when the store gets a UUID, both name the same key and the entry's user owns it once the store has been tried |
| DelayedDelete.DeletePastBatchExactly | internal/storage/memory/simple.go:88-128 | delaying one delete past one batch changes the result exactly when the batch names the key, gets its UUIDs and finds none of its other keys live, and the entry's user owns the key if it is live, or has the batch's last entry for it if it is not |
| DelayedDelete.DelayPastRun | internal/services/shortener/batch.go:70-100 | deletes may wait while any operations of any users go by that store none of their keys: final map and outcome of each operation are those of deleting at once |
| MemoryDb.LiveStep | internal/storage/memory/simple.go:37-128 | one operation keeps a live record as it is, or marks it deleted, and the latter exactly when it contains an entry with that short for the owner |
| MemoryDb.LiveUntilDeleted | internal/storage/memory/simple.go:37-128 | over whole runs, a URL that Get serves is served unchanged until the first delete entry for its owner, and that entry ends it |
| MemoryDb.KeysStay | internal/storage/memory/simple.go:51-128 | keys never leave the map |
| MemoryDb.BatchAgainstStores | internal/storage/memory/simple.go:105-128 | for any batch, storing one by one succeeds exactly when the batch does and its shorts are distinct; for distinct shorts both agree, errors included |
| MemoryDb.BatchLastWins | internal/storage/memory/simple.go:105-128 | after a successful batch each short holds its last entry with that entry's UUID, and all other keys are unchanged |
| MemoryStore.CountStats | internal/storage/memory/db/db.go:33-50 | for any map order the counters are the number of URLs and the number of users with a URL that is not deleted |
| MemoryStore.Memory.Get | internal/storage/memory/simple.go:37-48 | not-found exactly for an absent key, deleted exactly for a tombstone, otherwise the original URL |
| MemoryStore.Memory.Store | internal/storage/memory/simple.go:51-68 | the new map and the error, with existence checked before the UUID is drawn |
| MemoryStore.Memory.StoreBatch | internal/storage/memory/simple.go:105-128 | the two loops store all entries or leave the map as it was, with the first error |
| MemoryStore.Memory.DeleteUserURLs | internal/storage/memory/simple.go:88-102 | the loop's map is that of deleting entry by entry, and its count the number of entries that named a key on behalf of its owner |
| MemoryStore.Memory.ListUserURLs | internal/storage/memory/simple.go:71-85 | lists each record of the user once, deleted ones included, in some order |
| MemoryStore.ListsExactly | internal/storage/memory/simple.go:71-85 | such a list has as many entries as the user has records, holds one for each, and no other |
| MemoryStore.Memory.Dump | internal/storage/memory/simple.go:131-137 | the copying loop, visiting the keys in any order, ends with every record of the map under its key and nothing else |
| DelayedDelete.BatchingIrrelevant | internal/services/shortener/batch.go:92-100 | running the callback on any batches is one deletion of everything in them, counts included |
| DelayedDelete.FlushedDeletesAreImmediate | internal/services/shortener/batch.go:70-100 | in every reachable state of the queue the store is as if the elements that left it had been deleted one by one in lock order |
| DelayedDelete.CleanShutdownDeletesAll | internal/services/shortener/batch.go:70-100 | after a shutdown of the queue with no call waiting, the memory store is as if every accepted delete had been applied at once, in any order |
| RecordFile.NewURLRecordFromBytes | internal/storage/memory/db/db.go:62-77 | succeeds exactly when the line decodes to a record whose UUID, URL and user id pass, and returns that record; otherwise the error says which test failed first |
| RecordFile.ReadURLsFromFile | internal/storage/file/file.go:194-231 | for any content, cut at its newlines and each line short of its last byte: it loads exactly when every line decodes and passes the checks, each short URL then being bound to its last record; otherwise it fails with the error of the first line that does not |
| RecordFile.LoadOutcome | internal/storage/file/file.go:194-231 | the same of the loading function, whatever the content |
| RecordFile.CutUnique | internal/storage/file/file.go:207-231 | the lines of a content are determined |
| RecordFile.DumpDB2File | internal/storage/file/file.go:172-192 | for any map order, writes each record once, one to a line |
| RecordFile.LoadLines | internal/storage/file/file.go:182-231 | reading written lines files the records in order, and fails exactly when one is not valid |
| RecordFile.RoundTripExactly | internal/storage/file/file.go:172-231 | for any map order, loading a dumped file gives the database back if and only if it is keyed by short URL and every record is valid |
| PersisterProtocol.EditsAreOp | internal/storage/memory/simple.go:51-128 | the single assignments that an operation makes under the mutex add up to the operation |
| PersisterInvariant.InvStep | internal/storage/file/file.go:99-192 | every action of every thread keeps the invariants relating mutex, versions, copy, file and flags |
| PersisterProgress.ShutdownNeedsCause | internal/storage/file/file.go:98-156 | in every run without a cancellation and without a call of Close the store does not shut down: the loop goes on and no call is refused |
| PersisterProgress.EndPossibleExactly | internal/storage/file/file.go:98-156 | from a reachable state, calls, loop and Close can bring the loop to its end by themselves if and only if the context is cancelled or Close has been called |
| PersisterProgress.CloseCanReturn | internal/storage/file/file.go:98-102 | from every reachable state in which Close waits, steps of calls, loop and Close alone can let it return |
| PersisterProgress.FailingDumpTears | internal/storage/file/file.go:158-192 | failing I/O after the truncation ends that dump with the file torn and changed still set, and after shutdown for good |
| PersisterProgress.FailingOpenKeeps | internal/storage/file/file.go:158-176 | failing to open the file ends that dump with the file as it was and changed still set |
| PersisterProgress.SignalBalance | internal/storage/file/file.go:98-151 | in every run of one Close its signal is sent once and received by the loop once at most |
| PersisterTheorems.VersionsAreSerial | internal/storage/file/file.go:105-139 | every version of the map is the result of one whole operation on the one before, under any interleaving |
| PersisterTheorems.DumpIsSnapshot | internal/storage/file/file.go:172-192 | every completed dump, and the file, is one version that existed at one instant, and successive dumps never go back |
| PersisterTheorems.NeverStuck | internal/storage/file/file.go:99-170 | in every reachable state with an unfinished call, loop or Close, one of them can move |
| PersisterTheorems.UpdatesLostExactly | internal/storage/file/file.go:105-170 | a run, failing I/O included, comes through a state in which a reported update (a version of the map, a delete that hits nothing included) is neither in the file nor announced by changed if and only if it clears changed after a call has set it for a later version since that dump's copy was complete |
| PersisterTheorems.NoUpdateLost | internal/storage/file/file.go:105-170 | in a run without such a clearing, whenever the file differs from the map either changed is set or a call is between its first edit and setting it |
| PersisterTheorems.OvertakeLoses | internal/storage/file/file.go:105-170 | whenever a call can set changed behind a dump, the run can end in order with that call's reported update missing from the file |
| PersisterTheorems.LostUpdateReachable | internal/storage/file/file.go:105-170 | from any loaded database, two stores of fresh keys can both report success and the loop end in order with only the first in the file |
| PersisterClosing.FinalFileExactly | internal/storage/file/file.go:141-170 | from every reachable store of shutdown: without failing I/O, on every way to the loop's end the versions missing from the file were made by calls in flight at the store, if and only if no update was lost before it |
| PersisterClosing.CleanCloseExactly | internal/storage/file/file.go:99-170 | with no call in flight at the store and no failing I/O afterwards, the file ends up equal to the map if and only if changed was set or the file was equal to it already, and one of the two holds unless an update had been lost |
| PersisterClosing.LateCall | internal/storage/file/file.go:105-156 | a call that waits for the mutex at the store, and whose operation will succeed, can end as reported after the loop has written a file without it |
| PersisterClosing.FileApartExactly | internal/storage/file/file.go:99-170 | from every reachable store of shutdown: without failing I/O, some way to the loop's end, nobody having the mutex, leaves a file that differs from the map if and only if a waiting call will change what it finds there, or, with changed down, the file differs from what the map is once the holder of the mutex is through |
| PersisterClosing.LateExactly | internal/storage/file/file.go:105-170 | the same of reported versions, a delete that hits nothing making one too: some way leaves one out of the file if and only if a waiting call will succeed on what it finds, or the map is a version ahead of the file, or about to be, with changed down |
| PersisterClosing.CloseWaits | internal/storage/file/file.go:99-102 | Close returns only after the loop has ended |
| PersisterClosing.CloseThenOpen | internal/storage/file/file.go:74-170 | with no call in flight at the store, and changed set or the file equal to the map, opening the resulting file gives the map back if and only if all its records pass the loader's checks, for records that the codec keeps |
| DeletesToFile.InvStep | internal/app/app.go:92-156 | every step of queue and store run together keeps the invariants of both and those relating batches to the store's calls |
| DeletesToFile.BothReachable | internal/app/app.go:92-156 | run together, the queue is in a state that its protocol reaches, and so is the store |
| DeletesToFile.CloseComesLast | internal/app/app.go:92-156 | the store is closed only after the queue's loop has returned, and queue and store see the same cancellation |
| DeletesToFile.FlushedExactlyOnce | internal/services/shortener/batch.go:92-100 | every batch that the queue has flushed made exactly one version of the store, by deleting all its entries, or was refused, made none, and the store was shutting down |
| DeletesToFile.AppliedInOrder | internal/services/shortener/batch.go:92-100 | the batches that reach the store do so in the order in which they were flushed |
| DeletesToFile.FlushAppliedExactly | internal/app/app.go:130-156 | a flush about to call the store can still be applied if and only if the store is not shutting down, and some continuation always refuses it, although Close is called after the queue's loop has returned |
| DeletesToFile.DeletesInFile | internal/app/app.go:92-156 | when the store's loop has ended without failing I/O, and so when Close has returned: unless an update was lost before the store of shutdown, the file holds the version that each batch made whose callback had returned by then, or a later one, and every batch whose callback had not passed the check is in no version at all; only one that was in between is left open |
| Resolver.RandString | internal/generators/generators.go:14-20 | a key of the given length whose characters are those of the draws, by number |
| Resolver.SameKeyExactly | internal/generators/generators.go:9-20 | two sequences of draws spell the same key exactly when they agree modulo 62 |
| Resolver.AlphabetExactly | internal/generators/generators.go:9 | the alphabet is digits, small and capital letters, 62 in this order |
| Resolver.AsciiExactly | internal/services/resolver/resolver.go:62-66 | of the ASCII bytes the path validation admits exactly the characters of the alphabet |
| Resolver.ValidatePath | internal/services/resolver/resolver.go:58-68 | accepts exactly a slash followed by letters and digits, reports the first other byte, and panics on the empty path |
| Resolver.Resolve | internal/services/resolver/resolver.go:47-68 | panics exactly on the empty path; refuses exactly a path without its slash or with a byte that is neither letter nor digit; otherwise not-found, deleted or the original URL, exactly as the map has the rest of the path |
| Resolver.ResolveExactly | internal/services/resolver/resolver.go:47-68 | the same of the resolving function |
| Resolver.GeneratedKeyResolves | internal/services/resolver/resolver.go:47-68 | every generated key passes validation and finds its own record |
| Shortener.StoreURL | internal/services/shortener/service.go:82-103 | the loop makes at most three attempts, going on only over live keys |
| Shortener.Shorten | internal/services/shortener/service.go:60-80 | parsing, scheme check, storing and the served URL, with every error |
| Shortener.ShortenServesExactly | internal/services/shortener/service.go:60-103 | a URL is served exactly when the original parses with the right scheme and the first free of at most three drawn keys gets a UUID; otherwise nothing changes |
| Shortener.ShortenRefusesExactly | internal/services/shortener/service.go:60-103 | each refusal exactly: the original does not parse; it parses with another scheme than the configured one; all of three drawn keys are in use; the first free one gets no UUID |
| Shortener.ShortenThenResolve | internal/services/shortener/service.go:60-103 | then only that key, absent or a tombstone before, changes, the served URL ends in it, and resolving it gives the parsed URL |
| Shortener.ShortenedStaysResolvable | internal/services/shortener/service.go:60-103 | it goes on resolving through any later operations of any users until its owner deletes it |
| Shortener.ShortenBatch | internal/services/shortener/batch.go:27-49 | result and request correspond index by index with matching correlation ids, and a refused batch changes nothing |
| Shortener.BatchThenResolve | internal/services/shortener/batch.go:27-49 | after a batch the key of index i holds the record of the last index with that key, in the user's name, and resolves to its URL, so to its own exactly when the two URLs are equal; distinct keys suffice; other keys are unchanged |
| Shortener.DeleteBatch | internal/services/shortener/batch.go:70-90 | behind what it held, the queue gains one entry with key, user and time for each of a prefix of the keys, all of them when everything was queued, none when refused |
| Shortener.DeletesExactly | internal/services/shortener/batch.go:70-100 | applying any queued prefix of a user's entries makes tombstones of exactly the named records that the user owns and changes nothing else |
| Shortener.OwnDeleted | internal/services/shortener/batch.go:70-100 | a URL of the user's own is answered as deleted once its entry has been applied |
| Shortener.DeletesOnlyOwn | internal/services/shortener/batch.go:70-100 | whatever a user queues, records of other users stay as they are |
| ResponseWriter.Wrapper.FlushHeader | internal/http/middleware/logging/logging.go:64-76 | sends the status once, or 500 and the status with the writer closed for bodies when it is invalid |
| ResponseWriter.Wrapper.WriteHeader | internal/http/middleware/logging/logging.go:79-81 | only records the status |
| ResponseWriter.Wrapper.Write | internal/http/middleware/logging/logging.go:51-62 | header first, then the body unless an error has occurred, with counts and errors passed on |
| ResponseWriter.ServeHTTP | internal/http/middleware/logging/logging.go:93-138 | for every handler, panicking or not: what reaches the underlying writer, the byte count, and the logged status |
| ResponseWriter.OneHeaderExactly | internal/http/middleware/logging/logging.go:51-127 | exactly one header arrives, before the bodies up to the first that fails, and the size is their count; unless the status in force at the first body byte or the end is neither 0 nor in 100..999: then 500 and that status arrive and no body |
| ResponseWriter.EffectiveExactly | internal/http/middleware/logging/logging.go:64-81 | the status in force is the one set last before the first body byte, or 200 if that is 0 or none was set |
| ResponseWriter.LogAgreesExactly | internal/http/middleware/logging/logging.go:51-137 | for a handler that does not panic, the logged status is the one that was sent exactly when the last WriteHeader after a body write gives that very status, or there is none and the status in force was valid; 500 is sent for an invalid one |
| ExitCheck.Inspector.Visit | internal/analyzers/exitcheck/exitcheck.go:33-71 | one node updates flag and reports |
| ExitCheck.Inspector.Inspect | internal/analyzers/exitcheck/exitcheck.go:28-50 | the recursive walk visits the nodes in preorder with one flag throughout |
| ExitCheck.Run | internal/analyzers/exitcheck/exitcheck.go:20-31 | only files of package main with a .go name are walked, each with a flag of its own |
| ExitCheck.FileCountsExactly | internal/analyzers/exitcheck/exitcheck.go:20-31 | a file adds its reports, after those before it, exactly when its package is main and its name ends in .go |
| ExitCheck.ExitExactly | internal/analyzers/exitcheck/exitcheck.go:52-71 | the statements looked for are exactly the calls written os.Exit |
| ExitCheck.ReportsExactly | internal/analyzers/exitcheck/exitcheck.go:33-71 | for every tree, the reports are exactly the os.Exit statements whose nearest preceding function or method declaration is named main, in order |
| ExitCheck.NestedExactly | internal/analyzers/exitcheck/exitcheck.go:33-71 | they are the statements nested in the function main exactly when no method named main holds one, and no other declaration between one named main and the next function or method does |
| Filter.ParseSliceFromString | internal/filter/filter.go:173-187 | nothing for the empty string; otherwise an error exactly when some trimmed item does not parse, else the parsed items in order |
| Filter.SplitJoin | internal/filter/filter.go:177 | splitting at commas undoes joining |
| Filter.JoinSplit | internal/filter/filter.go:177 | joining undoes splitting, for every string |
| Filter.TrimExactly | internal/filter/filter.go:180 | trimming an item takes the spaces in front and nothing else |
| Filter.PrintThenParse | internal/filter/filter.go:161-187 | a joined list parses back to the same list, with any number of spaces before each item |
| Filter.Filter.CheckIPList | internal/filter/filter.go:96-115 | true exactly when the string is not empty, every item parses and every address lies in some trusted subnet |
| Filter.Filter.CheckAddr | internal/filter/filter.go:84-159 | true exactly for the text of an address in some trusted subnet |
| Filter.Filter.CheckRequestParams | internal/filter/filter.go:65-80 | true exactly when the remote address, or an enabled header, is trusted; never without subnets |
| Filter.Filter.ChainTrustedExactly | internal/filter/filter.go:96-115 | a printed chain of addresses passes exactly when it is not empty and each address is trusted |
| Filter.NewFilter | internal/filter/filter.go:34-45 | fails exactly when the configured list is not empty and some item is no prefix; otherwise holds the parsed prefixes in order |

## Left out

- Flusher.Run, File.maintainPersistence: endless select loops; they exist as the state machines, not as methods.
- Fairness and time: no statement says that something eventually happens; a timer is a branch that may be taken at any moment.
- Weak memory: atomics and the mutex are taken as sequentially consistent, as the Go memory model gives for them.
- The flush callback's own failures: a panic in it, and an error of the store, which the service only logs.
- DelayedDelete.CleanShutdownDeletesAll: its callback always reaches the map, as with the memory store; a file store that is shutting down refuses it, which `DeletesToFile.dfy` models.
- DelayedDelete.DelayPastRun: nothing exact is said of runs that store a key to be deleted, since what the deletion then changes depends on every later outcome; single operations are decided exactly.
- Shortener.DeleteBatch: pushes of other callers between two of its own, since it runs on the object, whose methods are one step each; all interleavings of single pushes are in the protocol.
- DeletesToFile.FlushedExactlyOnce: Close waits for the queue's loop only; `app.Run` also waits for the profiler and the HTTP and gRPC servers, whose requests the model lets go on.
- DeletesToFile.DeletesInFile: the batch whose callback is in the store at the store of shutdown may end either way.
- MemoryStore.CountStats: `Memory.Stats` walks the map without the mutex and can race with a writer; here the walk is one step.
- Negative allocation sizes, on which the Go program panics when it makes the slice.
- FlusherSlice.Flusher.AppendElem: the growth of a full slice is left to the runtime, so the new capacity is any that suffices.
- A second call of Close, which blocks on the full channel; the file store's model has one.
- File-system errors other than a failing dump: errors of `Flush` and of closing the file are ignored by the code and taken not to occur; a file being rewritten counts as holding nothing of use.
- RecordFile.RoundTripExactly: records whose strings are not valid UTF-8 are not kept by the JSON encoder and fall outside its hypothesis.
- Lines without a final newline: `readURLFromLine` drops their last byte, and so does the model, but nothing further is proved about them.
- Shortener.StoreURL: the conflict branch, which takes over a stored path, since the memory store never reports a conflict.
- The texts that errors are wrapped in, and the logging.
- Resolver.RandString: nothing about the distribution of the draws, only what they spell.
- ResponseWriter.ServeHTTP: the underlying writer is taken not to panic, and what net/http does with a second header or with informational codes is not modelled.
- ExitCheck.Inspector.InspectExpr: exported names beyond ASCII, which cannot equal Exit anyway.
- The PostgreSQL store, the HTTP and gRPC servers and handlers, authentication, sessions, compression, configuration, profiling and TLS: foreign calls and plumbing.
- `Service.GetAll`, `DB.Map`, the status service, the request-id middleware and the nolint analyzer: they would only add easy members.
