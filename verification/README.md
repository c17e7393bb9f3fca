# Verification of the command server

A Dafny model of the C server in `src/`: its incrementally rehashed dictionary, its circular
list, its event registry, the hand-off of connections between the polling thread and the
workers, and its command parser with the strings and numbers beneath it. `dafny verify
dfyconfig.toml` checks everything.

How the parts fit together:

- **Dictionary.** `DictModel` describes each call of `src/dict.c` as a transition on two tables
  of chains. `DictRefine` shows that each transition acts on a finite map, `DictRuns` extends
  that to whole runs and adds the load bound and the end of a rehash, `DictGrowth` says when and
  to which size it grows, `DictIterate` and `DictIterRuns` prove what iterators yield. `HashTable` and `DictHeap` carry the calls out on
  bucket arrays and linked entry objects, each proved equal to its transition and to the map
  operation. `CommandDict` instantiates the dictionary with the hash and comparison of the
  command table, which satisfy what the dictionary needs, and dispatches command lines.
- **Hand-off.** `Clist` is the circular list on linked elements, `Events` the registry with the
  epoll and select backends. `Protocol` is a transition system whose actions are the regions
  that the code keeps atomic; `ProtocolInv` proves its invariant for every interleaving with any
  number of workers, `ProtocolRuns` draws the conclusions about runs, and `Closing` says what each
  record leads to and that connections are closed. `GuardedReads` joins the protocol with the
  parser: each read brings bytes, and the bytes decide how it ends. `Serving` runs whole commands
  through all of it.
- **Parser.** `Decimal` and `Cstr` are the numbers and the counted strings. `Parser` describes
  one pass over the read buffer and its grammar, `ParserResume` commands that arrive in several
  reads, `ParserCuts` which cuts the trim at `src/network.c:306` survives, `ParserReads` which
  commands the reads of 2048 bytes can bring, `ParserVerdicts` what every pass does with every
  buffer, told from its bytes, and `ParserHeaders` and `ParserFaults` what can still happen after
  a fault. `Reading` puts inline and multi-bulk commands together.
- **Connection.** `Connection` is the connection object: the parser with its loops, the reply
  builders, and the sending of replies. `Sending` describes what the kernel does with a reply.

Where the code falls short of what its comments or callers suggest, the model follows the code,
an input shows the failure, and a theorem says exactly when the code is right:

- `src/network.c:306` trims from `pos + bulk_len` to an exclusive end of -1 and so loses bytes of
  a token that a read has cut. `ParserReads.MidTokenCutLoses` is a cut that loses any command,
  `ParserCuts.ResumedExactlyWhenAligned` the exact condition; for the repaired trim `[pos, used)`
  every cut is harmless. With the 2048-byte reads of `src/network.c:219-235` this loses every
  command, of those within the limit, that has an argument of more than 2046 bytes
  (`ParserReads.ReceivableIff`).
- `src/network.c:346-367` lets a connection that is flagged for closing complete another command.
  It is then queued with WRITE still armed, and two threads own it (`ProtocolRuns.OwnershipIff`).
  Which faults allow that is decided by the state and the buffer that the fault leaves:
  `GuardedReads.FinalFaultsKeepOwnership` and `GuardedReads.FaultBreaksIff` together are the exact
  condition, `ParserFaults.FaultsRecoverableIff` the table of faults, and
  `GuardedReads.FlaggedCompletionReachable` a run with its bytes. The command that completes may
  hold an argument twice (`ParserFaults.ReplayedArgument`).
- `src/network.c:75-91` clears a reply that a persistent connection could send only in part.
  `Connection.ShortWriteLoses` is an input; `Connection.Cio.Response` says that the whole reply
  leaves if and only if the kernel takes as many bytes as were waiting.
- `src/common.c:26` multiplies without a check. `Decimal.AcceptedIsExactIff` gives the exact
  condition, `Decimal.WrapIsReachable` an input.
- `src/dict.c:103-109` bounds the load only while no iterator is open and nobody else expands the
  table: `DictRuns.LoadBound`, `DictRuns.OpenIteratorLoad` and `DictRuns.OutsideExpansionLoad`.
- `src/network.c:24` promises a result of 0 that accept never returns; it returns 1 or -1, and the
  caller only asks whether it is 0.

## Model

| member | source | states |
|---|---|---|
| TableIndex.MaskIsRemainder | src/dict.c:145 | for every power-of-two size, `hash & (size - 1)` is the remainder of the hash |
| TableIndex.PowSize | src/dict.c:13-18 | the new table size is a power of two, at least the request and at least 8, and below twice the request unless it is 8 |
| TableIndex.PowSizeFromLeast | src/dict.c:16-17 | no smaller admissible power of two reaches the request |
| TableIndex.Doubling | src/dict.c:16 | doubling a power of two below 2^31 stays within 2^31, so the shift does not wrap for the sizes assumed here |
| DictRefine.AddRefines | src/dict.c:158-174 | from every valid state, mid-rehash and expanding included, add is map insertion: 1 and the new binding for a new key, -1 and no change for a present one; validity is kept |
| DictRefine.FindRefines | src/dict.c:186-206 | find returns exactly what the map holds and changes nothing in the map, although it may move a bucket |
| DictRefine.ReplaceRefines | src/dict.c:176-184 | replace is map update in every state; 0 for a present key, 1 for a new one |
| DictRefine.DeleteRefines | src/dict.c:208-240 | delete removes exactly that key; 1 when it was there, 0 when not |
| DictRefine.ClearRefines | src/dict.c:63-67 | clear leaves the empty map in a valid state |
| DictRefine.RehashKeeps | src/dict.c:72-101 | any number of rehash steps keeps validity and the map |
| DictRefine.RehashStepKeeps | src/dict.c:75-99 | one step keeps every lookup, the number of entries and the sizes, and either finishes or moves `rehashidx` strictly on |
| DictRefine.MoveChainOk | src/dict.c:87-97 | moving a chain entry by entry makes the new table answer for exactly the moved keys as well, none of them twice |
| DictRefine.SkipStops | src/dict.c:85 | while the old table has entries the search for a non-empty bucket stops inside the table |
| DictRefine.ExpandKeeps | src/dict.c:114-135 | an expansion, refused or not, changes no binding and keeps validity |
| DictRefine.TryExpandKeeps | src/dict.c:103-109 | the expansion attempted by add never fails, leaves a non-empty first table, and keeps the map |
| DictRuns.RunRefines | src/dict.c:72-240 | any sequence of calls, from any valid state, gives the answers and the final contents of a finite map; rehash, expansion and open iterators may come between |
| DictRuns.EmptyOk | src/dict.c:46-54 | the created dictionary is valid, empty and within the load bound |
| DictRuns.UsedCountsKeys | src/dict.c:158-240 | both `used` counters together are the number of keys, so no key is in both tables or twice in one |
| DictRuns.RehashEnds | src/dict.c:72-101 | a rehash with M buckets ahead is over after M + 1 steps, with the same map |
| DictRuns.AddKeepsLoad | src/dict.c:158-174 | with no open iterator, add keeps the load bound although it links an entry |
| DictRuns.LoadBound | src/dict.c:103-109 | after every run of add, replace, find, delete and clear with no open iterator, the load bound holds, and the keys number at most the capacity plus one |
| DictRuns.OpenIteratorLoad | src/dict.c:103-109 | with an iterator open during a rehash, adding new keys breaks the load bound after exactly as many as there was room for: it holds if and only if they fit |
| DictRuns.OutsideExpansionLoad | src/dict.c:114-135 | an expansion from outside to the present size keeps the load bound if and only if there is at most one entry |
| DictGrowth.ExpandMeans | src/dict.c:114-135 | an expansion is refused exactly while rehashing or to a size below the present one; otherwise the new table has the least power of two that is at least 8 and the request, and a rehash begins unless it is the first table |
| DictGrowth.AddGrows | src/dict.c:103-109 | an add while no rehash goes on: eight buckets for the first key, the same table while there is room, and otherwise the begin of a rehash to at least twice the entries |
| DictGrowth.CallAdvances | src/dict.c:8 | with no open iterator, add, find, replace and delete each carry a rehash on by at least one bucket, or put the new table in place of the empty old one |
| DictIterate.NextOk | src/dict.c:269-294 | `next` yields an entry not passed before, passes that one entry and no other, and returns NULL only when every entry is behind it |
| DictIterate.SeekOk | src/dict.c:271-284 | the scan for the next chain skips nothing: every bucket between the old and the new position is empty, across both tables |
| DictIterate.PlaceOfCurrent | src/dict.c:288-291 | the entry an iterator stands at is the one whose key has that place |
| DictIterate.AddSettled | src/dict.c:158-174 | while an iterator is open, add (even one that starts an expansion) moves no entry and invalidates no iterator |
| DictIterate.ReplaceSettled | src/dict.c:176-184 | the same for replace |
| DictIterRuns.CallKeepsWorld | src/dict.c:259-302 | with any number of iterators, every call keeps `iterators` equal to the number begun and not destroyed, and every iterator well placed |
| DictIterRuns.StartOk | src/dict.c:46-54 | the created dictionary without iterators is a state of which these theorems speak |
| DictIterRuns.RunKeepsWorld | src/dict.c:259-302 | so is every state reached from it by adds, finds, replacements and any number of iterators opened, advanced and destroyed |
| DictIterRuns.RunCovers | src/dict.c:259-302 | over a whole run, what an iterator has yielded is duplicate-free and contains everything of the start that it has passed |
| DictIterRuns.YieldsAreDistinct | src/dict.c:269-294 | no entry is yielded twice by an iterator, under any interleaving of add, find, replace and other iterators |
| DictIterRuns.IteratorCoversAll | src/dict.c:269-294 | when `next` returns NULL, every key present at the start has been yielded |
| HashTable.Table.Reset | src/dict.c:20-25 | an empty table |
| HashTable.Table.Sized | src/dict.c:121-127 | a zeroed bucket array stands for a table of empty chains |
| HashTable.Table.FindEntry | src/dict.c:196-200 | the walk over linked entries stops at the first entry of the chain with the key, with its predecessor at hand |
| HashTable.Table.PushEntry | src/dict.c:91-94 | linking in front of a bucket prepends to that chain, changes no other chain, and counts one |
| HashTable.Table.CountDown | src/dict.c:31-39 | the walk over a chain meets each of its entries once |
| HashTable.Table.Clear | src/dict.c:27-44 | the counter reaches zero exactly when every chain has been walked, and the table is reset |
| HashTable.Table.Bypass | src/dict.c:225-228 | one changed link takes entry n out of its chain and leaves every other chain and every value alone |
| HashTable.Table.Unlink | src/dict.c:225-231 | unlinking takes that entry out of the model of the table and counts one down |
| HashTable.SetValue | src/dict.c:180 | overwriting a value changes that pair of the model and nothing else |
| DictHeap.Dict.constructor | src/dict.c:46-54 | an object that is valid and models the empty dictionary |
| DictHeap.Dict.Lift | src/dict.c:87-97 | the chain of a bucket is in flight: its entries belong to no table, distinct and still linked, and the rest of the table stands |
| DictHeap.Dict.MoveFirst | src/dict.c:88-96 | one entry of the chain in flight enters its new table, and the rest is still in flight |
| DictHeap.Dict.Transfer | src/dict.c:86-97 | every entry of a bucket changes owner, and both tables are again those of the model |
| DictHeap.Dict.MoveEntries | src/dict.c:87-97 | the loop over a chain in flight moves every entry object to its new table, one by one, without losing one |
| DictHeap.Dict.MoveBucket | src/dict.c:86-98 | the linked buckets move as the chain model says, entries change owner, and the old head is cleared |
| DictHeap.Dict.SkipEmptyBuckets | src/dict.c:85 | the loop stops at the first non-empty bucket and never leaves the array |
| DictHeap.Dict.RehashStep | src/dict.c:75-99 | one turn on linked entries is one turn of the model |
| DictHeap.Dict.Rehash | src/dict.c:72-101 | n turns for every n, also 0; 0 is returned exactly when no rehash is left, otherwise 1; the map is unchanged |
| DictHeap.Dict.TryRehash | src/dict.c:8 | one step unless an iterator is open, in which case no entry moves |
| DictHeap.Dict.PowSize | src/dict.c:13-18 | the doubling loop computes TableIndex.PowSize within 2^31 |
| DictHeap.Dict.Expand | src/dict.c:114-135 | -1 and nothing changed when refused, otherwise a new first or second table; no chain moves and the map is unchanged |
| DictHeap.Dict.TryExpand | src/dict.c:103-109 | expands exactly when the table is missing or full and not rehashing |
| DictHeap.Dict.Search | src/dict.c:193-200 | in one table the walk finds the entry of the key, at its place in the chain, or none |
| DictHeap.Dict.Locate | src/dict.c:193-204 | the search over both tables finds the entry exactly when the map has the key, and otherwise says where a new entry belongs |
| DictHeap.Dict.KeyIndex | src/dict.c:138-156 | -1 for a present key, otherwise the bucket of the table that must take the new entry, after a possible expansion |
| DictHeap.Dict.Add | src/dict.c:158-174 | on linked entries: the return code and the new map are those of map insertion; with an open iterator nothing moves |
| DictHeap.Dict.Find | src/dict.c:186-206 | on linked entries: NULL exactly for absent keys, otherwise the entry with the value of the map; the map is unchanged |
| DictHeap.Dict.Replace | src/dict.c:176-184 | on linked entries: map update, with the return code of the source |
| DictHeap.Dict.Delete | src/dict.c:208-240 | on linked entries: exactly that key is gone, and the return code says whether it was there |
| DictHeap.Dict.Clear | src/dict.c:63-67 | on linked entries: the map is empty and the iterator count kept |
| DictHeap.Dict.FinishRehash | src/dict.c:77-83 | the second table becomes the only one |
| DictHeap.Dict.Install | src/dict.c:128-133 | the new table becomes the first one, or the second one with a rehash begun; no chain moves |
| DictHeap.Dict.Link | src/dict.c:166-172 | the new entry stands in front of the bucket of the table that takes new entries, and no other entry moves |
| DictHeap.Dict.Overwrite | src/dict.c:178-181 | the value of that key is replaced in the table that holds it |
| DictHeap.Dict.UnlinkIn | src/dict.c:225-231 | the entry leaves its chain, from the head or after its predecessor, and the other table is untouched |
| DictHeap.Dict.Remove | src/dict.c:220-231 | the entry leaves the table that holds it, whether it stood first in its chain or not |
| DictHeap.Dict.Scan | src/dict.c:271-292 | the scan loop over bucket arrays and links computes the next position of the model |
| DictHeap.Iterator.constructor | src/dict.c:259-267 | a fresh iterator stands before the first entry |
| DictHeap.Iterator.Next | src/dict.c:269-294 | the entry object returned is the one that the model yields, and the first call counts the iterator as open |
| DictHeap.Iterator.Destroy | src/dict.c:296-302 | an iterator that has begun is counted down, any other leaves the dictionary as it was |
| DictHeap.IteratorSurvives | src/dict.c:269-294 | a stored entry pointer stays right across every call that only prepends to chains |
| DictHeap.CallWhileIterating | src/dict.c:158-206 | add, find or replace on the linked dictionary while an iterator is open: the iterator stays valid where it was, the call does what its model says, and no entry changes place |
| DictHeap.NextWhileIterating | src/dict.c:269-294 | another iterator advances: it yields what the model says, and the first one stays valid where it was |
| CommandDict.Hash | src/dict.c:251-257 | the loop with its 32-bit wrap-around and signed bytes computes 5381 * 33^n + ... modulo 2^32, a function of the used bytes alone |
| CommandDict.HashClosed | src/dict.c:251-257 | the hash is 5381 times 33 to the length, plus each signed byte times 33 to the number of bytes after it, modulo 2^32 |
| CommandDict.KeyCompare | src/thr_socket_svr.c:56-64 | equal exactly when the used bytes are equal, whatever spare room the two strings have |
| CommandDict.EqualKeysHashEqually | src/thr_socket_svr.c:51-64 | keys that compare equal hash equally, which the dictionary needs |
| CommandDict.DistinctAllFound | src/thr_socket_svr.c:153-160 | with distinct names every registered command is in the table under its name |
| CommandDict.FirstIsFirst | src/thr_socket_svr.c:153-160 | the table holds the first command of every name and no other name |
| CommandDict.DispatchTable | src/thr_socket_svr.c:75-125 | for all command lists and lines, in terms of the words and numbers alone: when a line quits, names no command, has the wrong number of words, and which command it calls; each of the five relations is spelt out |
| CommandDict.Answer | src/thr_socket_svr.c:33-37 | the server with its three commands: ping takes exactly one word, insert at least five, get at least six, in any case of letters; quit quits, every other word is unknown |
| CommandDict.DispatchIff | src/thr_socket_svr.c:75-125 | a command is called if and only if the lower-cased first word is its name and the argument count fits its relation |
| CommandDict.Commands.constructor | src/thr_socket_svr.c:172 | the command table is created empty |
| CommandDict.Commands.RegisterOne | src/thr_socket_svr.c:157-158 | one registration: the first command of a name stays |
| CommandDict.Commands.Register | src/thr_socket_svr.c:153-160 | after the loop of dict_add the dictionary holds the first command of every name and nothing else |
| CommandDict.Commands.Process | src/thr_socket_svr.c:75-125 | the lookup in the linked dictionary and the switch over the relations do what DispatchTable says, and leave the table as it was |
| Clist.List.constructor | src/clist.c:23-30 | an empty list |
| Clist.NewItem | src/clist.c:7-17 | a new element holding the data |
| Clist.List.Insert | src/clist.c:95-106 | four links put the element between the last one and the head; `prev` and `next` remain inverse around the circle |
| Clist.List.LPush | src/clist.c:108-115 | the sequence grows at its left end |
| Clist.List.RPush | src/clist.c:117-123 | the sequence grows at its right end |
| Clist.List.Bypass | src/clist.c:35-36 | two links take an element out of the circle and keep the rest inverse |
| Clist.List.Pop | src/clist.c:33-40 | the other elements remain, in order; the last pop empties the head |
| Clist.List.RPop | src/clist.c:43-53 | NULL exactly when empty, otherwise the last element of the sequence, which loses it |
| Clist.List.LPop | src/clist.c:55-66 | NULL exactly when empty, otherwise the first element of the sequence, which loses it |
| Clist.RotateRight | src/clist.c:108-115 | a circle may be entered at its last element, which is why lpush only moves the head |
| Clist.RotateLeft | src/clist.c:55-66 | a circle may be entered at its second element, which is why lpop may move the head first |
| Clist.FirstInFirstOut | src/cevent.c:28-43 | with lpush and rpop only, what was popped followed by what remains is what was there followed by what was pushed, in order: nothing is lost, doubled or overtaken |
| Clist.Perform | src/clist.c:43-123 | any sequence of the four calls on the linked list acts as on a sequence |
| Events.Cevents.constructor | src/cevent.c:45-60 | a registry with nothing armed agrees with its backend |
| Events.Cevents.EpollCtl | src/cevent_epoll.c:38 | the kernel refuses ADD of a present and MOD or DEL of an absent descriptor |
| Events.Cevents.AddImpl | src/cevent_epoll.c:25-39 | ADD or MOD is chosen so that the kernel never refuses; for select, the two set operations |
| Events.Cevents.DelImpl | src/cevent_epoll.c:41-54 | MOD or DEL is chosen so that the kernel never refuses; for select, the two set operations |
| Events.Cevents.AddEvent | src/cevent.c:80-97 | afterwards the interest set (or the two select sets) is again exactly the armed descriptors with their bits, and `maxfd` bounds them |
| Events.Cevents.DelEvent | src/cevent.c:107-131 | the same after a removal, with the downward search for a new `maxfd` |
| Events.LastChange | src/cevent.c:80-131 | after any changes of an entry: `priv` is that of the last addition, each handler that of the last addition of its bit, and a bit is set if and only if the last change that names it is an addition |
| Events.Cevents.PollEpoll | src/cevent_epoll.c:57-78 | one record for each reported descriptor, in order, with armed bits only |
| Events.Cevents.PollSelect | src/cevent_select.c:39-73 | the records are those of the armed descriptors up to `maxfd`, or none when nothing is ready |
| Events.ReportExact | src/cevent_select.c:57-70 | the scan reports each armed descriptor once, in order, with exactly its armed and ready bits |
| Events.ScanComplete | src/cevent_select.c:39-73 | a record has READ exactly for the descriptors armed for reading that can be read, and WRITE exactly for those armed for writing that can be written, anywhere in the registry: a stale `maxfd` misses nothing |
| ProtocolInv.InitOk | src/thr_socket_svr.c:244-248 | the state with only the listener armed satisfies the invariant |
| ProtocolInv.PollKeeps | src/cevent_epoll.c:57-78 | a poll starts a batch whose records name armed bits of connections that are with the polling thread |
| ProtocolInv.TakeKeeps | src/cevent.c:162-172 | reading, accepting, hanging up or protesting on the next record keeps the invariant; the records after it stay true |
| ProtocolInv.MainKeeps | src/cevent.c:172-180 | each later region of the polling thread keeps the invariant: disarm, push, write half, re-arm, close |
| ProtocolInv.PopKeeps | src/cevent.c:34-43 | a worker that pops a record becomes the only place of that connection |
| ProtocolInv.ReplyKeeps | src/network.c:104-115 | a worker's reply gives the connection back by arming WRITE, and nothing else of the state is disturbed |
| ProtocolInv.StepKeeps | src/cevent.c:149-192 | every action of every interleaving of the polling thread and the workers keeps the invariant, provided no command completes on a flagged connection |
| Closing.ReadyAgain | src/cevent.c:149-192 | from every reachable position the polling thread is ready for its next record after at most five regions, each of which it can make |
| Closing.ReadRecord | src/network.c:346-367 | what a read leads to when the polling thread is ready again, whatever the workers do meanwhile: more input leaves the connection as it was, a complete command is queued, held or answered, a fault arms the reply with the flag set, and the end of an unflagged connection leaves it armed for cio_close_destroy alone |
| Closing.BothRecord | src/cevent.c:166-178 | READ and WRITE fired together: the connection ends up armed for cio_close_destroy alone, whatever the read brings |
| Closing.WriteRecord | src/network.c:69-102 | a write event leads back to READ with read_event_proc if and only if the reply was sent and the connection not flagged, and otherwise to WRITE with cio_close_destroy; with that handler it closes the connection |
| Closing.AcceptRecord | src/network.c:25-49 | an accepted connection is armed for READ with read_event_proc |
| Closing.GivenUpForGood | src/network.c:51-67 | a connection that was given up stays armed for cio_close_destroy alone, in every run, until its id is among the destroyed: it never serves another command |
| Closing.HandlersOfRun | src/network.c:17-67 | over every run an armed READ of a connection calls read_event_proc, and an armed WRITE write_event_proc or cio_close_destroy |
| ProtocolRuns.RunKeeps | src/cevent.c:149-192 | the invariant over whole runs |
| ProtocolRuns.SingleOwnership | src/cevent.c:149-192 | each live connection is queued once, or held by one worker, or with the polling thread; READ and WRITE are both disarmed exactly when it is away; pending records name armed bits only |
| ProtocolRuns.FlaggedCompletionBreaks | src/network.c:346-367 | every completion on a flagged connection puts it into the queue with WRITE still armed, so single ownership fails at once |
| ProtocolRuns.OwnershipIff | src/cevent.c:149-192 | ownership holds throughout a run if and only if no command completes on a connection flagged for closing |
| GuardedReads.FinalIff | src/network.c:219-353 | after any fault of any read of any connection: no bytes that the client can still send complete a command if and only if the kept state and buffer pass a test that a caller can make (GuardedReads.Final) |
| GuardedReads.FinalByFault | src/network.c:237-308 | the same fault by fault, when no body was pending: the test is the table of ParserFaults.Recoverable |
| GuardedReads.FinalFaultsKeepOwnership | src/network.c:346-367 | in every run from the start, whatever bytes the clients send and however the threads interleave: when every fault is final in that sense, no connection ever has two owners |
| GuardedReads.FaultBreaksIff | src/network.c:346-367 | after any such run, a further fault can be followed by reads of the same connection that give it two owners if and only if that fault is not final |
| GuardedReads.VisitsRun | src/network.c:346-367 | any reads of one connection, each polled on its own, form a run of the protocol, and it breaks ownership exactly when a read completes a command after a fault |
| GuardedReads.FlaggedCompletionReachable | src/network.c:346-367 | a run from the start with its bytes: accept, a count of two, one argument and a line that is no length, and then any bytes at all: a command completes on the flagged connection, which has two owners |
| Serving.ServeRun | src/cevent.c:149-192 | a whole command as a run of the system: read in any pieces from which it can be read, handed over, answered by a worker, and sent; the connection is then as new, with one more command and one more reply, and armed for READ, or after quit for cio_close_destroy |
| Serving.ServeEachRun | src/cevent.c:149-192 | any number of commands on one connection can be served so, one after the other, and each is answered |
| Serving.QuitCloses | src/network.c:51-67 | a connection that says quit gets its reply, and the next write event closes it and counts it down |
| ProtocolRuns.RepliesInOrder | src/network.c:104-115 | the k-th reply armed answers the k-th command; at most one command is outstanding, exactly while it is being pushed, queued or held; commands completed are replies armed plus that one |
| ProtocolRuns.ConnectionsConserved | src/network.c:25-61 | `connections` is the number of live connections, up to the one in transit; accepted are live plus destroyed; none is destroyed twice |
| ProtocolRuns.ClosedWhenQuiet | src/network.c:51-61 | a connection is closed only with its mask at NONE, not queued, not held, and with no pending record |
| ProtocolRuns.EveryGuardedRun | src/cevent.c:149-192 | ownership, order of replies and conservation for every run from the start in which no flagged completion happens |
| ProtocolRuns.NeverStuck | src/cevent.c:149-192 | no thread ever meets a connection that is gone, and the polling thread can always go on |
| ProtocolRuns.QueueIsClist | src/cevent.c:28-43 | the queue of the protocol changes as the circular list does under lpush and rpop |
| Decimal.ParseLl | src/common.c:14-43 | the pointer loop computes Str2ll of the bytes, with the wrapping multiplication and the checked addition |
| Decimal.AcceptedIsExactIff | src/common.c:14-43 | what is accepted is an optionally signed digit string, and its value is exact in the signed range if and only if no multiplication wraps |
| Decimal.AcceptsExactlyInRange | src/common.c:14-43 | among digit strings up to ULLONG_MAX in magnitude, exactly those in signed range are accepted |
| Decimal.SmallNeverWraps | src/common.c:26-30 | a magnitude up to ULLONG_MAX never wraps |
| Decimal.WrapIsReachable | src/common.c:26 | 2^63 followed by the digit 1 is accepted as the number 1 |
| Decimal.FillDigits | src/common.c:62-67 | the loop from the end of the buffer leaves the decimal digits, at most twenty of them |
| Decimal.PrintLl | src/common.c:56-80 | -1 and nothing written when the room is too small, otherwise exactly the text and its length |
| Decimal.RoundTrip | src/common.c:14-80 | reading the printed text gives the number back, for every 64-bit signed value including the minimum |
| Decimal.PrintIsShortest | src/common.c:14-80 | no text shorter than the printed one is read as a given positive number |
| Cstr.SliceToMinusOne | src/cstr.c:79-107 | with end -1 the slice always drops the last byte |
| Cstr.SliceBounds | src/cstr.c:79-107 | for every pair of bounds: a negative one counts from the end, bounds in order cut out what is between them, and an end beyond the contents leaves out the last byte |
| Cstr.Str.constructor | src/cstr.c:10-17 | room for n bytes, none used |
| Cstr.Str.New | src/cstr.c:19-26 | the bytes, followed by a NUL |
| Cstr.Str.Extend | src/cstr.c:33-41 | the contents are kept and there is room; the buffer is doubled exactly when it was too small |
| Cstr.Str.Ncat | src/cstr.c:43-51 | the bytes are appended and a NUL follows |
| Cstr.Str.Clear | src/cstr.c:53-57 | no contents, same buffer |
| Cstr.Str.Bounds | src/cstr.c:79-102 | for every pair of bounds, also negative or beyond the end, the computed window is the slice and lies in the buffer |
| Cstr.Str.Range | src/cstr.c:79-107 | the contents become the slice, in place, and a NUL follows |
| Cstr.Str.Dup | src/cstr.c:119-124 | a new string with the same contents |
| Cstr.PiecesJoin | src/cstr.c:59-77 | joining the pieces gives the input back |
| Cstr.PiecesAreFree | src/cstr.c:59-77 | no piece holds the separator, and there is one piece more than separators |
| Cstr.JoinPieces | src/cstr.c:59-77 | separator-free pieces are recovered by splitting their join |
| Cstr.Split | src/cstr.c:59-77 | the loop with its array that grows by five computes the pieces; every write, the last one too, is inside the array |
| Parser.AcceptedIsGrammar | src/network.c:237-308 | result 0 on a fresh connection: the buffer starts with a count and that many bulk strings, whose bodies are argv, and the rest is untouched |
| Parser.GrammarAccepted | src/network.c:237-308 | every word of that grammar, followed by anything, is accepted with its bodies as argv |
| Parser.ParseUndoesPrint | src/network.c:147-175 | for 1 to 1024 arguments of 1 to 0x10240 arbitrary bytes, parsing the printed command gives the arguments back |
| Parser.EncodeIs | src/network.c:147-175 | the layout of a printed command byte by byte, and the bounds 1024 and 0x10240 as numbers |
| ParserVerdicts.CountVerdict | src/network.c:242-267 | before the loop, for every buffer, from its bytes: refused as unknown, over the limit or a bad count, waited for, or the loop begins; each if and only if, with the numbers 42, 1024 and 66112 |
| ParserVerdicts.BadCountIff | src/network.c:257-262 | a complete count header, followed by anything, is refused with nothing consumed if and only if its text is not read as a number from 1 to 1024 |
| ParserVerdicts.LoopMeans | src/network.c:268-304 | from any state between two arguments: the loop takes whole bulk strings one after the other and stops for the first reason it has: none is missing, no CRLF (over the limit or not), no dollar, a length outside 1 to 66112, or a body that is not whole |
| ParserVerdicts.PassMeans | src/network.c:237-308 | the same of a whole buffer that begins with a good count header |
| ParserVerdicts.ResumedMeans | src/network.c:237-308 | the same of a pass that goes on with a command, with the pending body first |
| ParserResume.PassThen | src/network.c:237-308 | a pass over more bytes is the pass over the first ones continued, within the limit |
| ParserResume.PassShape | src/network.c:237-308 | for every buffer the position stays inside, arguments taken plus bulks to come are the announced count, and the result is 0 exactly when none is left |
| ParserResume.TrimsAgreeIff | src/network.c:305-306 | the trim as written keeps what the repaired trim keeps if and only if the pass ended at a token boundary; otherwise it keeps strictly fewer bytes |
| ParserResume.RepairedIsAtOnce | src/network.c:305-306 | with the trim `[pos, used)` any stream cut anywhere is parsed as if it came at once |
| ParserResume.AlignedIsAtOnce | src/network.c:305-306 | as written, a stream whose reads never end inside a token is parsed as if it came at once |
| ParserCuts.EncodePrefix | src/network.c:237-308 | a proper prefix of a printed command is never an error and never complete; bytes are left over exactly when it ends inside a token after the count header |
| ParserCuts.DropsIffUnaligned | src/network.c:305-306 | bytes are lost if and only if some read ends at a cut that is not aligned |
| ParserCuts.FinishedSpends | src/network.c:237-308 | a session that completes has received at least the printed length of its arguments, and one more if it dropped a byte |
| ParserCuts.ResumedExactlyWhenAligned | src/network.c:237-308 | as written, a printed command read in pieces gives its arguments if and only if every piece but the last ends inside the count header or at the end of a token |
| ParserReads.TwoReads | src/network.c:219-308 | a command cut once is understood if and only if the cut is aligned |
| ParserReads.MidTokenCutLoses | src/network.c:305-306 | an input for every command: the first read ends one byte into the header of the first argument, and the command is lost |
| ParserReads.TooLongIsLost | src/network.c:219-235 | with reads of at most 2048 bytes, an argument longer than 2046 bytes loses the command, however it is cut |
| ParserReads.ReceivableIff | src/network.c:219-308 | with reads of at most 2048 bytes, a command can be received under some cutting if and only if every argument fits into one read together with its CRLF |
| ParserCuts.RepairedAlwaysResumes | src/network.c:305-306 | with the repaired trim every cutting gives the arguments |
| ParserCuts.OverLimitIsNotFinal | src/network.c:249-256 | a count header over the limit is refused with nothing consumed, and the next read can complete any command: one fault of those that ParserFaults settles in general |
| ParserHeaders.ReadsAsOne | src/common.c:26 | whatever digits have come, sixty-four zeros and a one make the number wrap to 1, so an incomplete number can always become good |
| ParserHeaders.CountRecovers | src/network.c:243-267 | an incomplete count header that is extensible can be completed, and a command after it |
| ParserHeaders.BadCountNever | src/network.c:243-262 | a bad count header, or an incomplete one that can no longer become good, is final: no later reads complete a command |
| ParserFaults.LaterCompletionIff | src/network.c:237-308 | inside the loop: some later reads of at most 2048 bytes complete the command if and only if the state and buffer are not hopeless, which one look at the buffer decides |
| ParserFaults.CountCompletionIff | src/network.c:243-262 | after a fault before the loop: if and only if the count header is incomplete and can still become good |
| ParserFaults.FaultsRecoverableIff | src/network.c:237-308 | each of the five faults: UnknownProtocol and BadCount are final; OverLimit is not while its header can become good; NoDollar, BadLength and OverLimit are not once the resumed pass had taken an argument |
| ParserFaults.ReplayIff | src/network.c:237-308 | after a fault in a resumed pass: final if and only if nothing was taken and the header is lost |
| ParserFaults.AnyReadsComplete | src/network.c:237-308 | after a fault that is not about the limit, in a pass that had taken an argument, any bytes in enough reads complete the command |
| ParserFaults.ReplayedArgument | src/network.c:277-281 | one argument of two and then a line that is no length: the pass fails, and the next one, whatever it reads, completes the command with the first argument twice |
| Reading.InlineRejoins | src/network.c:329-342 | the arguments of an inline command hold no space and rejoin to all but its last two bytes, unless one of those is a space |
| Reading.InlineVerdict | src/network.c:319-343 | an inline connection: over the limit if and only if it has more than 66112 bytes, otherwise complete if and only if a CRLF has come |
| Reading.MultiVerdict | src/network.c:314-317 | a buffer that begins with a star, or a connection that once did, is read by the multi-bulk pass from then on |
| Reading.InlineIsAtOnce | src/network.c:325-343 | an inline command within the limit whose only CRLF is at its end gives the arguments of the whole line, however it is cut |
| Reading.ReceiveKeeps | src/network.c:219-343 | every read leaves a state between passes, and never a longer buffer than it made |
| Reading.ReadAllIsSession | src/network.c:219-308 | reads of a multi-bulk connection are the sessions that the resumption theorems speak of |
| Connection.Cio.constructor | src/cio.c:45-60 | a fresh connection: nothing read, nothing to send |
| Connection.Cio.Protest | src/network.c:243-246 | a fault sets the close flag and arms one reply with its message |
| Connection.Cio.ReportedTexts | src/network.c:244-287 | the text that the client reads after each of the five faults, and that nothing is reported otherwise |
| Connection.Cio.Strstr | src/network.c:248 | the scan up to the NUL finds the first CRLF |
| Connection.Cio.ReadCount | src/network.c:243-262 | the count header is complete exactly when the pass enters its loop, with that count and position; otherwise the pass ends here with this result and nothing changed |
| Connection.Cio.ReadLength | src/network.c:270-292 | the same for the header of a bulk string at any position |
| Connection.Cio.CountHeader | src/network.c:242-267 | the header step of the pass: fault, more input, or the loop entered with the announced count |
| Connection.Cio.BulkHeader | src/network.c:269-294 | the length step of the pass |
| Connection.Cio.TakeBody | src/network.c:300-303 | the body step of the pass |
| Connection.Cio.ProcessBulks | src/network.c:268-304 | the loop computes what Parser.Bulks says, and reports a fault exactly once |
| Connection.Cio.TryProcessMultibulk | src/network.c:237-308 | return code, state, trimmed buffer and reply are those of one pass; -1 always sets the close flag after arming one reply, anything else reports nothing |
| Connection.Cio.SplitInline | src/network.c:333-341 | the argument array of an inline command |
| Connection.Cio.TryProcessInline | src/network.c:319-343 | the limit with its one reply, the missing CRLF, or the argument array of the line |
| Connection.Cio.TryProcessCommand | src/network.c:310-343 | multi-bulk or inline by the first byte or the sticky request type, with the limit and the missing CRLF |
| Connection.Cio.ReadProcess | src/network.c:219-235 | EAGAIN, end of file and bytes: the bytes are appended and one pass is made |
| Connection.Cio.Feed | src/network.c:219-343 | read after read, inline or multi-bulk, the connection ends in the state, buffer and result of Reading.ReadAll, with exactly one reply when it failed |
| Connection.ReceiveCommand | src/network.c:219-308 | a new connection object that is sent a printed command in pieces ends with result 0 and exactly its arguments if and only if every piece but the last ends inside the count header or at the end of a token |
| Connection.ReceiveCount | src/network.c:257-262 | a count header sent to a new connection: a number from 1 to 1024 is waited on; anything else returns -1, sets the close flag and leaves exactly the reply about the number of bulks |
| Connection.Cio.PrefixLine | src/network.c:147-155 | the 64-byte buffer never overflows and holds prefix, number and CRLF |
| Connection.Cio.ReplyPrefixLen | src/network.c:147-158 | that line is appended and counted |
| Connection.Cio.ReplyBulk | src/network.c:165-175 | the reply is the printed form that Parser.ParseUndoesPrint reads back, and WRITE is armed once |
| Sending.ScheduleIff | src/network.c:202-217 | for every schedule of write events: the reply gets out if and only if some event is reached by which enough bytes were taken, and the connection fails if and only if an event fails before that |
| Sending.ScheduleWithoutErrors | src/network.c:202-217 | events that never fail send everything if they take enough bytes in total, and otherwise exactly the bytes they take |
| Sending.WritesAddUp | src/network.c:205-215 | writes that take something add up, and the loop goes on with the next one |
| Sending.EventEnds | src/network.c:207-212 | EAGAIN and an error end the event after what was written before them |
| Sending.EventMeans | src/network.c:202-217 | in terms of the sizes of the single writes: what leaves, and whether the result is 0, 1 or -1 |
| Connection.Cio.SendSome | src/network.c:202-217 | exactly the bytes that the kernel takes before the first EAGAIN or error leave, in order; 0 if and only if those are all, -1 if and only if an error comes first, otherwise 1 |
| Connection.Cio.Clear | src/cio.c:74-90 | buffers, parser state, flag and count are as on a fresh connection |
| Connection.Cio.Response | src/network.c:69-102 | for every schedule of writes: what leaves is the prefix that the kernel takes, and it is the whole reply if and only if the kernel takes as many bytes as were waiting; a persistent connection clears the rest, the other kind keeps it and arms WRITE again |
| Connection.Cio.WholeReplyIff | src/network.c:69-102 | the same equivalence on the contents of the buffer alone, before the call |
| Connection.ShortWriteLoses | src/network.c:75-91 | a reply of two bytes on a persistent connection, of which the kernel takes one: that byte is all that leaves, and the buffer is empty |
| Connection.PiecesDeliver | src/network.c:202-217 | however small the pieces that the kernel takes one after the other: when they add up to the reply, all of it leaves in one event |
| Connection.Cio.SendAll | src/network.c:69-79 | over any sequence of write events a connection that is not persistent ends with the result and exactly the bytes of Sending.Schedule: 0 means the whole reply has left |

## Left out

- The MySQL handlers (`src/thrs_handler.cpp`, `src/thr_socket.cpp`): a command body stands for work that ends with exactly one reply.
- Sockets, logging, time, memory accounting and configuration: reads, writes and readiness are parameters of the methods.
- The kqueue backend, the thread pool (`src/cthread.c`) and its wake-up: workers may take a record at any time, and no liveness is claimed.
- Locks, atomics and reference counts: a locked region is one action, allocation succeeds, entries and objects are not freed.
- The branches of `cevents_poll` and `process_event` for connections without CEV_PERSIST: the protocol invariant shows that bit on every armed descriptor.
- `clist_walk_remove`, which nothing calls and whose loop expects a list that ends in NULL; `src/timer.h`, a stub; `str2l`, `cstr_toupper`, `reply_obj`, `reply_len`, `reply_cstr` and `reply_err`, which would add only easy members.
- The order in which the loop of `dict_iterator_next` counts the iterator: `DictHeap.Iterator.Next` does it before the scan, where only the first turn could.
- The key and value callbacks of the dictionary (duplicate, destroy): keys are compared by equality of values; `CommandDict` proves this of the one comparison shown.
- dict_clear and dict_del under an open iterator, which read `next` of an entry after its reference is dropped; iterator runs consist of the other calls.
- DictHeap.Dict.Add: assumes at most 2^30 entries, so that `used * 2` and the shift stay within an unsigned int.
- DictHeap.Dict.Replace: the same bound, because it adds.
- DictHeap.Dict.KeyIndex: the same bound, because it may expand.
- DictHeap.Dict.TryExpand: the same bound, on the first table.
- DictHeap.Dict.Expand: sizes up to 2^31; beyond that the doubling loop of the source wraps to 0 and never ends.
- DictHeap.Dict.PowSize: sizes up to 2^31, for the same reason.
- DictHeap.CallWhileIterating: the bound of Add.
- Clist.NewItem: the links of a new element refer to itself where the source leaves NULL; Insert overwrites them before anything reads them.
- DictRuns.LoadBound: excludes calls of dict_expand from outside and open iterators; OpenIteratorLoad and OutsideExpansionLoad say when the bound holds with them.
- Events.Cevents.AddEvent: excludes the descriptor MAX_EVENTS itself, which the guard `fd > MAX_EVENTS` lets through to a write beyond the array; and an empty mask, which no caller passes.
- Events.Cevents.DelEvent: excludes the descriptor MAX_EVENTS itself, for the same reason.
- Events.Cevents.constructor: takes the registry as zeroed; the memset at `src/cevent.c:50` has its arguments swapped and zeroes nothing.
- Events.Cevents.PollEpoll: assumes what the kernel promises, one report for each descriptor and only bits that were asked for.
- Protocol: the accepting of a descriptor that is still known, or at or beyond MAX_EVENTS, is excluded; handler pointers are numbers, and `priv` is not followed.
- Decimal.PrintLl: a negative number with size 0 is excluded, where `size - 1` wraps; the magnitude of LLONG_MIN is taken as an unsigned number, which the negation in C does not promise.
- Decimal.ParseLl: with length 0 the byte at the pointer is assumed not to be a minus sign; the source would then run past its end. Both callers have a CR there.
- Cstr.Str.Extend: assumes that the doubled length fits in 32 bits.
- Cstr.Str.Dup: the same.
- Cstr.Str.Ncat: assumes that the doubled length fits in 32 bits, and that the caller keeps a moved buffer, although the callers in `src/network.c` drop the returned pointer.
- Cstr.Split: a one-byte separator and a non-empty input, as its only caller has; the pieces are values, not string objects.
- Connection.Cio.SendSome: a write returns a positive count of at most the rest, EAGAIN or an error.
- Connection.Cio.Protest: on a persistent connection, where a reply only arms WRITE; `armed` counts those instead of changing a registry, which Protocol does.
- Connection.Cio.ReplyBulk: of a string object; for any other kind the source writes an empty bulk string.
- Connection.Cio.Feed: assumes that the buffer and what is to come fit, doubled, into 32 bits.
- Closing.ReadRecord: excludes a command completed on a flagged connection, which ProtocolRuns.FlaggedCompletionBreaks speaks of; so do the runs of GivenUpForGood.
- Serving.ServeRun: one schedule, in which no other record or command is under way; what holds of every schedule is in Closing.
- GuardedReads.FaultBreaksIff: the faults before the one in question are final; after one that is not, ownership may be lost already. A fault in a pass that began inside a body is decided by the buffer alone and has no line in the table of faults.
- ParserFaults.FaultsRecoverableIff: the pass began with no body pending; otherwise LaterCompletionIff decides.
- ParserReads.ReceivableIff: commands up to the limit of 0x10240 bytes as a whole, which the limit check leaves alone however they are cut.
- CommandDict.Commands.Process: says which command is called or which error is reported, not what the command does, the texts of the error replies, or the close flag that quit sets (Protocol has the flag); lower-casing is that of the C locale.
