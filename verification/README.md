# Verified models of the Landscape client's core

These Dafny files model the parts of the Landscape client that keep state across failures, and
prove what they promise. `dafny verify dfyconfig.toml` checks everything.

- **Common** is what several modules share.
- **Message delivery.** `StoreModel` is the message queue as a sequence of entries, live or held,
  with the sequence S and the pending offset P; the live message at index i has the number
  S - P + i. `Delivery` puts it beside a server that follows the receiver's documented rules and
  makes the whole a machine of steps: add, start an exchange, deliver the request, lose request or
  response, complete, handle a response, trim, clear, forget (roll back). `DeliveryRuns` has the
  results about runs, `DeliveryExchanges` those about payloads, completed exchanges and rollbacks,
  `DeliveryTrims` those about trimming and clearing. `FileStore` and `MessageStore` are the store
  as it is on disk, numbered files in numbered directories, with the source's loops over walks
  that list directories lazily while files are renamed and unlinked; every operation is proved to
  do what its counterpart on sequences does. `Exchange` is the exchange on top of that store, and
  shows that handling a response is a run of the machine. `ExchangeRuns` puts it together: what
  is promised of runs holds of the files of a client that adds messages, exchanges and restarts.
- **bpickle** (`KeyOrder`, `Decimal`, `Bpickle`, `BpickleProofs`, `BpickleText`, `BpickleFormat`,
  `BpickleCode`). Values of any depth, the printer with its sorted keys, the parser that passes
  positions; what becomes of keys without `as_is`; the format spelled out; and the source's loops,
  proved against the printer and the parser.
- **Persist** (`PersistTree`, `PersistFile`, `Persist`). Nested dictionaries addressed by path,
  with creation on the way down and pruning on the way up; and saving with a backup, stopped at
  any byte.
- **AMP method calls** (`Amp`). Pieces, buffers, and any interleaving of calls.
- **SequenceRanges**. Bisection, merging and splitting on canonical range lists.
- **Accumulate**. Step accumulation and the integral it computes.
- **Sysinfo**. The search for the number of columns, and where the text of each header ends up.
- **User changes** (`Diff`, `UserChanges` in one file, `UserReplica`). The reports of changed users
  and groups, and a reader that replays them.

Where the code does less than one might hope, the exact condition is stated, with an input:

- After a server has forgotten messages of the last acknowledged batch, not all of them need be
  sent again: those whose type was dropped meanwhile are held by the walk that ends the exchange
  (`DeliveryExchanges.ForgottenReturns`, `DeliveryExchanges.ForgottenAndHeld`).
- Saving is safe against a stop at any point only if, when it begins, the main file loads or is
  absent while the `.old` file loads (`PersistFile.SaveIsAtomicWhen`): the very first save can
  leave a file that does not load (`PersistFile.FirstSaveTorn`), and after a recovery from the
  `.old` file a second stop can lose everything (`PersistFile.SecondCrashLoses`). A restarted
  client does not look at the `.old` file at all when the main file is missing
  (`PersistFile.RestartIsSafeWhen`).
- Trimming the queue adjusts neither the pending offset nor the sequence. On the store alone,
  messages are taken for sent ones unless no live message was trimmed or nothing had been sent
  (`StoreModel.TrimSkips`, `StoreModel.TrimLoses`). For delivery that is not enough: with a lost
  response the numbers shift even if nothing counts as sent (`DeliveryTrims.TrimForgets`).
  `DeliveryTrims.TrimSafeExactly` has the exact condition, `DeliveryTrims.ClearSafeExactly` that
  for clearing, with the input `DeliveryTrims.ClearForgets`; `DeliveryTrims.UnsafeTrimLoses` and
  `DeliveryTrims.UnsafeClearLoses` show what any other trim or clearing costs.
- The column search divides by zero or does not end for some widths that do not exceed the
  indentation (`Sysinfo.SearchEnds`, `Sysinfo.EndlessSearch`).
- Without `as_is` a value comes back from bpickle unchanged only if it has no bytes keys
  (`BpickleProofs.RoundTripExactly`).

Where the code and its documentation disagree the code is followed: the accumulator's docstring
starts from no data before 300/2.0 and shows no data point there, while the code, which starts from
(0, 0), emits one for time 300.

## Model

| member | source | states |
|---|---|---|
| DeliveryRuns.ReliableDelivery | landscape/client/broker/exchange.py:188-203 | On every run of adds, exchanges with the request or the response lost, completed exchanges, changes of accepted types, and harmless trims and clearings: no RESYNC ever; the receiver's log holds no message twice and holds every message the client has deleted except by trimming; and the log, the client's live messages from the receiver's next number on, the held and the trimmed messages together are exactly the messages added. |
| ExchangeRuns.RunExchange | landscape/client/broker/exchange.py:558-664 | One whole exchange on the store on disk, whether the request arrives or not and however it ends: the files afterwards are those of a longer run, of which the promise of reliable delivery holds, as long as no message added at its end does damage by trimming the queue. That is always so for an empty answer, for an error after which nothing is queued, for a response while the store rejects messages, and for a response that asks for no resynchronization from a server that has forgotten nothing, at the limits of the store or not; and for errors and such responses below those limits. |
| ExchangeRuns.SendMessage | landscape/client/broker/store.py:418-466 | A message added between exchanges or while one is under way: the files afterwards are those of a longer run, whether it is rejected, queued, or trims or clears the queue, as long as that does no damage. |
| ExchangeRuns.Begin | landscape/client/broker/exchange.py:558-586 | The beginning of an exchange is a step, and gives the payload of the system; while one is under way nothing happens. |
| ExchangeRuns.RequestArrives | landscape/client/broker/exchange.py:188-203 | The arrival of the request at the server is a step that leaves the files alone. |
| ExchangeRuns.Finish | landscape/client/broker/exchange.py:590-653 | The end of an exchange, after any number of messages added meanwhile, with the same promise and the same certain cases as the whole exchange; the API version never exceeds the client's highest if it did not before. |
| ExchangeRuns.Restart | landscape/client/broker/store.py:137-155 | A client restarted on the files and metadata of another one is on its run; an exchange under way has failed. |
| ExchangeRuns.OnDisk | landscape/client/broker/exchange.py:188-203 | The promise of reliable delivery holds of the files of every client on a run without rollbacks. |
| ExchangeRuns.NoResync | landscape/lib/message.py:36-58 | A server that has forgotten nothing never causes RESYNC. |
| ExchangeRuns.HarmlessEnding | landscape/client/broker/exchange.py:590-653 | An ending does no damage for certain if what it adds is rejected or trims nothing; what becomes of the message for RESYNC does not matter when the server has forgotten nothing. |
| ExchangeRuns.NewClient | landscape/client/broker/exchange.py:378-424 | A new client is on the run without steps. |
| ExchangeRuns.EndingIsSteps | landscape/client/broker/exchange.py:590-653 | Every ending of an exchange, with a response, empty or with an error, with added messages rejected, queued or trimming the queue, is steps of the system, as long as no added message does damage. |
| DeliveryRuns.NeverTwice | landscape/client/broker/exchange.py:193-203 | The same runs with a server that may forget any part of its log at any moment: still nothing is in the log twice. |
| DeliveryRuns.ResyncExactlyWhen | landscape/lib/message.py:36-58 | A step returns RESYNC if and only if it completes an exchange whose answer is below the number of the oldest message the client still has. |
| DeliveryExchanges.RollbackRecovered | landscape/lib/message.py:49-55 | A server that rolled back to a number within the last acknowledged batch: the next exchange, with the walk that ends it, returns no RESYNC, deletes nothing, and of the messages from the server's number on exactly the sendable ones are pending again, in order. |
| DeliveryExchanges.RollbackResent | landscape/lib/message.py:49-55 | After that and enough exchanges with nothing added, the log is what the server had kept followed by all sendable messages from its number on, in order. |
| DeliveryExchanges.ForgottenReturns | landscape/lib/message.py:49-55 | So a forgotten message is in the log again if and only if its type is accepted and its API version is up to the server's now; re-sending everything is not what the code does. |
| DeliveryExchanges.ForgottenAndHeld | landscape/client/broker/exchange.py:898-908 | The input for that, as a run from the start: sent, acknowledged, its type dropped by the same response, then forgotten; the exchange that finds out holds the message. |
| DeliveryExchanges.PayloadFacts | landscape/client/broker/exchange.py:743-801 | A payload holds the live messages numbered S, S+1, ... as they stand after the walk; at most the maximum; one API version; each of an accepted kind and of a version up to the server's; and it is empty only if nothing pending is such. |
| DeliveryExchanges.ExchangeDelivers | landscape/client/broker/exchange.py:807-908 | After a completed exchange with a server that has all acknowledged messages, both sides agree on the next number and the log has grown by exactly the payload; of the messages behind it all sendable ones are pending, and the closing walk has only held what cannot be sent. |
| DeliveryExchanges.PendingFalls | landscape/client/broker/exchange.py:743-801 | With no new messages, every completed exchange lowers the number of pending messages by the size of its payload at least, and strictly as long as any is pending. |
| DeliveryExchanges.ClosingWalk | landscape/client/broker/exchange.py:898-908 | The walk that ends every exchange moves nothing, holds only what cannot be sent, and leaves all sendable messages pending. |
| DeliveryExchanges.Drained | landscape/client/broker/exchange.py:743-801 | Enough completed exchanges with nothing added leave no sendable message pending, and all of them are in the log in queue order. |
| DeliveryExchanges.OldVersionsArrive | landscape/client/broker/store.py:297-303 | A pending message of an accepted kind arrives even if the server speaks a newer version by now; one of a newer version than the server's does not. |
| DeliveryExchanges.ExchangeSendable | landscape/client/broker/exchange.py:743-801 | One exchange moves a non-empty front of the sendable pending messages into the log and touches no other. |
| DeliveryRuns.RunKeeps | landscape/client/broker/exchange.py:188-203 | The system invariant holds after every run that starts in it. |
| Delivery.StepKeeps | landscape/client/broker/exchange.py:188-203 | Every single step, rollbacks, harmless trims and clearings included, keeps the invariant: numbers and log agree, every message is in exactly one place, and what the server has beyond S will be sent again first. |
| Delivery.InitialInv | landscape/client/broker/exchange.py:188-203 | The empty client and the empty server satisfy the invariant. |
| Delivery.StartKeeps | landscape/client/broker/exchange.py:743-801 | Building a payload keeps the invariant, and the payload begins with every message the server may already have. |
| Delivery.DeliverKeeps | landscape/client/broker/exchange.py:193-203 | The receiver's rules, on a payload that overlaps its log or lies ahead of it, keep the log equal to what the numbers say. |
| Delivery.ReceiveMeaning | landscape/client/broker/exchange.py:193-203 | A payload from the future changes nothing; otherwise what the receiver has stays and the messages with numbers it has not seen follow under their numbers. |
| Delivery.CompleteKeeps | landscape/lib/message.py:6-58 | Handling an answer keeps the invariant in all four cases, lost and repeated answers included; RESYNC exactly below the base number. |
| DeliveryTrims.TrimSafeExactly | landscape/client/broker/store.py:315-336 | Trimming keeps the invariant if and only if no live message goes, or the server has nothing beyond the base number S - P, nothing is on its way to it, and the offset still points into the queue. |
| DeliveryTrims.TrimPrefixExactly | landscape/client/broker/store.py:315-336 | After trimming the log is still what the numbers say if and only if no live message went or the server has nothing beyond the base number. |
| DeliveryTrims.ClearSafeExactly | landscape/client/broker/store.py:337-345 | Clearing keeps the invariant if and only if the server has nothing beyond the sequence and nothing is on its way to it. |
| DeliveryTrims.TrimForgets | landscape/client/broker/store.py:315-336 | The input where nothing counts as sent and a trim still loses a message: the response was lost, the first message is trimmed, the second gets its number and is discarded by the receiver as seen. |
| DeliveryTrims.ClearForgets | landscape/client/broker/store.py:337-345 | The same state cleared: the next message added gets the number of the one the server has, is discarded as seen, and counts as acknowledged. |
| DeliveryTrims.UnsafeTrimLoses | landscape/client/broker/store.py:315-336 | Damage is real: from every state of a run without rollbacks, after a trim that is not harmless, the arrival of the request under way if needed, and any accepted message added, some message is neither in the log nor still to be sent, nor held, nor trimmed, and the promise of reliable delivery fails. |
| DeliveryTrims.UnsafeClearLoses | landscape/client/broker/store.py:337-345 | Likewise after a clearing that is not harmless: the next accepted message is lost. |
| DeliveryTrims.AddIsSteps | landscape/client/broker/store.py:418-466 | An add that trims or clears is steps of the system, as long as that is harmless. |
| StoreModel.GotNextExpectedFacts | landscape/lib/message.py:6-58 | RESYNC if and only if the number is below S - P or above S - P plus the live messages; 0 <= P <= live messages afterwards; what is deleted are the oldest live messages, all numbered below the old S, and never a held one; without RESYNC the base number moves by exactly the number deleted. |
| StoreModel.NumbersUnchanged | landscape/lib/message.py:36-58 | Unless RESYNC is returned, every surviving live message keeps its number. |
| StoreModel.IsPendingFacts | landscape/client/broker/store.py:374-389 | A message is pending exactly when it is held or its number is at least the sequence. |
| StoreModel.SetAcceptedTypesFacts | landscape/client/broker/store.py:161-170 | No message is lost or duplicated; the sent ones are untouched; after them come the accepted unsent ones in their order, then the released ones in theirs; every live message past the offset is accepted and no held one is; in the whole queue only released messages have moved, to the end. |
| StoreModel.PendingFacts | landscape/client/broker/store.py:270-304 | The walk moves and releases nothing, holds only what cannot be sent, changes nothing before the offset, and returns the first pending messages as they stand afterwards: sendable, at most the maximum, and all of them unless the maximum was reached. |
| StoreModel.PendingMeaning | landscape/client/broker/store.py:270-304 | The walk returns exactly the pending messages of an accepted kind and of an API version up to the server's, older versions included, in order and up to the maximum; such a message it never holds; where the maximum was not reached it has held all others. |
| DeliveryExchanges.SendableKept | landscape/client/broker/store.py:270-304 | The walk holds no message that could have been sent. |
| StoreModel.PendingKeeps | landscape/client/broker/store.py:270-304 | Pending messages that were sendable and fit the maximum are returned first again, in the same order. |
| StoreModel.DropLiveFacts | landscape/client/broker/store.py:347-356 | Deleting old messages removes the first live ones and no held one. |
| StoreModel.AddFacts | landscape/client/broker/store.py:418-466 | An added message is last, live or held as its type says, and no other message changes. |
| StoreModel.TrimSkips | landscape/client/broker/store.py:418-432 | An add that trims: the offset still counts the sent messages that are left if and only if no live message was trimmed or nothing had been sent; with an accepted new message, the unsent messages and the new one are the pending ones, in order, under exactly the same condition. |
| StoreModel.TrimLoses | landscape/client/broker/store.py:315-336 | A store where an unsent message is skipped after a trim and then deleted when the server acknowledges the one behind it: it was never sent. |
| StoreModel.BatchFacts | landscape/client/broker/exchange.py:771-785 | A batch is the longest prefix with the API version of the first message, and not empty if there is one. |
| MessageStore.MessageStore.AddMessage | landscape/client/broker/store.py:418-466 | While the store waits for a resync the message is rejected and nothing changes. Otherwise the store is the old one, trimmed at the front, with the message appended, held or not; at most max_dirs + 1 directories exist afterwards; a new one is opened only behind a full one. Below the limits nothing is trimmed; and a store whose directories but the newest are full stays so, and trims nothing as long as it holds fewer than max_dirs times the directory size of messages. |
| MessageStore.MessageStore.RecordFailure | landscape/client/broker/store.py:396-416 | After more than seven days of failures exactly one message of kind resynchronize is queued, and from then on messages are rejected. |
| MessageStore.MessageStore.RecordSuccess | landscape/client/broker/store.py:391-394 | A success ends that. |
| MessageStore.MessageStore.NextMessageFilename | landscape/client/broker/store.py:468-487 | The name is unused, after every other in walk order, in the newest directory, and that directory has room for it; a new directory is opened only when there is none or the newest one is full; numbers start at zero and follow the last one. |
| MessageStore.PackedBound | landscape/client/broker/store.py:468-487 | In a store whose directories but the newest are full, the number of messages is at least that of the directories but one times the directory size. |
| MessageStore.MessageStore.ReprocessHolding | landscape/client/broker/store.py:518-544 | The renaming loop, which meets its own renamed files again in directories it has yet to list, leaves exactly the kept entries followed by the released ones. |
| MessageStore.MessageStore.SetTypes | landscape/client/broker/store.py:161-170 | The files after the loop are those of the abstract operation that SetAcceptedTypesFacts is about. |
| MessageStore.MessageStore.GetPendingMessages | landscape/client/broker/store.py:270-304 | The loop over files with its running offset returns and leaves what the abstract walk does. |
| MessageStore.MessageStore.DeleteOldMessages | landscape/client/broker/store.py:347-356 | Exactly the first P live files are unlinked; exactly the directories that this leaves empty go with them. |
| MessageStore.MessageStore.CountPendingMessages | landscape/client/broker/store.py:266-268 | The count is that of the live messages past the offset. |
| MessageStore.MessageStore.IsPendingMessage | landscape/client/broker/store.py:374-389 | The loop computes the predicate IsPendingFacts is about. |
| MessageStore.MessageStore.DeleteMessagesOverLimit | landscape/client/broker/store.py:315-345 | Exactly the directories over max_dirs go, oldest first, and with them a prefix of the queue and nothing else; the offset is changed only when everything goes. |
| MessageStore.MessageStore.TrimDirs | landscape/client/broker/store.py:326-336 | The loop removes the oldest directories, which hold a prefix of the queue. |
| MessageStore.MessageStore.DeleteAllMessages | landscape/client/broker/store.py:358-362 | The loop unlinks every file, held ones included, and leaves the directories; the offset is zero. |
| MessageStore.MessageStore.Advance | landscape/client/broker/store.py:498-506 | A walk that lists each directory on entering it yields the files of the queue as they are at that moment, in order; every directory it has yet to list exists, whatever the loop around it removes. |
| MessageStore.MessageStore.SortedDirs | landscape/client/broker/store.py:508-513 | The directories, each once, in numeric order. |
| MessageStore.MessageStore.Listing | landscape/client/broker/store.py:508-513 | The files of a directory, each once, by number, are its part of the queue, in order. |
| MessageStore.MessageStore.SetHeld | landscape/client/broker/store.py:546-561 | Changing a flag renames a file in place: its place in the queue and its message stay. |
| MessageStore.MessageStore.Unlink | landscape/client/broker/store.py:347-356 | One entry leaves the queue, all others keep their order; the directory goes if and only if that was its last file. |
| MessageStore.MessageStore.UnlinkFile | landscape/client/broker/store.py:358-362 | The same without removing the directory. |
| MessageStore.MessageStore.MoveToEnd | landscape/client/broker/store.py:534-539 | Renaming a file to a fresh name moves its entry to the end. |
| MessageStore.MessageStore.RemoveTree | landscape/client/broker/store.py:332-336 | The oldest directory holds a prefix of the queue. |
| MessageStore.MessageStore.constructor | landscape/client/broker/store.py:137-155 | An empty store. |
| MessageStore.MessageStore.Reopen | landscape/client/broker/store.py:137-155 | A store opened on what an earlier one left has the same queue, numbers and types. |
| MessageStore.DirectoriesBounded | landscape/client/broker/store.py:468-487 | In every valid store, and every method above leaves one, no two files share a number in a directory, across holds, releases and deletions, and no directory exceeds its size. |
| FileStore.ListsUnique | landscape/client/broker/store.py:498-513 | There is one ascending listing of a set of files. |
| FileStore.InAllDirs | landscape/client/broker/store.py:498-513 | Walking all directories in numeric order visits the whole queue in order. |
| Exchange.GotNext | landscape/lib/message.py:6-58 | The method on a store does what the abstract function does, and returns RESYNC when it does. |
| Exchange.MessageExchange.MakePayload | landscape/client/broker/exchange.py:743-801 | The payload is the one-version batch of the abstract walk; the total is the number pending afterwards. |
| Exchange.MessageExchange.HandleResult | landscape/client/broker/exchange.py:807-908 | Number, RESYNC message, negotiated API version, handlers and final walk, in this order, leave the state AfterResponse names, whether messages added on the way are rejected, trim the queue or neither. The sequence is the number given, or the old one past the payload; the API version is the server's capped at the client's highest if the server's is not below the one in use, and unchanged otherwise; the accepted types are the last ones sent. |
| Exchange.MessageExchange.HandleMessage | landscape/client/broker/exchange.py:507-535 | A message with accepted types sets them, reprocesses the queue and walks it; a request to resynchronize adds a message of that kind; any other changes nothing in the store. |
| Exchange.MessageExchange.BeginExchange | landscape/client/broker/exchange.py:558-664 | While an exchange is under way another one does nothing. |
| Exchange.MessageExchange.FinishExchange | landscape/client/broker/exchange.py:590-653 | Every ending allows the next exchange; a response is handled and counts as a success; an empty one changes nothing; an error is recorded, which after a week queues a resynchronize message. |
| Exchange.ResponseIsSteps | landscape/client/broker/exchange.py:807-908 | Handling a response on a store, added messages rejected, queued or trimming the queue, is a run of the protocol steps the delivery results are about, from the moment the response is there to the end of the exchange, as long as no added message does damage. |
| Exchange.HandlersAreSteps | landscape/client/broker/exchange.py:507-535 | So are the handlers of any list of messages in a response, requests to resynchronize included, whatever becomes of their answers. |
| Exchange.HarmlessResponse | landscape/client/broker/exchange.py:807-908 | A response does no damage if every message it adds is rejected or trims nothing; the one for RESYNC does not matter when there is no RESYNC. |
| Exchange.SilentAcknowledgement | landscape/client/broker/exchange.py:821-830 | A response without a number is taken for the number the receiver would have answered; true as long as the server has forgotten nothing. |
| Exchange.PlainResponse | landscape/client/broker/exchange.py:807-908 | A response with the receiver's number and nothing else makes of the store exactly what the completed exchange does that the results about exchanges are about. |
| Exchange.ResyncTagged | landscape/client/broker/exchange.py:835-846 | The message that answers RESYNC comes last and carries the version in use before the response, not the one negotiated by it. |
| BpickleProofs.LoadInContext | landscape/lib/bpickle.py:41-64 | For any value and any bytes around its dump, the loader started at the dump returns the value and the offset just past it. |
| BpickleProofs.LoadDump | landscape/lib/bpickle.py:112-184 | The same wherever the dump stands in the data, at any nesting depth, by induction on the value. |
| BpickleProofs.LoadsDumps | landscape/lib/bpickle.py:48-64 | loads(dumps(v)) is v, whatever follows the dump; without as_is for values whose dictionaries have no bytes keys. |
| BpickleProofs.RoundTripExactly | landscape/lib/bpickle.py:168-180 | Without as_is, loads(dumps(v)) is v if and only if no dictionary in v has a bytes key; with as_is it always is. |
| BpickleProofs.LoadedKeys | landscape/lib/bpickle.py:168-180 | On any data, loading without as_is gives no dictionary with a bytes key. |
| BpickleText.LoadsTexted | landscape/lib/bpickle.py:168-180 | For every value that can be dumped, loads(dumps(v)) is v with every bytes key, at any depth, replaced by the text of the same bytes, and an error if some bytes key is not ASCII. |
| BpickleText.LoadTexted | landscape/lib/bpickle.py:168-180 | The same wherever the dump stands in the data. |
| BpickleText.NamesApart | landscape/lib/bpickle.py:174-179 | In a dictionary that was dumped no two keys become the same by that. |
| BpickleFormat.KeyChecked | landscape/lib/bpickle.py:174-180 | Without as_is a key of bytes becomes text if it is ASCII and is an error otherwise; any other key has to be one that is allowed. |
| BpickleFormat.LastEntryWins | landscape/lib/bpickle.py:174-179 | In other data, when two entries end up under the same key the last one wins. |
| BpickleFormat.WireFormat | landscape/lib/bpickle.py:67-109 | Every kind of value has its letter, its length or its end mark. |
| BpickleFormat.WireItems | landscape/lib/bpickle.py:88-105 | Items follow one another; entries come key first, in the order of the sorted keys. |
| BpickleFormat.LoadsInts | landscape/lib/bpickle.py:116-118 | An integer is whatever is a number up to the semicolon, and an error otherwise. |
| BpickleFormat.LoadsBools | landscape/lib/bpickle.py:112-113 | A truth value is one character; any digit but zero is true. |
| BpickleFormat.LoadsStrings | landscape/lib/bpickle.py:126-134 | A byte string is as long as the number up to the colon says or as the data go; a negative length is an error. |
| BpickleFormat.LoadsUnknown | landscape/lib/bpickle.py:48-64 | Data without a known letter in front are an error. |
| BpickleFormat.Utf8Exactly | landscape/lib/bpickle.py:83-85 | Text is exactly the UTF-8 encodings of Unicode scalar values, one after the other. |
| BpickleFormat.DumpableExactly | landscape/lib/bpickle.py:41-109 | Which values can be dumped, kind by kind. |
| BpickleFormat.KeysSortable | landscape/lib/bpickle.py:96-105 | Keys that are all text, all bytes, all numbers, or tuples of text can be sorted. |
| BpickleFormat.KeysMixed | landscape/lib/bpickle.py:96-105 | Keys of different kinds cannot be sorted together, and neither can None with any other. |
| BpickleFormat.KeysAllowed | landscape/lib/bpickle.py:168-180 | Everything can be a key but lists, dictionaries, and tuples that hold one. |
| BpickleProofs.DumpsPrefixFree | landscape/lib/bpickle.py:67-109 | The dump of one value is a prefix of another's only if the values are equal; in particular dumping is injective. |
| BpickleProofs.TornContainerFails | landscape/lib/bpickle.py:148-180 | Any list, tuple or dictionary that can be dumped, cut at any place, at any depth, does not load, with as_is or without. |
| BpickleProofs.LoadCut | landscape/lib/bpickle.py:112-184 | What loading any cut dump can give, with as_is or without: an error, or a string that claims to end past the data. |
| BpickleProofs.LoadEnds | landscape/lib/bpickle.py:112-184 | A whole dump is loaded to its last byte or not at all; reinterpreted keys can make it fail but never stop elsewhere. |
| BpickleProofs.TornBytesLoads | landscape/lib/bpickle.py:126-134 | A byte string cut after its header does load, as what is left of it. |
| Bpickle.Load | landscape/lib/bpickle.py:112-184 | Every loader that returns, returns a larger position, so parsing ends on every byte string. |
| BpickleCode.DumpsValue | landscape/lib/bpickle.py:41-109 | The recursive printer with its loops gives the dump the results are about. |
| BpickleCode.DumpsDict | landscape/lib/bpickle.py:96-105 | Sorted keys, each followed by its value. |
| BpickleCode.LoadsValue | landscape/lib/bpickle.py:112-184 | The position-passing parser with its loops computes Load on every input, errors included. |
| BpickleCode.LoadsItems | landscape/lib/bpickle.py:148-165 | The loop over items stops at the semicolon or at the first error. |
| BpickleCode.LoadsDict | landscape/lib/bpickle.py:168-180 | The loop over entries; a repeated key keeps its last value, an unhashable one is an error. |
| BpickleCode.LoadsBytes | landscape/lib/bpickle.py:48-64 | Empty or unknown data raises. |
| KeyOrder.SortKeys | landscape/lib/bpickle.py:96-105 | The keys in ascending order, each once. |
| KeyOrder.SortedKeysAscending | landscape/lib/bpickle.py:96-105 | The sorted keys ascend in the order of the keys. |
| KeyOrder.KeyOrderTotal | landscape/lib/bpickle.py:96-105 | That order is a strict total order on values that can be keys, tuples of any depth included. |
| KeyOrder.KeyOrderMeaning | landscape/lib/bpickle.py:96-105 | Integers and truth values sort by value and strings byte by byte. |
| KeyOrder.LexMeaning | landscape/lib/bpickle.py:96-105 | In the order of strings the first place where they differ decides, and a proper prefix comes first. |
| KeyOrder.TupleOrder | landscape/lib/bpickle.py:96-105 | Tuples sort by their first elements, and if those are the same by the rest. |
| KeyOrder.EmptyTupleFirst | landscape/lib/bpickle.py:96-105 | The empty tuple sorts before all others. |
| KeyOrder.MixedTuples | landscape/lib/bpickle.py:96-105 | Tuples whose first differing elements cannot be compared cannot be sorted together. |
| Decimal.ParseIntRoundTrip | landscape/lib/bpickle.py:71-72 | int() reads back what an integer prints as. |
| BpickleFormat.IntTextMeaning | landscape/lib/bpickle.py:71-72 | Numbers are printed in decimal without leading zeros, with a minus sign if negative. |
| BpickleFormat.ParseIntMeaning | landscape/lib/bpickle.py:116-118 | Any digits are read as the number they stand for, with or without a sign. |
| BpickleFormat.ParseIntSpaces | landscape/lib/bpickle.py:116-118 | White space around a number does not matter. |
| BpickleFormat.Underscores | landscape/lib/bpickle.py:116-118 | Neither does one underscore between digits. |
| BpickleFormat.ParseIntRefuses | landscape/lib/bpickle.py:116-118 | Nothing, and anything with another character in it, is not a number. |
| PersistFile.SaveIsAtomicWhen | landscape/lib/persist.py:124-188 | A save that stops at any point leaves a disk from which load gets the old map or the new one without raising, if and only if it began with a main file that loads, or with no main file and an .old file that loads. Neither the very first save nor the first one after a recovery from .old is of that kind. |
| PersistFile.StopIsSafe | landscape/lib/persist.py:156-188 | The safe direction, for one stopping point: before or after the rename, after truncation, after any prefix of the write, at the end. |
| PersistFile.SavesThenCrash | landscape/lib/persist.py:124-188 | Any number of complete saves, from any disk, and then one that stops anywhere: the last saved map or the new one. |
| PersistFile.SecondCrashLoses | landscape/lib/persist.py:124-188 | Where it fails: a torn save, a recovery, and a second save stopped after its rename leave nothing that loads. |
| PersistFile.RestartIsSafeWhen | landscape/lib/persist.py:95-96 | For every disk a client can start from, with or without a main file, and every stopping point: a restarted client has the old map or the new one if and only if that is safe; after a stop between the rename and the opening of the new file its map is empty although the .old file is good. |
| PersistFile.FirstSaveTorn | landscape/lib/persist.py:95-96 | For the very first save that is if and only if it does not stop inside the write after at least one byte; then nothing loads. |
| Persist.Persist.Save | landscape/lib/persist.py:156-188 | The files after a save, complete or stopped. |
| Persist.Persist.Load | landscape/lib/persist.py:124-154 | What load recovers, and when it raises; a failed load leaves the map alone. |
| Persist.Persist.Open | landscape/lib/persist.py:66-98 | A new Persist loads if the main file exists, raises if that fails, and is empty otherwise. |
| Persist.Persist.LoadOldFile | landscape/lib/persist.py:127-136 | A missing or empty .old file changes nothing. |
| Persist.Persist.Traverse | landscape/lib/persist.py:190-213 | The walk down a path finds, misses or is blocked by a leaf. |
| PersistTree.LookupMeaning | landscape/lib/persist.py:190-213 | Nothing is found exactly where a dictionary on the way lacks the next key; the walk raises exactly when it would go on from a leaf. |
| Persist.Persist.Get | landscape/lib/persist.py:274-278 | The node, the default, or an error when a leaf is in the way. |
| Persist.Persist.Set | landscape/lib/persist.py:280-292 | Fails exactly when a leaf is in the way, and then changes nothing; otherwise the two loops, one down and one creating dictionaries one at a time, give the tree the results below are about, and the value is found at the path. |
| Persist.Persist.Remove | landscape/lib/persist.py:313-349 | The upward loop leaves the pruned tree; it fails exactly when a leaf is in the way; it reports whether the last round removed anything: the path was there, or the dictionary above it was empty already. |
| PersistTree.GetAfterSet | landscape/lib/persist.py:190-233 | get after set gives the value. |
| PersistTree.SetFailsAtLeaves | landscape/lib/persist.py:190-233 | set fails if and only if a leaf lies on a proper prefix of the path. |
| PersistTree.SetFrame | landscape/lib/persist.py:190-233 | set leaves every path alone that is no prefix or extension of its own. |
| PersistTree.PutEmptyThenSet | landscape/lib/persist.py:213-233 | Putting one missing dictionary on the way does not change what the whole set will give. |
| PersistTree.PutIsSet | landscape/lib/persist.py:557-572 | The last put is the whole set when the dictionary above is there. |
| PersistTree.GetAfterRemove | landscape/lib/persist.py:313-349 | After remove nothing is at the path. |
| PersistTree.RemoveFrame | landscape/lib/persist.py:313-349 | remove, pruning included, leaves every path alone that is no prefix or extension of its own. |
| PersistTree.DeleteThenPrune | landscape/lib/persist.py:329-348 | One round of the loop, and when another must follow. |
| PersistTree.SetThenRemove | landscape/lib/persist.py:313-349 | Setting an absent path and removing it again restores the tree if and only if the last dictionary already there on the way is the root or not empty. |
| PersistTree.InnerEntries | landscape/lib/persist.py:313-349 | In a tree without empty inner dictionaries that is always so. |
| PersistTree.RootsIndependent | landscape/lib/persist.py:376-450 | Views rooted at diverging paths do not see each other's changes. |
| Amp.EveryCallDispatchedOnce | landscape/lib/amp.py:153-205 | Once all commands of a call have arrived, among any other commands, calls still half sent included: the call has been answered exactly once, from exactly the arguments its sender passed, and its buffer is gone. |
| Amp.CallRuns | landscape/lib/amp.py:153-195 | A completed call of an allowed method, with positional arguments that have elements and keyword arguments under text keys, has run the method with exactly these, once. |
| Amp.CallRefused | landscape/lib/amp.py:153-195 | A completed call of a method that is not allowed, with a number or None for the positional arguments, or with anything but text for a keyword, has been answered with an error, once. |
| Amp.OtherArguments | landscape/lib/amp.py:153-195 | A list of two is as good as a tuple; any other number of elements is an error, and so are data that do not load. |
| Amp.AllBuffersGone | landscape/lib/amp.py:169-184 | When every stream has arrived no buffer is left. |
| Amp.Independent | landscape/lib/amp.py:153-205 | What a call leads to depends on its own commands alone. |
| Amp.NoStrayBuffers | landscape/lib/amp.py:198-205 | Buffers belong to calls under way. |
| Amp.StreamReply | landscape/lib/amp.py:276-316 | A whole stream ends in one reply computed from the joined pieces. |
| Amp.JoinPieces | landscape/lib/amp.py:282-285 | Joining the pieces gives the data back. |
| Amp.HandleDump | landscape/lib/amp.py:153-195 | The receiver unpacks what the sender packed, and makes the call exactly if the method is allowed and the arguments can be spread. |
| Amp.Pieces | landscape/lib/amp.py:282-285 | No piece is empty or longer than the chunk size, and all but the last are exactly as long. |
| Amp.SendMethodCall | landscape/lib/amp.py:262-316 | All pieces but the last go as chunks in order, the last as the call; none is longer than the chunk size. |
| Amp.MethodCallReceiver.ReceiveMethodCall | landscape/lib/amp.py:153-195 | Buffer and log after a call, its errors included. |
| Amp.MethodCallReceiver.ReceiveMethodCallChunk | landscape/lib/amp.py:198-205 | A chunk only grows its own buffer. |
| SequenceRanges.AddToRanges | landscape/lib/sequenceranges.py:125-171 | From any canonical list: insertion into the set, and the list stays canonical, whichever neighbours merge. |
| SequenceRanges.RemoveFromRanges | landscape/lib/sequenceranges.py:174-197 | From any canonical list: deletion from the set, and the list stays canonical, whatever the run is split into. |
| SequenceRanges.CanonicalUnique | landscape/lib/sequenceranges.py:61-91 | Two canonical lists of the same set are the same list. |
| SequenceRanges.CanonicalMeaning | landscape/lib/sequenceranges.py:61-91 | In a canonical list pairs stand for at least three integers, single entries never for three in a row, entries ascend, and a pair touches no neighbour. |
| SequenceRanges.ExpandInjective | landscape/lib/sequenceranges.py:61-104 | Two canonical lists with the same expansion are the same list. |
| SequenceRanges.SequenceToRanges | landscape/lib/sequenceranges.py:61-91 | Raises exactly when the input is not strictly increasing, for the first item out of order: as a duplicate if it repeats its predecessor, as unordered if it is below; otherwise the result is canonical and expands to the input. |
| SequenceRanges.RangesToSequence | landscape/lib/sequenceranges.py:94-104 | Raises exactly when some range is reversed, and names the first one; otherwise the expansion. |
| SequenceRanges.ExpandMembers | landscape/lib/sequenceranges.py:94-104 | The expansion lists exactly the members. |
| SequenceRanges.ExpandIncreasing | landscape/lib/sequenceranges.py:94-104 | The expansion of a canonical list is strictly increasing. |
| SequenceRanges.FindRangesIndex | landscape/lib/sequenceranges.py:107-122 | Bisection: everything before the index ends below the item, nothing from it on does. |
| SequenceRanges.Contains | landscape/lib/sequenceranges.py:45-52 | Membership in the set. |
| SequenceRanges.AddThenRemove | landscape/lib/sequenceranges.py:125-197 | Adding a new item and removing it restores the identical list. |
| SequenceRanges.AddsCommute | landscape/lib/sequenceranges.py:125-171 | Two additions in either order give the identical list. |
| SequenceRanges.SequenceRanges.FromSequence | landscape/lib/sequenceranges.py:24-29 | A bad sequence leaves the contents alone. |
| SequenceRanges.SequenceRanges.ToSequence | landscape/lib/sequenceranges.py:36-37 | The members in strictly increasing order. |
| SequenceRanges.SequenceRanges.Has | landscape/lib/sequenceranges.py:45-52 | Membership. |
| SequenceRanges.SequenceRanges.Add | landscape/lib/sequenceranges.py:54-55 | Insertion; the list stays canonical. |
| SequenceRanges.SequenceRanges.Remove | landscape/lib/sequenceranges.py:57-58 | Deletion; the list stays canonical. |
| Accumulate.StoredIsArea | landscape/client/accumulate.py:93-120 | After any samples in order of time, the stored value is the integral of the step function from the start of the current step to the last sample. |
| Accumulate.EmittedIsMean | landscape/client/accumulate.py:93-120 | A point is emitted if and only if the last sample enters the step right after its predecessor's; it carries the boundary crossed, a multiple of the step size, and its value times the step size is the integral over the whole step that ends there. |
| Accumulate.PointsAdvance | landscape/client/accumulate.py:93-120 | Each point is for a strictly later time than every point before it. |
| Accumulate.PointBetweenSamples | landscape/client/accumulate.py:93-120 | Each point lies between any bounds of the samples. |
| Accumulate.KeysIndependent | landscape/client/accumulate.py:80-90 | What is stored for a key is what its own samples alone would leave. |
| Accumulate.AccumulateCases | landscape/client/accumulate.py:93-120 | The three branches, told by step boundaries. |
| Accumulate.Accumulator.Call | landscape/client/accumulate.py:80-90 | A call updates its own key and returns the point. |
| Sysinfo.FormatHeaders | landscape/sysinfo/sysinfo.py:153-250 | Raises exactly when the number of columns to start from is zero; gives lines exactly when the search ends; the lines are those of the greatest number of columns that fits, or of one column. |
| Sysinfo.SearchEnds | landscape/sysinfo/sysinfo.py:153-218 | The search ends if and only if the width exceeds the indentation or is more than the separator below it, and then starts with at least one column; the exact widths that divide by zero; for any other width no number of columns it comes to stops the loop. |
| Sysinfo.EndlessSearch | landscape/sysinfo/sysinfo.py:153-218 | With a separator of three spaces and a width two below the indentation that is so for any headers. |
| Sysinfo.EveryHeaderOnce | landscape/sysinfo/sysinfo.py:221-250 | In every line the cell of each column stands at that column's offset, the same for all lines: the name, a colon and a space, and the value where the widest name of the column wants it; between cells there is only padding and the separator; the line ends with its last cell; every line has a header. |
| Sysinfo.PlaceOfHeader | landscape/sysinfo/sysinfo.py:222-234 | Every header has a line and a column, and only one of each. |
| Sysinfo.LinesFit | landscape/sysinfo/sysinfo.py:212-250 | With more than one column every line is shorter than the width. |
| Sysinfo.CellAt | landscape/sysinfo/sysinfo.py:221-250 | One cell, for any column widths that fit their texts. |
| Sysinfo.OffsetsMeaning | landscape/sysinfo/sysinfo.py:185-210 | Each column is as wide as its widest name and value with a colon and a space between them; the separator keeps columns apart; the length compared with the width is that of all columns. |
| Sysinfo.WidestMeaning | landscape/sysinfo/sysinfo.py:191-208 | The widths are those of the widest name and the widest value, which need not belong to the same header. |
| Sysinfo.StartMeaning | landscape/sysinfo/sysinfo.py:155-169 | The number of columns tried first is as many of the shortest header and a separator as it takes to fill the width. |
| Sysinfo.FindColumns | landscape/sysinfo/sysinfo.py:176-218 | The greatest number of columns, from the start down, that fits or is one. |
| Sysinfo.Measure | landscape/sysinfo/sysinfo.py:185-210 | The widths of the columns and the length of a full row. |
| Sysinfo.BuildLine | landscape/sysinfo/sysinfo.py:222-250 | One line, column by column. |
| UserReplica.ReplicaFollows | landscape/client/monitor/usermonitor.py:112-164 | Over every run in which each report is either replayed and recorded in a snapshot or neither, with resynchronizations anywhere, the replay never fails, the replica agrees with the snapshot, and after a report with the data reported. |
| UserReplica.ReplayDifference | landscape/client/user/changes.py:59-144 | Replaying the report of a difference on the old state gives exactly the new one: users, group ids and memberships, groups whose id and members both change included. |
| UserReplica.NothingExactlyWhenSame | landscape/client/user/changes.py:59-144 | A report is empty if and only if users, group ids and memberships are the same. |
| UserReplica.FullReport | landscape/client/monitor/usermonitor.py:131-146 | The report after clear() can be replayed if and only if the replica has none of its users, groups and memberships; any other replica notices. |
| UserReplica.UsersReplayed | landscape/client/user/changes.py:71-85 | The users' part of a replay. |
| UserReplica.GidsReplayed | landscape/client/user/changes.py:94-144 | The group ids' part. |
| UserReplica.MembersReplayed | landscape/client/user/changes.py:94-144 | The memberships' part: no gain was there before, no loss was missing, and what is left is the new membership. |
| UserChanges.UserChanges.CreateDiff | landscape/client/user/changes.py:59-69 | The report is the difference of the snapshot and the current data, field by field; the snapshot stays. |
| UserChanges.UserChanges.DetectUserChanges | landscape/client/user/changes.py:71-85 | Created, changed and deleted users, each once; no empty field. |
| UserChanges.UserChanges.DetectGroupChanges | landscape/client/user/changes.py:88-144 | Created and deleted groups, changed ids, members gained and lost, each exactly; no empty field. |
| UserChanges.UserChanges.ChangedGroups | landscape/client/user/changes.py:113-139 | The loop over changed groups: ids that differ, members gained and lost, sorted. |
| UserChanges.UserChanges.NewGroups | landscape/client/user/changes.py:98-111 | The loop over new groups: all of them, and the members of those that have any. |
| UserChanges.UserChanges.Snapshot | landscape/client/user/changes.py:36-39 | The current data become the snapshot. |
| UserChanges.UserChanges.Clear | landscape/client/user/changes.py:41-47 | The snapshot is forgotten. |
| UserChanges.UserChanges.Refresh | landscape/client/user/changes.py:23-34 | Old data from the snapshot, new data from the provider. |
| UserChanges.UserChanges.constructor | landscape/client/user/changes.py:12-21 | A detector starts refreshed. |
| UserChanges.IndexFacts | landscape/client/user/changes.py:49-57 | An index has every name, and for each the last data given under it. |
| UserChanges.CreateIndex | landscape/client/user/changes.py:49-57 | The loop builds that index. |
| UserChanges.SortedNames | landscape/client/user/changes.py:118-144 | The names of a set, ascending, each once. |
| Diff.Diff | landscape/client/diff.py:1-23 | Creates, updates and deletes are exactly the keys that are new, changed and gone. |

## Left out

- HTTP, curl, Twisted, Deferreds, processes and signals: an exchange is a step with the outcomes completed, request lost and response lost. Concurrency is the interleaving of these steps with the others.
- Scheduling of exchanges, urgency, backoff, registration, session ids, tokens, digests of accepted types, and events fired at plugins.
- Exchange.MessageExchange.MakePayload: does not model the rewriting of `fde-recovery-key` messages, the digests and the token beside the messages.
- Exchange.MessageExchange.FinishExchange: does not model the downgrade of the API version and the second attempt after a 404, which is outside the delivery guarantee.
- MessageStore.MessageStore.AddMessage: does not model schema coercion; a message is its id, type and API version.
- MessageStore.MessageStore.ReprocessHolding: does not model message files that do not decode (BROKEN); every file decodes.
- MessageStore.MessageStore.GetPendingMessages: likewise, and does not model messages written by an earlier Python with bytes keys.
- MessageStore.MessageStore.DeleteMessagesOverLimit: does not model a directory that cannot be removed.
- MessageStore.MessageStore.TrimDirs: likewise.
- Crashes between deleting message files and committing the metadata; inode numbers used again for new files (ids of messages in the store are parameters).
- Message sizes: whether the stored messages are too large in all is a parameter of every operation that adds a message.
- Delivery.StepKeeps: trimming and clearing are steps only when they are harmless; `DeliveryTrims.TrimSafeExactly` and `DeliveryTrims.ClearSafeExactly` show that no others keep the invariant.
- Exchange.MessageExchange.HandleResult: does not model tokens, the server's uuid, the server sequence and handlers of messages other than accepted types and requests to resynchronize.
- Exchange.MessageExchange.HandleMessage: likewise; messages that other handlers add are `ExchangeRuns.SendMessage` before or after the exchange.
- Exchange.HandlersAreSteps: likewise.
- ExchangeRuns.Restart: metadata are taken to be committed when the client stops.
- BpickleCode.LoadsValue: does not model the grammar of floats; a float is the text between its tag and the semicolon, any text without a semicolon.
- KeyOrder.SortKeys: does not model the order of float keys by value, since a float is its text here; keys that are or hold floats are ordered by that text.
- BpickleCode.DumpsDict: likewise.
- Dictionary keys that are equal across types (True and 1), Python's recursion limit and its limit on digits of an integer.
- BpickleProofs.LoadsDumps: without `as_is` holds for values without bytes keys only; `BpickleProofs.RoundTripExactly` shows that this is the exact condition.
- Persist: `add`, `has`, `keys`, `move`, soft and weak maps, read-only mode, owners and modes of files.
- Persist.Persist.Traverse: paths are of text elements, and anything but a dictionary is a leaf; integer elements and lists and tuples as inner nodes are not modelled.
- Persist.Persist.Get: likewise.
- Persist.Persist.Remove: likewise, and does not model removal of values from lists.
- PersistTree.SetFailsAtLeaves: likewise; the code goes on from a list that contains the element.
- Persist.Persist.Set: likewise; nested dictionaries are values, so a change in place is an update of the whole tree at a path; that other references to a nested dictionary would see the change is not modelled. `get` and `set` copy what they hand over.
- Persist.Persist.Save: a stop leaves a prefix of the write; caches below the file system that reorder a rename and a write are not modelled.
- Amp.EveryCallDispatchedOnce: a call's result and the sender's wait for it, timeouts, reconnection and the encoding of method names are not modelled.
- SequenceRanges: range lists are values; the lists that `add_to_ranges` and `remove_from_ranges` splice in place are fields of the class `SequenceRanges.SequenceRanges` that the methods reassign. `from_ranges` takes any list, and nothing is promised of one that is not canonical.
- Accumulate: values are exact reals and timestamps are whole seconds; floating point rounding is not modelled.
- Sysinfo: exact integers instead of floating point in the two ceilings; footnotes, notes and text wrapping are not modelled.
- UserReplica: what the server does with a report is not in the repository; the reader here takes the names of the fields at their word.
- UserChanges.UserChanges.CreateDiff: what the provider answers is a parameter; reading passwd and group files is not modelled.
