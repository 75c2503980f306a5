# fuurin: a verified model

fuurin is a publish/subscribe library with replicated state, a redesign of the ZeroMQ Clone pattern. Workers
stamp topics with a sequence number and send them to brokers. Brokers filter duplicates, store the topics in
bounded caches and send them on. Workers filter again, report to their client through events, and can download a
snapshot of what a broker stores. This project models the parts that make that work and proves what they promise:

- **Caches and duplicate filters** (`LruModel`, `LruCache`, `BrokerModel`, `BrokerSession`): the cache of the last
  distinct keys as a list and an index against a simple log of puts, what the broker's three bounds do to
  at-most-once acceptance, and the broker's store against an append-only log.
- **State machines** (`SyncModel`, `SyncMachine`, `ConnModel`, `ConnMachine`): retries, endpoint rotation, 8-bit
  request numbers, sockets and timers of the snapshot download and of the connection.
- **The worker session** (`SessionModel`, `SessionFacts`, `SessionNumbers`, `TraceGrammar`, `SessionParts`,
  `SessionScript`, `SessionHistory`, `WorkerSession`): a transducer from inputs to events and messages, the grammar of
  its event trace, its sequence numbers, and its whole trace and socket traffic said from its inputs alone.
- **Several parties** (`WorkerModel`, `Worker`, `Network`, `Snapshot`, `RunnerModel`, `RunnerSafety`,
  `RunnerLimits`, `Runners`, `SessionLives`, `Delivery`): a worker across its sessions, any number of workers and
  brokers over an unreliable network, the way of a topic from a broker to a subscriber, a whole snapshot download, and
  the hand-off between a runner and its sessions by tokens, a
  queue and one-slot mailboxes.
- **Bytes** (`Integers`, `Wire`, `CountedLists`, `Codec`, `SyncCodec`, `PartMulti`): typed fields, counted lists,
  topics, configurations and snapshot messages, and the buffer written in place.
- **Shared log arguments** (`ArgModel`, `ArgStore`): reference counts of nested arrays.

Each object the source updates in place is a class whose methods are proved against functions of the model
modules; the theorems about whole runs are about those functions.

Choices that matter when reading the model:

- A timer is a pair (armed, pending). Stopping or starting it leaves a pending expiry in place, so a late timeout
  is always possible.
- The callbacks of a state machine are a list of actions; the session takes them in order when the call is over.
  An exception while opening the sockets drops the remaining ones and ends the session.
- When retries are used up the download goes to Failed (`src/syncmachine.cpp:223-226`), although the comment at
  `src/syncmachine.h:260` says Halted. From Halted, a new download starts at the current index.
- A rejected topic may leave an empty entry under its name, so the assertion at `src/sessionbroker.cpp:255` is not
  an invariant. `SnapshotAssertionExactly` says when it holds; `LateTopicBreaksSnapshot` and
  `RejectedFirstTopicBreaksSnapshot` show what breaks it.
- `toUint64` widens plain `char` bytes. Where `char` is signed, reading a number back can raise it. `ReadBack`
  says exactly when it does not, and `ReadBackJumps` and `RestartJumps` show the numbers 128 to 255.
- Token, request number and 64-bit wrap-around are written out where they happen.
- The caches inside a broker's cache are values, so copies share nothing. The source copies only empty ones.
- Subscribed names are looked up in the configuration's list; a group name ends at the first zero byte.

## Model

| member | source | states |
|---|---|---|
| LruModel.PutsIsSuffixOfLatest | include/fuurin/lrucache.h:144-160 | After any puts, a cache of capacity c > 0 is the last c of the distinct keys in order of last put with their latest values; capacity 0 keeps all |
| LruModel.LatestMeaning | include/fuurin/lrucache.h:125-143 | The log's view holds every key ever put exactly once and ends with the latest put |
| LruModel.PutKeepsOrEvicts | include/fuurin/lrucache.h:144-160 | A put keeps another key's value unless enough distinct keys came after it to fill the capacity |
| LruModel.PutUnbounded | include/fuurin/lrucache.h:144-160 | Without a capacity a put changes the value of its own key only |
| LruCache.LRUCache.Put | include/fuurin/lrucache.h:144-160 | List and index stay in agreement, the contents are those of the model's put, and the returned item is the last one |
| LruCache.LRUCache.Get | include/fuurin/lrucache.h:173-187 | Returns the stored pair and removes exactly that key, keeping list and index in agreement; an absent key changes nothing |
| LruCache.LRUCache.Find | include/fuurin/lrucache.h:200-216 | Finds an item exactly for stored keys, and it is the item of that key |
| LruCache.LRUCache.Clear | include/fuurin/lrucache.h:118-122 | Empties list and index together |
| LruCache.LRUCache.constructor | include/fuurin/lrucache.h:60-63 | Starts empty, list and index in agreement |
| BrokerModel.ReacceptanceNeedsEviction | src/sessionbroker.cpp:193-201 | If a worker's number is accepted again or a lower one after it, topics of at least 64 other workers were accepted in between |
| BrokerModel.AtMostOnceForFewWorkers | src/sessionbroker.cpp:193-201 | With at most 64 workers the accepted numbers of each worker strictly increase for ever; with any number of workers 0 is never accepted |
| BrokerModel.AcceptanceExactly | src/sessionbroker.cpp:193-201 | A topic is accepted exactly when its number exceeds the last one accepted of its worker among the 64 workers accepted most recently |
| BrokerModel.SixtyFourOthersSuffice | src/sessionbroker.cpp:193-201 | The bound is tight: 64 other workers in between make the broker accept the very same topic twice |
| BrokerModel.EntryHoldsAcceptedSinceCreation | src/sessionbroker.cpp:182-208 | A stored name holds the topics accepted under it since its entry was created, the last one of each of the last 8 workers |
| BrokerModel.EmptyEntryExactly | src/sessionbroker.cpp:184-207 | An entry is empty exactly when nothing was accepted under its name since it was created |
| BrokerModel.NamesInArrivalOrder | src/sessionbroker.cpp:184-191 | While at most 1024 names arrived, the names are stored in order of first arrival |
| BrokerModel.StoreRefinesLog | src/sessionbroker.cpp:182-208 | While at most 1024 names arrived, the store lists them in order of arrival and the back of each entry is the last topic accepted under that name, whatever the inner eviction does |
| BrokerModel.SnapshotAssertionExactly | src/sessionbroker.cpp:254-256 | The assertion made during a snapshot holds exactly when every stored name had a topic accepted since its entry was created |
| BrokerModel.LateTopicBreaksSnapshot | src/sessionbroker.cpp:184-199 | Two topics of one worker under different names, received in the wrong order, leave an empty entry and break that assertion |
| BrokerModel.RejectedFirstTopicBreaksSnapshot | src/sessionbroker.cpp:184-199 | So does a first topic numbered 0 |
| BrokerModel.ReplyIsLogProjection | src/sessionbroker.cpp:237-291 | A full reply is the begin message, the wanted last accepted topics in order of first arrival, and the completion |
| BrokerModel.LogElementsComplete | src/sessionbroker.cpp:254-266 | The last topic of every name is among those elements when it is of State kind and everything or its name is subscribed |
| BrokerModel.StoredComeFromReceived | src/sessionbroker.cpp:182-208 | Storing a topic adds nothing to the store but that topic |
| BrokerModel.ElementsAreStored | src/sessionbroker.cpp:254-266 | Every element of a reply carries the request's number and a stored topic of State kind that the request subscribes to |
| BrokerSession.BrokerSession.StoreTopic | src/sessionbroker.cpp:182-208 | The session's caches become those of the model, and the answer is the model's acceptance |
| BrokerSession.BrokerSession.CollectWorkerMessage | src/sessionbroker.cpp:139-179 | An accepted topic goes out stamped with the broker, under its name up to the first zero byte and under the common group; a rejected one does not; undecodable ones throw and change nothing |
| Basics.CStringExactly | src/sessionbroker.cpp:160-179 | The group of a name is the part before its first zero byte, and the whole name when it has none |
| BrokerSession.BrokerSession.ReplySnapshot | src/sessionbroker.cpp:237-291 | What is sent is as much of the full reply as there are successful sends, and the three ways to end are told apart |
| BrokerSession.BrokerSession.ReceiveWorkerCommand | src/sessionbroker.cpp:218-234 | A readable request is answered to its sender with its number and configuration, and aborts exactly when the reply gets to an empty entry; other commands are ignored, unreadable ones throw |
| SyncModel.InvariantAlways | src/syncmachine.cpp:130-298 | In every reachable state an armed timer means Download, Download means an armed timer or a pending expiry, and indices and retries are in range |
| SyncModel.SocketOwnership | src/syncmachine.cpp:237-298 | In every run the open sockets are the current index in Download and Synced and none otherwise; none is opened twice, and requests go to an open socket only |
| SyncModel.RequestNumbers | src/syncmachine.cpp:237-274 | Between two halts the j-th request carries j modulo 256, and the last one went to the current index |
| SyncModel.ReplyMatching | src/syncmachine.cpp:182-210 | A reply to the j-th request is accepted while the k-th is current exactly in Download, on the same index, with j = k modulo 256; so with fewer than 256 requests since, only j = k |
| SyncModel.SyncedOnlyByCurrentComplete | src/syncmachine.cpp:182-210 | Synced is reached exactly by a completion with the current index and number while downloading |
| SyncModel.AttemptsRotate | src/syncmachine.cpp:213-234 | Attempts that only time out, across retries and restarts after failure, take the endpoints one after the other |
| SyncModel.EachEndpointOnce | src/syncmachine.cpp:153-234 | After any inputs without an outside choice of index, any indexMax + 1 such attempts in a row use each endpoint exactly once |
| SyncModel.TimeoutsReachFailed | src/syncmachine.cpp:213-234 | Uninterrupted timeouts reach Failed after exactly retryMax - retryCurr + 1 of them |
| SyncModel.RequestsExactly | src/syncmachine.cpp:153-274 | A request goes out once on a start outside a download and on a timeout with retries left, under the next number, and on nothing else |
| SyncModel.PhasesExactly | src/syncmachine.cpp:130-234 | The phase and the retries after each input |
| SyncModel.TimersExactly | src/syncmachine.cpp:182-298 | A request or an accepted element arms the timer, its expiry disarms it, and only the handler takes a pending expiry away |
| SyncModel.WrapTurns | src/syncmachine.cpp:97-103 | Endpoint numbers repeat after indexMax + 1 |
| SyncModel.ChosenEndpointIsNext | src/syncmachine.cpp:97-103 | An index set from outside is where the next attempt goes after a failure or a timeout |
| SyncMachine.SyncMachine.OnHalt | src/syncmachine.cpp:130-150 | New state and actions are those of the model's halt |
| SyncMachine.SyncMachine.OnSync | src/syncmachine.cpp:153-179 | New state and actions are those of the model's start |
| SyncMachine.SyncMachine.OnReply | src/syncmachine.cpp:182-210 | New state, actions and verdict are those of the model's reply |
| SyncMachine.SyncMachine.OnTimerTimeoutFired | src/syncmachine.cpp:213-234 | New state and actions are those of the model's timeout |
| SyncMachine.SyncMachine.SetNextIndex | src/syncmachine.cpp:97-103 | The next index is the given one modulo indexMax + 1, a negative one counting as 0 |
| SyncMachine.SyncMachine.constructor | src/syncmachine.cpp:25-55 | Starts halted after closing every socket |
| ConnModel.ConnectionDiscipline | src/connmachine.cpp:75-165 | In every run the sockets are open exactly outside Halted, each open follows a close, pongs go to open sockets, the retry timer is armed exactly in Trying, and outside Halted the timeout timer is armed or has an expiry pending |
| ConnModel.PongsExactly | src/connmachine.cpp:75-165 | One announcement on a start from Halted, on a ping and on a timeout outside Halted, and on a retry in Trying; none on anything else |
| ConnModel.PhaseExactly | src/connmachine.cpp:75-165 | The phase from the inputs alone: Halted unless started since the last stop, then Stable exactly when a ping came since the start and the last timeout |
| ConnModel.TimersExactly | src/connmachine.cpp:97-165 | Only an armed timer gets an expiry pending, only its handler takes it away, and the single-shot timeout is disarmed by it |
| ConnMachine.ConnMachine.OnStart | src/connmachine.cpp:75-83 | New state and actions are those of the model's start |
| ConnMachine.ConnMachine.OnStop | src/connmachine.cpp:86-94 | New state and actions are those of the model's stop |
| ConnMachine.ConnMachine.OnPing | src/connmachine.cpp:97-112 | New state and actions are those of the model's ping |
| ConnMachine.ConnMachine.OnTimerRetryFired | src/connmachine.cpp:115-129 | New state and actions are those of the model's retry |
| ConnMachine.ConnMachine.OnTimerTimeoutFired | src/connmachine.cpp:132-143 | New state and actions are those of the model's timeout |
| TraceGrammar.EveryLifeObeysGrammar | src/sessionworker.cpp:95-459 | For every input sequence the events are a prefix of the grammar: Started first, Online and Offline alternating, downloads in windows, and after a Stop everything closed and Stopped last |
| TraceGrammar.CompletedWindow | src/sessionworker.cpp:390-459 | A completed window holds 1 to retryMax + 1 requests and exactly one success or error, placed just before its end |
| TraceGrammar.ReadStep | src/sessionworker.cpp:95-175 | Each single step keeps the session coherent and its events readable from where the session's state says the reader stands |
| SessionFacts.SyncStepFacts | src/sessionworker.cpp:390-433 | Which events and requests each call of the download machine makes the session produce |
| SessionFacts.ConnStepFacts | src/sessionworker.cpp:372-446 | A call of the connection machine produces at most one Online or Offline, and only on a change |
| SessionNumbers.StepNumbers | src/sessionworker.cpp:338-369 | Each step dispatches under the next number, filters one topic, or leaves numbers alone; what is delivered, published and notified is said for each |
| SessionNumbers.StartNumbers | src/sessionworker.cpp:250-267 | A session starts from the configured number with an empty filter |
| SessionParts.StepParts | src/sessionworker.cpp:95-459 | Each step drives each of the two machines by one input or none, and closes, opens, announces and asks exactly as they say, in their order |
| SessionScript.EveryLifeIsScripted | src/sessionworker.cpp:95-459 | For every input sequence the whole event trace, the socket traffic and whether the session lives are functions of the configuration and the inputs |
| SessionHistory.LivesExactly | src/sessionworker.cpp:95-175 | A session lives exactly while it could open its sockets and no input stopped it or was undecodable |
| SessionHistory.RefusedAtStart | src/sessionworker.cpp:186-211 | Subscribing by name to the reserved group ends the session at its start, after the Started event |
| SessionHistory.DeliveredExactly | src/sessionworker.cpp:270-369 | A received topic is delivered if and only if it came under the common group or a subscribed name and its number exceeds 0 and every number of its worker among the topics and snapshot elements received before; nothing else is delivered |
| SessionHistory.DownloadsExactly | src/sessionworker.cpp:292-459 | SyncBegin and SyncElement report exactly the messages received; SyncSuccess names the broker of its completion, SyncError the broker named last since the last sync, nil if none; SyncRequest carries the configuration with the worker's number of that moment |
| SessionHistory.AskedExactly | src/sessionworker.cpp:233-247 | A snapshot is asked for once on a sync outside a download and on a timeout with a retry left, with the next request number and the configuration of that moment |
| SessionHistory.AnnouncedExactly | src/sessionworker.cpp:227-230 | A living session announces itself once on a keepalive, on a connection timeout and on a retry while trying, and on nothing else |
| SessionHistory.AnnouncedAtStart | src/sessionworker.cpp:250-267 | It announces itself once when it starts |
| SessionHistory.SocketsOwned | src/sessionworker.cpp:186-230 | Over a whole life the sockets are open exactly as the two phases say, none is opened twice, and messages leave through open sockets only |
| SessionHistory.LifeJoins | src/sessionworker.cpp:186-211 | Every opening of the connection in a life joins the keepalive group and the common group or the groups of the subscribed names |
| WorkerSession.WorkerSession.OperationReady | src/sessionworker.cpp:95-140 | New state and effects in order are those of the model's operation, undecodable configurations and too short topics included |
| WorkerSession.WorkerSession.SocketReady | src/sessionworker.cpp:143-175 | New state and effects in order are those of the model's step for that socket or timer |
| WorkerSession.WorkerSession.RecvBrokerSnapshot | src/sessionworker.cpp:292-335 | The same for each snapshot message, the undecodable one included |
| WorkerSession.WorkerSession.CollectBrokerMessage | src/sessionworker.cpp:270-289 | The same for keepalives, topics and unknown groups |
| WorkerSession.WorkerSession.AcceptTopic | src/sessionworker.cpp:338-353 | Accepts exactly what the filter accepts; an accepted own number above the session's raises it and is notified |
| WorkerSession.WorkerSession.AcceptNumber | src/sessionworker.cpp:356-369 | Accepts exactly numbers above the last one of that worker, and remembers them |
| WorkerSession.WorkerSession.OnSyncChanged | src/sessionworker.cpp:390-433 | The events of each state change, and the broker uuid forgotten on a halt |
| WorkerSession.WorkerSession.OnConn | src/sessionworker.cpp:372-387 | The effect of each callback of the connection machine |
| WorkerSession.WorkerSession.ConnOpen | src/sessionworker.cpp:186-211 | Opens the sockets and joins the keepalive group and the common group or the groups of the names, or ends the session exactly when a subscribed name is the reserved group |
| WorkerSession.WorkerSession.SendSync | src/sessionworker.cpp:233-247 | The request and the event carry the configuration with the session's present number |
| WorkerModel.NumbersAlwaysGrow | src/worker.cpp:207-232 | Within a session and across restarts through the mailbox, each dispatched number exceeds every number dispatched before and every own number processed before |
| WorkerModel.DispatchGrowsExactly | src/sessionworker.cpp:115-126 | A dispatch takes a larger number exactly when the 64-bit counter does not wrap |
| WorkerModel.RestartJumps | src/worker.cpp:207-217 | A number from 128 to 255 left in the mailbox comes back close to the end of the 64-bit range |
| Worker.Worker.SetTopicsAll | src/worker.cpp:55-59 | Subscribes to everything and forgets the names |
| Worker.Worker.SetTopicsNames | src/worker.cpp:62-66 | Subscribes to the given names only, each cut to 255 bytes |
| Worker.Mailbox.Leave | src/sessionworker.cpp:462-472 | The number left replaces one nobody read |
| Worker.Worker.SeqNumber | src/worker.cpp:207-217 | Answers the mailbox's number if there is one, else the cached one, and leaves the mailbox empty |
| Worker.Worker.PrepareConfiguration | src/worker.cpp:220-232 | The configuration carries the uuid, the answered number, the subscription to everything or to names, and the endpoints |
| Worker.Worker.Dispatch | src/worker.cpp:87-95 | Queues the topic, with the name cut, for the running session; nothing when none runs |
| Worker.Worker.Sync | src/worker.cpp:98-104 | Queues a sync request exactly when a session runs |
| Network.DeliveriesAreSubsequences | src/sessionworker.cpp:270-369 | Over a network that loses, duplicates and reorders, with any number of brokers, the topics of a producer delivered in one session are a subsequence of those it dispatched, every field kept but the broker's uuid |
| Delivery.PublishedExactly | src/sessionbroker.cpp:139-179 | A broker sends an accepted topic under its name and the common group, and nothing else |
| Delivery.JoinedExactly | src/sessionworker.cpp:186-211 | A session joins a group a topic is sent under exactly when it subscribed to everything or to that name, and takes what comes under it for a topic |
| Delivery.SubscriberGetsIt | src/sessionworker.cpp:270-289 | An accepted topic received by a session that subscribed to its name is delivered exactly when it is newer than all it received of that worker |
| Snapshot.SuccessMeansComplete | src/sessionworker.cpp:292-335 | A SyncSuccess comes only after a SyncElement, later than the request, for the last topic of every stored name of State kind that the session's configuration subscribes to, as the store was when that request was served |
| Snapshot.SnapshotCompleteness | src/sessionbroker.cpp:237-291 | The same in terms of the broker's log: the last accepted topic of every such name |
| Snapshot.SideOfStep | src/syncmachine.cpp:182-210 | Which input of the download machine each session input becomes, with its requests and successes |
| RunnerSafety.HandOff | src/runner.cpp:163-197 | In every run in which no 255 sessions in a row end without executing anything, each executes exactly the operations sent under it, in order, Start first and once, up to its first Stop; the rest waits in the queue; none executes another's, although tokens wrap at 256 |
| RunnerSafety.ForeignMeansSilence | src/session.cpp:116-132 | A session finds its own token on another's operation only after 255 sessions in a row executed nothing |
| RunnerSafety.AskExactly | src/runner.cpp:190-197 | What is asked of a runner is sent to the session that has not finished yet; without one nothing is sent |
| RunnerSafety.LaunchExactly | src/runner.cpp:163-187 | A start creates a session with the next token and sends it its Start exactly when the one before has finished |
| RunnerLimits.StaleAfterWrap | src/session.cpp:116-132 | A possible run, without 256 silent sessions in a row, in which session 257 executes an operation sent to session 1 |
| RunnerLimits.HandOffExactly | src/runner.cpp:163-187 | The bound is exact: the hand-off is right in every run without n silent sessions in a row if and only if n is at most 255 |
| SessionLives.EverySessionObeysGrammar | src/session.cpp:49-82 | Every session such a runner starts, whatever reaches it between its operations, gets its Start first and once, and its events obey the grammar |
| Runners.Runner.IsRunning | src/runner.cpp:130-142 | Empties the mailbox and stops running exactly on the current token |
| Runners.Runner.Start | src/runner.cpp:163-187 | Nothing while a session runs; otherwise a new session with the next token, sharing queue and mailbox, and its Start queued |
| Runners.Runner.Stop | src/runner.cpp:190-197 | Queues Stop exactly when a session runs |
| Runners.Session.RecvOperation | src/session.cpp:116-132 | Takes the head of the queue and tells whether it carries the session's token |
| Runners.Session.Run | src/session.cpp:49-82 | Executes its own operations as far as a Stop, leaves what follows, and leaves its token in the mailbox exactly then |
| Runners.DrainedIs | src/session.cpp:49-82 | That loop is the model's repeated reading |
| Integers.ValueOfEncode | src/zmqpart.cpp:115-124 | A number that fits is read back from its bytes |
| Integers.EncodeOfValue | src/zmqpart.cpp:115-124 | Bytes are written back from their number |
| Integers.EncodeAt | src/zmqpart.cpp:115-124 | The least significant byte comes first |
| Integers.ReadBack | src/zmqpart.cpp:400-426 | Reading a 64-bit number through signed chars never lowers it, and gives it back exactly when every byte above one of 128 or more is 255 |
| Integers.ReadBackJumps | src/zmqpart.cpp:400-426 | Every number from 128 to 255 comes back 2^64 - 256 higher |
| Wire.BoundaryExactly | include/fuurin/zmqpartmulti.h:600-604 | The 64-bit bounds check refuses exactly the accesses past the end |
| Wire.ImageLayout | include/fuurin/zmqpartmulti.h:404-436 | The bytes of each kind of field |
| Wire.UnpackOfPacked | include/fuurin/zmqpartmulti.h:199-237 | For any fields and values within the length limit, whatever follows them, unpacking gives the values back |
| Wire.RepackExactly | include/fuurin/zmqpartmulti.h:460-508 | Packing what was unpacked gives the consumed bytes exactly when the booleans among them are 0 or 1 |
| Wire.UnpackExactly | include/fuurin/zmqpartmulti.h:527-563 | Without booleans, unpacking succeeds exactly on buffers that begin with some packed values |
| CountedLists.ListRoundTrip | include/fuurin/zmqpartmulti.h:259-333 | A packed list is read back in order, duplicates included, whatever follows |
| CountedLists.ListRepack | include/fuurin/zmqpartmulti.h:259-333 | A list that was read packs to the same bytes with the true size, refused only when that size needs more than 32 bits |
| CountedLists.SizeIgnored | include/fuurin/zmqpartmulti.h:321-333 | The size in the header does not influence what is read |
| CountedLists.ListLayout | include/fuurin/zmqpartmulti.h:259-293 | A packed list begins with its whole size and its number of items, four bytes each |
| PartMulti.Pack2 | include/fuurin/zmqpartmulti.h:404-436 | Writes exactly the field's bytes at its place, or refuses and changes nothing |
| PartMulti.PackFields | include/fuurin/zmqpartmulti.h:397-401 | Writes exactly the bytes of all fields, refused exactly when a string is too long |
| PartMulti.Pack | include/fuurin/zmqpartmulti.h:199-205 | The new buffer holds the packed fields |
| PartMulti.Measure | include/fuurin/zmqpartmulti.h:268-282 | The total size of a list, refused exactly when size or count needs more than 32 bits |
| PartMulti.PackList | include/fuurin/zmqpartmulti.h:259-293 | The new buffer holds the packed list |
| PartMulti.UnpackList | include/fuurin/zmqpartmulti.h:321-333 | The items read one by one are those of the list |
| PartMulti.WithSeqNum | src/topic.cpp:303-314 | Overwrites the first eight bytes, refused exactly on shorter buffers |
| Codec.TopicRoundTrip | src/topic.cpp:275-300 | A topic is decoded from its encoding, whatever follows |
| Codec.TopicLayout | src/topic.cpp:291-300 | The fields of an encoded topic in their order |
| Codec.TopicRepack | src/topic.cpp:275-300 | A decoded topic can be encoded, and gives the bytes it came from exactly when its name was not cut |
| Codec.PatchIsReencoding | src/topic.cpp:303-314 | Patching the number of an encoded topic is encoding it with that number |
| Codec.PatchThenDecode | src/topic.cpp:303-314 | On any buffer, patching is decoding, setting the number and keeping the rest, errors included |
| Codec.Cut | src/topic.cpp:41-46 | The first 255 bytes of a longer name, the whole of any other |
| Codec.ConfigRoundTrip | src/workerconfig.cpp:39-72 | A configuration is decoded from its encoding with every list in order, names cut to 255 bytes |
| Codec.DecodedIsNormal | src/workerconfig.cpp:39-72 | Whatever was decoded can be encoded and decodes to itself |
| SyncCodec.RequestRoundTrip | src/sessionworker.cpp:233-247 | The broker reads the number and configuration the worker sent |
| SyncCodec.ReplyRoundTrip | src/sessionworker.cpp:292-335 | The worker reads the snapshot message the broker sent |
| SyncCodec.FrameLayout | src/sessionworker.cpp:233-247 | A message is its word, one byte for the number and its parameters |
| SyncCodec.WordsOnTheWire | include/fuurin/sessionenv.h:38-44 | The words that requests and replies carry |
| ArgModel.CountsAlwaysExact | src/arg.cpp:136-238 | In every history each block's count is the number of its holders, items of other arrays included, and it is there exactly while somebody holds it |
| ArgModel.HoldsExactly | src/arg.cpp:100-238 | A copy and an assigned argument hold what their source held, a move takes over the block and leaves its source plain, and no other argument changes |
| ArgModel.BlocksExactly | src/arg.cpp:136-166 | A new block is held once; the items of an array hold what their sources held |
| ArgModel.ReleaseKeeps | src/arg.cpp:213-221 | A release, with all it frees, touches no freed block and leaves the counts exact |
| ArgModel.FreedForGood | src/arg.cpp:213-221 | A freed block never comes back, so it is freed once |
| ArgModel.LiveExactlyReached | src/arg.cpp:202-221 | Counting agrees with reachability: a block is there exactly when an argument reaches it |
| ArgModel.NothingLeaks | src/arg.cpp:196-199 | When no argument holds a block, none is left |
| ArgModel.AssignSafeExactly | src/arg.cpp:224-238 | An assignment from inside an array is safe exactly when the array is reached without the assigned argument |
| ArgModel.OwnItemIsGone | src/arg.cpp:224-238 | Assigning an array one of its own items, when nothing else holds it, reads a freed item |
| ArgStore.Store.RefAcquire | src/arg.cpp:202-210 | Raises the count of the block held, if any |
| ArgStore.Store.RefRelease | src/arg.cpp:213-221 | Lowers the count and frees in cascade, items from last to first, as the model says |
| ArgStore.Store.MakePlain | src/arg.cpp:100-133 | One new argument that holds no block |
| ArgStore.Store.MakeString | src/arg.cpp:136-154 | One new block held once |
| ArgStore.Store.MakeArray | src/arg.cpp:157-166 | One new block held once, its items copies that are counted |
| ArgStore.Store.CopyFrom | src/arg.cpp:175-182 | A new argument that shares the block, counted |
| ArgStore.Store.MoveFrom | src/arg.cpp:185-193 | A new argument takes over the block, no count changes |
| ArgStore.Store.Assign | src/arg.cpp:224-238 | Releases, then shares the source's block; nothing on itself |
| ArgStore.Store.Destroy | src/arg.cpp:196-199 | Releases the block |

## Left out

- ZeroMQ sockets, contexts and pollers, and real time: channels are queues, one-slot mailboxes or bags of messages, and timers fire when they like.
- The gRPC service, the command line tools, the C bindings, logging output and error classes.
- Uuid generation and text forms: a uuid is a byte string compared for equality.
- `TokenPool`, `waitForEvent` and the encodings of events and operations: queues and one more instance of the field round trip.
- The client's merged view of deliveries and snapshot elements: the two channels race and the library promises nothing about them.
- Platforms where `char` is unsigned: `toUint64` is exact there, and the worker's cached number is then the one written.
- Failed starts: exceptions thrown by `Runner::start` itself, before or after the session's thread exists.
- The broker session's own start, stop and keepalive timer beyond the flag that a keepalive arrived.
- Errors of a snapshot send other than a lost or blocked peer, which the source throws on.
- Runners.Session.Run: covers the loop while operations wait; other sockets and exceptions are inputs of `RunnerModel`.
- RunnerSafety.HandOff: the source does not watch for 255 silent sessions in a row; `HandOffExactly` shows that the bound cannot be raised.
- WorkerSession.WorkerSession.ConnOpen: exceptions thrown while the sockets connect are not modelled, because they depend on the network library.
- Network.DeliveriesAreSubsequences: assumes one instance per worker uuid and no dispatch that wraps the 64-bit counter.
- Snapshot.SuccessMeansComplete: assumes that replies come in order, lose only a tail, and that no late reply meets a request with the same number modulo 256.
- ArgStore.Store.MakePlain: integers, doubles, string views, short strings and moved-from arguments are one plain kind, because they own nothing.
- Undecodable payloads that fail an assertion are told apart in `Codec` and `SyncCodec`; the session model treats them like exceptions, as the end of the session.
