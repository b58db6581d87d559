# Verification of the course labs

This project models, in Dafny, the parts of the repository whose correctness does not show from
reading one function, and proves what they are for.

* **The cluster harness of lab 3.** `Labrpc` is the simulated network's tables; `ProcessReq` is
  `processReq` with any number of requests in flight, cut at every lock, channel hand-over and
  random choice; `Persisters` is persisters on the heap, which share byte arrays; `Partition` is
  connect/disconnect/crash1/start1 on the network's tables, call by call; `Durability` puts requests, saves and
  crash1/start1 into one step system, in which the Raft instances are arbitrary writers to their
  own persisters; `ApplyMonitor` is the online monitor of committed entries and its readers.
* **The recommendation pipeline of lab 1.** `Backends` holds GetUser and GetVideo; `VideoRec` is
  GetTopVideos with its batches, retries, fallback and in-place sort; `Ranker` and `ClientPool`
  are the score and the round-robin pools; `RequestCounters` interleaves any number of requests
  at every atomic add.
* **det_bcrypt** (lab 1): `Base64` and `DetBcrypt`, the trimmed base64 of sections 3.2 and 4 of
  RFC 4648 with bcrypt's alphabet, and the hash format.
* **The primitives of lab 0.** `MergeChannels`, `MergeFetches`, `Semaphore`, `Queue`.
* **labgob's type walk** (lab 3): `Labgob`, and `ConcurrentWalk` for any number of walkers.

`Util` has the shared datatypes and sums over sequences.

Code that changes fields, maps or buffers in place is a class with methods, each proved against
a function on values; concurrent code is a step system whose runs are sequences of steps, so
that a lemma about `Exec` or `Run` speaks of every interleaving. A function of the model with no
contract of its own (`ReqStep`, `HarnessStep`, `Next`, `Turn`, ...) has no row below; the lemmas
and methods about it do. What such functions mean is stated apart from them as well, on fields,
characters, databases and the steps of a run: `VideoRec.Server.AnswerIds`, `Ranker.RankSteps`,
`DetBcrypt.ComparesByCipher`, `Partition.EnabledIffLastConnects`, `ProcessReq.FinalCheckDecides`,
`Durability.AcknowledgedSavesInOrder` and others like them.

What the code does that its surroundings do not suggest:

* `base64Decode` adds four padding characters, not none, when nothing is missing, so that what
  `base64Encode` makes of a source whose length is a multiple of 3 does not decode
  (`Base64.RoundTrip` says exactly when it does). The two lengths det_bcrypt uses, 16 and 23,
  are not multiples of 3.
* `newFromHash` skips the bytes in the places of the two later separators unseen, and takes a
  cost written "+5". It gives back the record that was printed, but printing gives back the
  string that was parsed only for canonical strings (`DetBcrypt.ReprintsExactlyCanonical`).
* A stale answer sorts the cache itself, because its slice is the cache's.
* The subscribed-to loop of GetTopVideos retries even when retries are disabled. When the batch
  size fits the backends' limits, some RPC is then attempted twice if and only if that loop is
  reached and a first attempt of it fails, because of a failure or because a user it asks for does
  not exist (`VideoRec.Server.GetTopVideos`). `VideoRec.RetriesThoughDisabled` is a request that
  succeeds only because of it, `VideoRec.RetriesForUnknown` one without any failure.
* crash1 may lose a save. `cfg.saved[i].Copy()` has returned before `cfg.saved[i]` is assigned, and
  the old instance is still running. What it saves in between is lost, and nothing else ever is
  (`Durability.LosesExactly`, `Durability.CrashLosesGap`); no acknowledged request is affected.
* `checkLogs` records a message that it rejects, and the process ends only after the lock has been
  released. In that window nCommitted can take its mismatch branch (`ApplyMonitor.DisagreePossible`);
  it does so exactly when it reads two commands at one index.
* `MaxBatchSize` 0 does not loop for ever: a non-empty list of ids then leads to an empty batch,
  which the backends refuse.

## Model

| member | source | states |
|---|---|---|
| Labrpc.Network.MakeEnd | lab3/labrpc/labrpc.go:313-330 | stops the process exactly when the name is taken; otherwise the new end-point is known, disabled and not connected, and nothing else changes |
| Labrpc.Network.AddServer | lab3/labrpc/labrpc.go:332-337 | only that server's entry changes |
| Labrpc.Network.DeleteServer | lab3/labrpc/labrpc.go:339-344 | only that server's entry changes, to nil |
| Labrpc.Network.Connect | lab3/labrpc/labrpc.go:348-353 | only that end-point's connection changes |
| Labrpc.Network.Enable | lab3/labrpc/labrpc.go:356-361 | only that end-point's flag changes |
| Labrpc.Network.ReadEndnameInfo | lab3/labrpc/labrpc.go:192-206 | reports flag, connection and server of an end-point, with Go's zero values for missing entries |
| Labrpc.Network.IsServerDead | lab3/labrpc/labrpc.go:208-216 | dead unless the end-point has an entry that says enabled and the name has an entry with that very server object |
| Labrpc.EnabledByCall | lab3/labrpc/labrpc.go:313-361 | over any sequence of table changes an end-point becomes enabled only by a call of Enable that enables it |
| ProcessReq.MoveKeepsReqInv | lab3/labrpc/labrpc.go:218-309 | every step of processReq keeps the per-request invariant, counts reply bytes only when the reply is let through, and counts a dispatch only when it dispatches |
| ProcessReq.StepKeepsInv | lab3/labrpc/labrpc.go:150-162 | every step of any request and of the network's loop, its two adds cut apart, and any change of the tables keep count, bytes and every server's count equal to the sums of what each request has been counted for |
| ProcessReq.ExactlyOneReply | lab3/labrpc/labrpc.go:218-309 | in every interleaving a request gets at most one message and enters the handler at most once; an ok message carries what that one dispatch returned, a refusal carries nothing |
| ProcessReq.Conservation | lab3/labrpc/labrpc.go:150-162 | once all requests are answered, count is the number of requests taken, and bytes is their argument bytes plus the bytes of the replies delivered with ok |
| ProcessReq.ServerCounts | lab3/labrpc/labrpc.go:404-407 | at every moment of every run a server's count is the number of requests sent to it whose dispatch has begun |
| ProcessReq.AcceptTakes | lab3/labrpc/labrpc.go:150-158 | the network's loop takes a request with its end-point and arguments, and touches neither other requests nor the statistics |
| ProcessReq.LookupDecides | lab3/labrpc/labrpc.go:218-221 | a request goes on if and only if its end-point is enabled, connected to a name, and the name leads to a server; it is then bound to that server and to the network's two flags; otherwise it is refused |
| ProcessReq.PollDecides | lab3/labrpc/labrpc.go:250-262 | a poll gives up if and only if the end-point is disabled or the name no longer leads to the server object |
| ProcessReq.FinalCheckDecides | lab3/labrpc/labrpc.go:264-274 | the final check lets a reply through if and only if the handler answered, the end-point is enabled, and the name still leads to the server object |
| ProcessReq.DisabledBeforeCheck | lab3/labrpc/labrpc.go:264-274 | over every run, a request whose end-point is disabled before its final check, and stays so, is never answered with ok, however far its handler has come |
| ProcessReq.ReliableAnswers | lab3/labrpc/labrpc.go:218-309 | over a reliable network, a request whose end-point stays enabled and leads to the same live server is answered only with ok, and without reordering its reply is never delayed |
| ProcessReq.ReplyIsTheHandlers | lab3/labrpc/labrpc.go:238-253 | the bytes of an ok reply are those that the handler of that very request returned |
| ProcessReq.Progress | lab3/labrpc/labrpc.go:150-309 | every request that is not answered, or still has a dispatch goroutine, has a next step other than a poll, and it brings the requests closer to their ends |
| ProcessReq.MoveUsesUp | lab3/labrpc/labrpc.go:218-309 | every step of a request other than a poll that finds its server alive strictly decreases what the request has left; such a poll changes nothing |
| ProcessReq.BoundedWork | lab3/labrpc/labrpc.go:218-309 | over any run the requests together take at most 15 steps each, idle polls apart |
| ProcessReq.CanQuiesce | lab3/labrpc/labrpc.go:218-309 | from every reachable state all requests can be answered with no dispatch left waiting to hand over its reply: no branch forgets to reply or to drain |
| ProcessReq.DisabledNeverDispatched | lab3/labrpc/labrpc.go:218-222 | requests sent on an end-point that is and stays disabled never reach a server and are never answered with ok, whatever else goes on |
| Persisters.Clone | lab3/raft/persister.go:24-28 | a fresh array with the same bytes |
| Persisters.Persister.Copy | lab3/raft/persister.go:30-37 | a new persister with the same contents, sharing both arrays |
| Persisters.Persister.SaveRaftState | lab3/raft/persister.go:39-43 | replaces the state by a private copy of the argument and keeps the snapshot |
| Persisters.Persister.SaveStateAndSnapshot | lab3/raft/persister.go:59-64 | replaces both by private copies |
| Persisters.Persister.ReadRaftState | lab3/raft/persister.go:45-49 | a fresh copy of the state |
| Persisters.Persister.ReadSnapshot | lab3/raft/persister.go:66-70 | a fresh copy of the snapshot |
| Persisters.Population.Do | lab3/raft/persister.go:24-70 | on any population of persisters and client arrays, each Make/Copy/Save/Read and each client write to an array does on the heap, with its sharing, what it does to private values |
| Persisters.Population.DoAll | lab3/raft/persister.go:24-70 | so does every sequence of operations |
| Persisters.ChangesOnlyByOwnSaves | lab3/raft/persister.go:30-64 | over any run, a persister's contents change only by its own Save calls |
| Persisters.LastSaveIsHeld | lab3/raft/persister.go:39-64 | after any run a persister holds the state, and after SaveStateAndSnapshot the snapshot, that its last Save was given, as the client's arrays were at that moment |
| Durability.StepKeepsInv | lab3/raft/config.go:104-133 | every step of requests, handlers, instances, crash1 and start1 keeps: a server in the table is an instance whose persister is cfg.saved[i]; from the assignment in crash1 to Make nobody can write to cfg.saved[i]; the copy about to be assigned is a prefix that lacks only saves of the owner; acknowledged requests have all their saves in cfg.saved[i] and in that copy |
| Durability.GrantedOnlyWhileSaved | lab3/labrpc/labrpc.go:264-291 | when the final liveness check passes, cfg.saved[i] is still the persister of the instance that ran the handler, records exactly the handler's saves for that request, and is not about to be replaced by an older copy |
| Durability.StepRecords | lab3/raft/config.go:184-217 | a step adds to what cfg.saved[i] holds only a save by the instance that owns it, and gives a new instance exactly what it holds; the one step that starts from anything else than what is held is crash1's assignment of its copy |
| Durability.LosesExactly | lab3/raft/config.go:115-117 | a step loses something that cfg.saved[i] holds if and only if it assigns a copy that has fallen behind, and what it loses are saves of the instance that owned cfg.saved[i] |
| Durability.CrashLosesGap | lab3/raft/config.go:115-117 | whatever happens between Copy and the assignment, crash1 keeps exactly what was held at Copy and loses exactly what was recorded in between |
| Durability.OwnerSaveIsLost | lab3/raft/config.go:115-117 | every save that the running instance makes between Copy and the assignment is lost |
| Durability.CanReachCopy | lab3/raft/config.go:104-117 | a run that starts server 0 and crashes it reaches such a state, with its instance still running |
| Durability.SavedHistorySurvives | lab3/raft/config.go:104-133 | from any state and over any run, what cfg.saved[i] held (between Copy and the assignment: what was copied) stays the beginning of what it holds, and of what every instance made meanwhile was given |
| Durability.AcknowledgedSavesAreDurable | lab3/labrpc/labrpc.go:264-291 | after a request is acknowledged, in every continuation, cfg.saved[i], the copy that crash1 may be about to assign, and everything a later instance of server i is given record exactly its handler's saves, within a history that extends what was safe when it was acknowledged and whose replay is what the instance reads |
| Durability.AcknowledgedSavesInOrder | lab3/labrpc/labrpc.go:264-291 | the same on actions and stores: if a request's reply has been sent with ok, or is let through, then after any continuation the persister that is cfg.saved[i] of its server records for that request exactly the saves its handler made in the run, one by one and in order |
| Durability.LaterInstancesAreGiven | lab3/raft/config.go:203-217 | and so does what any later instance of that server was given |
| Durability.ReplayIsLast | lab3/raft/persister.go:39-64 | a persister that made these saves holds the state of the last one and the snapshot of the last one that brought a snapshot |
| Durability.StaysSuperseded | lab3/raft/config.go:203-211 | an instance whose persister has been replaced never gets cfg.saved[i] back |
| Durability.SupersededIsCutOff | lab3/raft/config.go:111-132 | however much a superseded instance goes on saving, none of those saves enters cfg.saved[i] or reaches a later instance |
| Durability.SupersededSavesNothing | lab3/raft/config.go:111-132 | the same on stores: once cfg.saved of its server is not its own persister, the saves by an instance that any cfg.saved[i] records are one by one the same ever after |
| Durability.CrashLeaves | lab3/raft/config.go:104-133 | a crash1 that nothing disturbs ends with no server in the table and, if cfg.saved[i] was not nil, a new persister there with what it held |
| Durability.StartRestores | lab3/raft/config.go:184-229 | a start1 that nothing disturbs ends with a new instance as the server; its persister is new, is cfg.saved[i], and holds what cfg.saved[i] held, or nothing if that was nil |
| Partition.Cluster.EnableRow | lab3/raft/config.go:254-260 | the loop over outgoing end-points sets exactly the flags of the chosen peers' names in the row |
| Partition.Cluster.EnableCol | lab3/raft/config.go:262-268 | the loop over incoming end-points sets exactly the flags of the chosen peers' names in the column |
| Partition.Cluster.Connect | lab3/raft/config.go:249-269 | the two loops enable row and column i towards connected peers and nothing else, by exactly the listed network calls in order |
| Partition.Cluster.Disconnect | lab3/raft/config.go:272-292 | the two loops disable all of row and column i and nothing else, by exactly the listed network calls in order |
| Partition.Cluster.Crash1 | lab3/raft/config.go:104-106 | disconnects server i and deletes it from the network, by exactly the listed network calls in order |
| Partition.Cluster.MakeEnds | lab3/raft/config.go:194-199 | stops exactly when a name is taken or repeated; otherwise adds the end-points, the j-th leading to server j |
| Partition.Cluster.Start1 | lab3/raft/config.go:184-229 | crash1, then a fresh row of names and end-points, then the new server, by exactly the listed network calls in order, or a stop exactly when a name is not fresh |
| Partition.ConnectKeeps | lab3/raft/config.go:249-269 | connect keeps the partition matrix |
| Partition.DisconnectKeeps | lab3/raft/config.go:272-292 | disconnect keeps the partition matrix |
| Partition.NewRowKeeps | lab3/raft/config.go:187-199 | overwriting the row of a disconnected server with fresh names keeps the partition matrix |
| Partition.PartitionMatrix | lab3/raft/config.go:249-292 | between operations, in every run, entry (i, j) is enabled exactly when i and j are both connected and leads to j; all names in the matrix differ; every other name is disabled |
| Partition.LastConnects | lab3/raft/config.go:249-292 | over every run, connected[i] holds if and only if the last operation that names server i is connect |
| Partition.EnabledIffLastConnects | lab3/raft/config.go:249-292 | over every run, the end-point from i to j leads to j, and is enabled if and only if the last operations that name i and j are both connects |
| Partition.NamesInUse | lab3/raft/config.go:184-199 | over every run all end-point names in the rows differ, and no other name is enabled |
| Partition.ServerIffLastStart | lab3/raft/config.go:104-106 | over every run the table leads to server i, object r, if and only if the last start or crash of i is a start with r |
| Partition.NamesOfLastStart | lab3/raft/config.go:184-199 | over every run row i holds exactly the names of the last start of i |
| Partition.GoesOn | lab3/raft/config.go:184-292 | exactly when a run can go on: crash and disconnect of any server, connect of a server once started, start with n different names that no start has used |
| Partition.ReplacedNamesDisabled | lab3/raft/config.go:184-199 | once a server has been started again, none of the names of its earlier start is ever enabled |
| Partition.StartRetires | lab3/raft/config.go:187-192 | start1 retires every name of the instance it replaces |
| Partition.RetiredNamesStayDead | lab3/raft/config.go:184-199 | in every later state a retired name is out of the matrix and readEndnameInfo finds it disabled |
| Partition.CallsDo | lab3/raft/config.go:184-292 | the network calls of each operation, as its method makes them, lead one after another to the tables after the operation |
| Partition.CallsEnableCurrent | lab3/raft/config.go:249-269 | no operation enables any name that is not in the matrix, not even between two of its calls |
| Partition.SeenDisabled | lab3/raft/config.go:184-292 | a retired name is disabled in the tables after any number of the network calls of any later operation |
| Partition.SupersededNeverDispatched | lab3/labrpc/labrpc.go:313-361 | while the harness goes on with any operations, in every interleaving of requests with their single network calls, no further request sent on a retired name is dispatched or answered with ok |
| ApplyMonitor.Config.CheckLogs | lab3/raft/config.go:135-152 | the message is recorded and maxIndex raised; an error is reported exactly when some log disagrees, and names the last one that does |
| ApplyMonitor.Config.Apply | lab3/raft/config.go:156-174 | fatal exactly when the message is valid and conflicts with a log or skips its predecessor |
| ApplyMonitor.Config.Appliers | lab3/raft/config.go:156-174 | a stream of messages to all servers is accepted if and only if no valid message differs in its command from an earlier valid one with its index, and every valid one with an index above 1 comes after one for the same server with the index before |
| ApplyMonitor.AcceptsIffGood | lab3/raft/config.go:135-175 | acceptance by the monitor's state is the same as: one command per index over all servers, and every index above 1 after its predecessor on the same server |
| ApplyMonitor.LogsAre | lab3/raft/config.go:135-152 | after any number of messages of an accepted stream, server i's log has an entry at an index if and only if one of them was for it, and the entry is its command |
| ApplyMonitor.WriteOnce | lab3/raft/config.go:147-150 | an entry of an accepted log never changes or disappears |
| ApplyMonitor.Agree | lab3/raft/config.go:138-145 | any two accepted logs, at any two times, agree on an index both hold |
| ApplyMonitor.ClosedDownward | lab3/raft/config.go:146-166 | accepted logs have no gap above index 1, and maxIndex is the largest index held |
| ApplyMonitor.HoldsAllBelow | lab3/raft/config.go:146-166 | a log that holds an index holds everything from 1 up to it |
| ApplyMonitor.Tally | lab3/raft/config.go:377-399 | over any logs read, it takes the mismatch branch if and only if two of them have different commands at the index; otherwise it counts the logs that have one, and the command is theirs |
| ApplyMonitor.ReadsAgree | lab3/raft/config.go:138-145 | accepted logs never disagree, whenever each of them is read |
| ApplyMonitor.DisagreeOnlyAfterError | lab3/raft/config.go:147-168 | reads disagree only after a message has been rejected, between its being recorded and the end of the process |
| ApplyMonitor.DisagreePossible | lab3/raft/config.go:161-168 | two messages and two reads for which that happens |
| ApplyMonitor.NCommitted | lab3/raft/config.go:377-399 | although appliers go on between its reads, over accepted messages it returns a count between the true count when it began and when it ended, with the one agreed command, and never takes its mismatch branch; over any messages it takes that branch if and only if it reads two commands at the index, and then a message has been rejected |
| ApplyMonitor.PollOnce | lab3/raft/config.go:471-481 | one poll of one succeeds exactly when enough logs answered with our command, and the agreement then lasts |
| ApplyMonitor.PollAll | lab3/raft/config.go:467-481 | the polls of one attempt succeed exactly when one of them does, and then that many logs hold the command from that poll on |
| ApplyMonitor.One | lab3/raft/config.go:444-491 | it returns an index exactly when a poll of a tried attempt reached agreement; then at least expectedServers logs, and at least one, hold the command there, from that moment on |
| ApplyMonitor.AgreedMeans | lab3/raft/config.go:471-481 | agreement, on the messages: at every moment from then on at least expectedServers servers, and at least one, have been sent the command at the index |
| ApplyMonitor.ReachedMeans | lab3/raft/config.go:471-481 | what a poll must see, on the messages: at least expectedServers servers, and at least one, had been sent the index when they were read, one of them with our command |
| Backends.DedupIsSet | lab1/video_rec_service/server_lib/server_lib.go:377-387 | deduplication keeps the set of ids and makes them distinct |
| Backends.DedupDistinct | lab1/video_service/server_lib/server_lib.go:162-167 | a list is free of duplicates exactly when deduplication does not shorten it, and is then unchanged |
| Backends.DeduplicateIds | lab1/video_service/server_lib/server_lib.go:71-81 | the loop keeps the first occurrences, in order |
| Backends.DedupKeepsFirst | lab1/video_rec_service/server_lib/server_lib.go:377-387 | what is left are the first occurrences: their places ascend, no id stands before its place, and every id is among them |
| Backends.LookupOk | lab1/user_service/server_lib/server_lib.go:148-160 | a batch is answered exactly when every id is known, with the entries in order; otherwise the error is NotFound |
| Backends.LookupErr | lab1/user_service/server_lib/server_lib.go:148-160 | the error names the first id that has no entry |
| Backends.LookupErrPrefix | lab1/user_service/server_lib/server_lib.go:148-160 | the first unknown id decides the reply to the whole batch, whatever follows it |
| Backends.UserService.GetUser | lab1/user_service/server_lib/server_lib.go:120-161 | refused if and only if a failure is injected, else if the batch is empty, else if it is larger than the limit; else all entries in order, or NotFound with the first id that has none |
| Backends.VideoService.GetVideo | lab1/video_service/server_lib/server_lib.go:135-181 | the same, and between size and lookup refused if and only if two places have the same id |
| VideoRec.LookupBatch | lab1/video_rec_service/server_lib/server_lib.go:221-279 | batches of ids that are all known are themselves known, and their answers concatenate to the answer for all |
| VideoRec.LikedBatch | lab1/video_rec_service/server_lib/server_lib.go:191-232 | the same for the liked videos of batches of users |
| VideoRec.LikedAt | lab1/video_rec_service/server_lib/server_lib.go:191-227 | the sequence that the subscribed-to loop collects: an error exactly if some id is unknown, and otherwise the liked videos of user after user, those of the k-th id from place at[k] on |
| VideoRec.LikedMembers | lab1/video_rec_service/server_lib/server_lib.go:191-227 | its elements: x is in it if and only if some of the users has x among its liked videos |
| VideoRec.CandidatesKnown | lab1/video_rec_service/server_lib/server_lib.go:192-243 | there are candidates exactly if the user, all users it is subscribed to and all videos that they like have entries |
| VideoRec.TopUniqueUpToTies | lab1/video_rec_service/server_lib/server_lib.go:286-303 | the specification of an answer fixes its ranks place by place: two answers for the same candidates and limit, for whatever batch sizes, differ only in the order of ties |
| VideoRec.SortFunc | lab1/video_rec_service/server_lib/server_lib.go:290-298 | sorts in place, descending by the rank map, and permutes |
| VideoRec.GetVideoRanks | lab1/video_rec_service/server_lib/server_lib.go:389-402 | the map has exactly the given videos as keys, each with its rank for the user |
| VideoRec.SendsSucceed | lab1/video_rec_service/server_lib/server_lib.go:188-281 | a row of RPCs with retries succeeds if and only if none fails twice, and without retries if and only if none fails |
| VideoRec.SendsCount | lab1/video_rec_service/server_lib/server_lib.go:188-281 | the attempts that a row of RPCs makes: all succeeded if and only if there are as many attempts that did not fail as RPCs; otherwise there are fewer and the last attempt failed |
| VideoRec.BatchCount | lab1/video_rec_service/server_lib/server_lib.go:197-240 | a loop over n ids sends as few batches as can hold them |
| VideoRec.DeliveredWithRetries | lab1/video_rec_service/server_lib/server_lib.go:171-281 | with retries a request that finds all entries is answered if and only if no RPC fails twice |
| VideoRec.DeliveredWithoutRetries | lab1/video_rec_service/server_lib/server_lib.go:171-281 | with retries disabled it is answered if and only if its first RPC does not fail, none of the subscribed-to loop fails twice, and none for videos fails |
| VideoRec.DeliveryCount | lab1/video_rec_service/server_lib/server_lib.go:171-281 | a whole request is answered if and only if the attempts that did not fail are as many as its RPCs: one, and the batches of both loops |
| VideoRec.RetriesThoughDisabled | lab1/video_rec_service/server_lib/server_lib.go:202-210 | a request, with retries disabled, that makes three attempts for two RPCs and succeeds |
| VideoRec.RetriesForUnknown | lab1/video_rec_service/server_lib/server_lib.go:202-210 | a request, with retries disabled and no failure at all, that has an RPC attempted twice because a user it asks for does not exist |
| VideoRec.RankSortCut | lab1/video_rec_service/server_lib/server_lib.go:283-303 | the result is a rank-descending ordering of all given videos cut off at the limit; the array itself is permuted and sorted |
| VideoRec.Server.CallUser | lab1/video_rec_service/server_lib/server_lib.go:173-177 | an RPC with one retry: success means a full answer after an attempt that was not failed; a good batch is lost only when both attempts fail; a batch within the limit is never refused |
| VideoRec.Server.CallVideo | lab1/video_rec_service/server_lib/server_lib.go:239-243 | the same for GetVideo, where the batch must also be free of duplicates |
| VideoRec.Server.CallLiked | lab1/video_rec_service/server_lib/server_lib.go:201-231 | one batch of the subscribed-to loop is retried exactly when its first attempt fails, whatever the options say |
| VideoRec.Server.CallInfos | lab1/video_rec_service/server_lib/server_lib.go:238-243 | one good batch of the GetVideo loop goes exactly as the failures and the options decide |
| VideoRec.Server.LikedRound | lab1/video_rec_service/server_lib/server_lib.go:191-232 | one round of the subscribed-to loop extends the videos found by those of the next batch and stays on the course that the failures set, or ends it |
| VideoRec.Server.VideoRound | lab1/video_rec_service/server_lib/server_lib.go:228-281 | the same for a round of the GetVideo loop |
| VideoRec.Server.FetchLiked | lab1/video_rec_service/server_lib/server_lib.go:188-232 | for every batch size the loop yields the liked videos of all subscribed users, in order; with fitting sizes and known users the failures decide exactly whether it succeeds, after how many attempts, and whether any RPC is retried; it ends even for batch size 0 |
| VideoRec.Server.FetchVideos | lab1/video_rec_service/server_lib/server_lib.go:228-281 | for every batch size the loop yields the entries of all ids; for known, distinct ids the failures decide exactly whether it succeeds and after how many attempts; with retries disabled nothing is retried |
| VideoRec.Server.CallOwn | lab1/video_rec_service/server_lib/server_lib.go:171-187 | the user's own record; for a user that exists the failures and the options decide exactly whether it is found and after how many attempts |
| VideoRec.Server.GatherIds | lab1/video_rec_service/server_lib/server_lib.go:171-219 | the user's own record and the distinct ids of the videos to rank, or an error; for known users the failures decide exactly which and after how many attempts, and with retries disabled it is fixed for all users when an RPC is attempted twice |
| VideoRec.Server.Fetch | lab1/video_rec_service/server_lib/server_lib.go:171-281 | all RPCs together yield exactly the candidates of the unbatched specification; with consistent databases whether they do, and the number of attempts, are what the failures decide, with and without retries |
| VideoRec.Server.Choose | lab1/video_rec_service/server_lib/server_lib.go:244-278 | the fetched videos, or the cache's own array as the fallback, or the error when fallback is disabled or the cache empty, with the counters of each case |
| VideoRec.Server.GetTopVideos | lab1/video_rec_service/server_lib/server_lib.go:147-306 | a non-stale answer is the limit-truncated, rank-descending ordering of the distinct liked videos of all subscribed users; with consistent databases, fitting sizes and retries it is given if and only if no RPC failed twice; with and without retries the injected failures alone decide whether it is given and after how many attempts; a request not answered so is a user error if and only if the RPCs for users did not all succeed, and is otherwise answered stale exactly when fallback is enabled and the cache not empty; with retries disabled and fitting sizes, whatever the databases hold, an RPC is attempted twice if and only if a first attempt of the subscribed-to loop fails; no batch is refused; a stale answer is the top of the whole non-empty cache and needs fallback enabled; the cache stays a permutation of itself; every counter changes by exactly what happened |
| VideoRec.Server.AnswerIds | lab1/video_rec_service/server_lib/server_lib.go:191-305 | an answer that is not stale, on the databases: there are distinct ids, x among them if and only if users[users[userId].subscribedTo[k]].likedVideos[m] is x for some k and m, by descending rank for the user's coefficients; all have entries, and the answer is the entries of the first limit of them, or of all |
| VideoRec.Server.KnownMeans | lab1/video_rec_service/server_lib/server_lib.go:197-243 | what is asked of the databases and sizes for a request to be answered as the failures decide |
| VideoRec.Server.RetriesMeans | lab1/video_rec_service/server_lib/server_lib.go:202-210 | with retries disabled an RPC is attempted twice if and only if the first RPC succeeds and either a user it asks for next does not exist or one of the first attempts at their batches fails |
| VideoRec.Server.StaleShows | lab1/video_rec_service/server_lib/server_lib.go:264-303 | what is shown of a cache sorted by rank: its first limit videos, or all of them |
| VideoRec.Server.RefreshCache | lab1/video_rec_service/server_lib/server_lib.go:341-375 | the cache is replaced if and only if fallback is enabled, the trending RPC succeeded, and the ids are at least one, within the limit, all different and all known, with no failure injected; it then holds their entries in order |
| VideoRec.Server.Serve | lab1/video_rec_service/server_lib/server_lib.go:147-306 | over any sequence of non-overlapping requests the cache stays a permutation of itself, and every stale answer is the top of the cache as last refreshed, for its own user |
| VideoRec.Server.StaleExplained | lab1/video_rec_service/server_lib/server_lib.go:264-303 | a stale reply, on the cache: the first limit videos, or all, of a permutation of it by descending rank for the user's coefficients, and fallback is enabled, the cache not empty and the user known |
| RequestCounters.CountedRight | lab1/video_rec_service/server_lib/server_lib.go:152-159 | every atomic add changes its counter by what it changes in the request's own account |
| RequestCounters.CountersConsistent | lab1/video_rec_service/server_lib/server_lib.go:251-265 | at every moment of every interleaving: activeRequests counts the requests in flight, totalErrors is at most totalRequests, staleResponses at most videoServiceErrors, and totalErrors exceeds the two error counters by exactly the requests between the two adds |
| RequestCounters.CountersAtQuiescence | lab1/video_rec_service/server_lib/server_lib.go:251-265 | when all requests have finished, nothing is active, the error counters add up, and every video error was answered stale or none was |
| RequestCounters.ArrivalsCounted | lab1/video_rec_service/server_lib/server_lib.go:152-153 | totalRequests is the number of requests that have arrived |
| RequestCounters.RequestsCounted | lab1/video_rec_service/server_lib/server_lib.go:152-265 | at every moment each other counter is the number of requests that have got to its adds: active between its two adds, failed from the first add of an error on, and so on |
| RequestCounters.WhereRequestIs | lab1/video_rec_service/server_lib/server_lib.go:152-265 | a request is where its latest add has brought it |
| RequestCounters.VideoErrorWay | lab1/video_rec_service/server_lib/server_lib.go:251-278 | whatever has happened, a new request can fail at the video service, and is then answered stale or, with fallback disabled, not |
| ClientPool.Pool.GetNext | lab1/video_rec_service/server_lib/server_lib.go:404-412 | hands out the current client and moves on around the pool |
| ClientPool.Pool.Picks | lab1/video_rec_service/server_lib/server_lib.go:404-422 | k picks hand out the k clients that follow the current one around the pool |
| ClientPool.PickedWhen | lab1/video_rec_service/server_lib/server_lib.go:404-422 | a client is picked once per round, at its distance from the start |
| ClientPool.CountIs | lab1/video_rec_service/server_lib/server_lib.go:404-422 | the exact number of times each client is picked in k picks |
| ClientPool.Fair | lab1/video_rec_service/server_lib/server_lib.go:404-422 | over any k picks each of n clients is chosen k/n times, rounded down or up |
| ClientPool.FairShare | lab1/video_rec_service/server_lib/server_lib.go:404-422 | the same on the picks: those among k picks from start that fall on client c are k/n many, rounded down or up |
| Ranker.DotSymmetric | lab1/ranker/ranker.go:31-38 | the dot product is symmetric in user and video, although the loop ranges over one side |
| Ranker.DotAdds | lab1/ranker/ranker.go:31-38 | the dot product is 0 for no features, and a further feature adds its product modulo 2^64 if the video has it, and otherwise nothing |
| Ranker.DotProduct | lab1/ranker/ranker.go:31-38 | for every iteration order, and although products and sums wrap around, the loop computes the exact dot product modulo 2^64 |
| Ranker.RankNeverFails | lab1/ranker/ranker.go:20-25 | the cost hash lies in 1..3, so the ignored error of GenerateFromPassword cannot happen, and the hash carries that cost |
| Ranker.Rank | lab1/ranker/ranker.go:27-45 | the loop and what follows it give the rank that RankSteps describes |
| Ranker.RankSteps | lab1/ranker/ranker.go:20-45 | the rank is the 64-bit FNV hash of the bytes that GenerateFromPassword makes of 20 ASCII digits, at a cost of the 32-bit FNV hash modulo 3, plus 1, of as many digits as needed; both numbers, read digit by digit from the left, are the dot product modulo 2^64 |
| Base64.DecodeEncode | lab1/det_bcrypt/det_bcrypt.go:27-29 | decoding an encoding gives back the bytes, for every length |
| Base64.Alphabet | lab1/det_bcrypt/det_bcrypt.go:23-25 | the alphabet: 0 is ".", 1 is "/", then A to Z, a to z and 0 to 9; the padding is "=" |
| Base64.GroupSpells | lab1/det_bcrypt/det_bcrypt.go:27-29 | each group of four characters is the alphabet at the four six-bit parts, from the left, of the 24 bits of three bytes |
| Base64.EndSpellsOne | lab1/det_bcrypt/det_bcrypt.go:27-29 | one byte left over is filled up with zero bits and two padding characters |
| Base64.EndSpellsTwo | lab1/det_bcrypt/det_bcrypt.go:27-29 | two bytes left over are filled up with zero bits and one padding character |
| Base64.EncodeLength | lab1/det_bcrypt/det_bcrypt.go:28 | n bytes become 4 * ((n + 2) / 3) characters |
| Base64.TrimmedLength | lab1/det_bcrypt/det_bcrypt.go:31-39 | the trimmed encoding of n bytes has (4n + 2) / 3 characters: 22 for the salt, 31 for the hash |
| Base64.TrimmedShape | lab1/det_bcrypt/det_bcrypt.go:35-38 | trimming removes exactly the padding |
| Base64.RoundTrip | lab1/det_bcrypt/det_bcrypt.go:31-53 | base64Decode gives back what base64Encode was given if and only if its length is not a multiple of 3 |
| Base64.Base64Encode | lab1/det_bcrypt/det_bcrypt.go:31-39 | the loop from the end removes all trailing padding and stops inside the buffer |
| Base64.Base64Decode | lab1/det_bcrypt/det_bcrypt.go:41-53 | the loop appends 4 minus the length modulo 4 padding characters before decoding |
| DetBcrypt.ParsePrinted | lab1/det_bcrypt/det_bcrypt.go:197-223 | parsing a printed record gives it back if and only if the cost is in 1..31, the major version at most '2' and the minor version not '$', the layout without minor version included |
| DetBcrypt.ReprintIdempotent | lab1/det_bcrypt/det_bcrypt.go:272-322 | any accepted string reprints to a string that parses, and from then on nothing changes |
| DetBcrypt.ReprintsExactlyCanonical | lab1/det_bcrypt/det_bcrypt.go:294-322 | an accepted string is reproduced if and only if it is canonical |
| DetBcrypt.Hashed.Hash | lab1/det_bcrypt/det_bcrypt.go:272-292 | the 60-byte buffer filled piece by piece is the printed record |
| DetBcrypt.Hashed.DecodeVersion | lab1/det_bcrypt/det_bcrypt.go:294-308 | the errors and their causes, the fields set, and the number of bytes read |
| DetBcrypt.Hashed.DecodeCost | lab1/det_bcrypt/det_bcrypt.go:311-322 | accepts exactly the two-byte numbers in 1..31, signs included |
| DetBcrypt.NewFromHash | lab1/det_bcrypt/det_bcrypt.go:197-223 | returns the parsed record, or exactly the first error met |
| DetBcrypt.PrintedLayout | lab1/det_bcrypt/det_bcrypt.go:272-292 | the printed record byte by byte: the separators, the versions, the two digits of the cost, the salt and the hash |
| DetBcrypt.ParsedAccepts | lab1/det_bcrypt/det_bcrypt.go:197-223 | a string of at least 59 bytes is accepted if and only if it begins with "$", its major version is at most "2", and its cost is two digits, or "+" and a digit, that make 1 to 31 |
| DetBcrypt.ParsedFields | lab1/det_bcrypt/det_bcrypt.go:197-223 | and the record has the versions, cost, salt and hash that stand at their places in it |
| DetBcrypt.ParseErrors | lab1/det_bcrypt/det_bcrypt.go:197-211 | the errors in the order in which they are found |
| DetBcrypt.GenerateCompareCost | lab1/det_bcrypt/det_bcrypt.go:123-162 | a hash can be generated exactly for costs up to 31, reports that cost (10 when below 1), is matched by its password, and by another exactly when their 23 digest bytes are equal |
| DetBcrypt.ComparesByCipher | lab1/det_bcrypt/det_bcrypt.go:131-150 | on the cipher: a generated hash is matched by another password if and only if the first 23 cipher bytes, for the passwords each with a zero byte appended, the same cost and a salt of sixteen letters "a", are the same |
| DetBcrypt.GeneratedHeader | lab1/det_bcrypt/det_bcrypt.go:164-195 | a generated hash begins with "$2a$", the two digits of the cost (10 when below 1), "$", and the sixteen letters "a" encoded |
| DetBcrypt.GeneratedDigest | lab1/det_bcrypt/det_bcrypt.go:225-244 | and its last 31 bytes decode to exactly those 23 cipher bytes of the password |
| DetBcrypt.CompareDecides | lab1/det_bcrypt/det_bcrypt.go:131-150 | comparing with any string: the parser's error, or corrupt input when its salt does not decode, or success if and only if its hash begins with the 31 characters that encode the 23 cipher bytes of the password for its cost and salt |
| MergeChannels.InterleavesIffSplits | lab0/merge_channels.go:8-14 | an interleaving is exactly an output that splits, in place and in order, into the two inputs |
| MergeChannels.InterleavesAt | lab0/merge_channels.go:8-14 | on places: the elements of a stand at ascending places of the output, those of b too, and every place belongs to exactly one of the two |
| MergeChannels.InterleavesIfAt | lab0/merge_channels.go:8-14 | and whatever has such places is an interleaving |
| MergeChannels.MergeSound | lab0/merge_channels.go:23-45 | every run that returns takes exactly len(a) + len(b) + 2 turns and has sent an interleaving |
| MergeChannels.MergeComplete | lab0/merge_channels.go:23-45 | every interleaving is the output of some run |
| MergeChannels.MergeAll | lab0/merge_channels.go:23-45 | the loop, for every choice of select, returns after len(a) + len(b) + 2 turns with an interleaving that has all elements |
| MergeChannels.MergeOrCancel | lab0/merge_channels.go:65-89 | the output is an interleaving of exactly what was consumed; nil means both channels were drained, an error means the context was done |
| MergeFetches.FetchesSafe | lab0/merge_channels.go:133-153 | in every interleaving nothing is sent after close, Fetch is not called after false, the output is closed at most once and then is a full interleaving |
| MergeFetches.FetchCalls | lab0/merge_channels.go:133-153 | on the run: a worker calls Fetch once for every value it has got and once more when it has been told false, and never after that |
| MergeFetches.CloseIsLast | lab0/merge_channels.go:133-153 | on the run: nothing is fetched, sent or closed after the close |
| MergeFetches.FetchesFinish | lab0/merge_channels.go:133-153 | every run is finite, and it can go on if and only if the output is not closed yet |
| MergeFetches.FetchesComplete | lab0/merge_channels.go:133-153 | every interleaving is the closed output of some run |
| MergeFetches.SameOutputs | lab0/merge_channels.go:23-45 | MergeFetches and MergeChannels have exactly the same final outputs |
| Semaphore.NextKeepsInv | lab0/semaphore.go:57-75 | every atomic step keeps: v is posts minus acquisitions and not negative, and each call's failed swaps are paid for by changes of v |
| Semaphore.SemaphoreSafe | lab0/semaphore.go:38-75 | in every interleaving v is posts minus successful waits and never negative, even if v changed and returned between load and swap |
| Semaphore.PermitsBalance | lab0/semaphore.go:38-75 | on the run: v is the number of posts made minus the number of calls of Wait that have returned nil, and there are never more of these than posts |
| Semaphore.CallsEntered | lab0/semaphore.go:57-75 | every call that was entered is there |
| Semaphore.CancelledIffDone | lab0/semaphore.go:57-75 | the calls that returned the context's error are those whose select took ctx.Done |
| Semaphore.NextPays | lab0/semaphore.go:57-75 | a change of v makes at most the waiting calls stale, and a failed swap uses up its own call's staleness |
| Semaphore.ContentionBound | lab0/semaphore.go:57-75 | failed swaps, and stale calls that may fail next, are at most the largest number of calls waiting at once times (posts plus successful waits) |
| Semaphore.FailedSwapsBounded | lab0/semaphore.go:57-75 | on the run: the swaps that let no call return are at most the calls waiting at some one moment times posts and returns together |
| Semaphore.WaiterCanAcquire | lab0/semaphore.go:57-75 | with v positive, a waiting call acquires by its own next two steps; with v zero its load changes nothing |
| Queue.Queue.Unroll | lab0/queue.go:36-40 | the two copies put the contents, in order, at the front of a buffer twice the size |
| Queue.Queue.Grow | lab0/queue.go:35-46 | doubling keeps the contents and moves exactly size elements |
| Queue.Queue.Push | lab0/queue.go:29-53 | appends one element, and copies the old buffer exactly when it was full |
| Queue.Queue.Pop | lab0/queue.go:62-72 | takes the first element, or answers the zero value and false exactly when empty |
| Queue.RunOps | lab0/queue.go:29-72 | over any run, across wraparound and doubling, the ring answers as a plain sequence does; growth has copied exactly size - 8 elements, fewer than two per push |
| Queue.NothingLost | lab0/queue.go:29-72 | what came out followed by what is inside is what went in |
| Queue.PopsInOrder | lab0/queue.go:29-72 | each pop answers with the first value pushed that has not come out, or with nothing exactly when all have; a push appends |
| Queue.ProducerOrder | lab0/queue.go:93-106 | each producer's items come out in the order in which it pushed them, none skipped |
| Queue.FromProducerAt | lab0/queue.go:93-106 | the items of a producer are exactly those at ascending places that are its own |
| Labgob.PathStays | lab3/labgob/labgob.go:75-85 | no path leads out of a set of types closed under field, element and key types |
| Labgob.PathTo | lab3/labgob/labgob.go:84-112 | what is reachable is so by a path of types, each the type of a field, an element type or a key type of the one before |
| Labgob.PathReaches | lab3/labgob/labgob.go:84-112 | and whatever such a path leads to is reachable |
| Labgob.TotalLowerCounts | lab3/labgob/labgob.go:88-102 | the count over a set of types is the number of pairs of a struct type in it and a field of it in lower case |
| Labgob.WalkOn | lab3/labgob/labgob.go:87-111 | a walk of a type and the following walk of one of its successors compose, without counting anything twice, even when types above are unfinished |
| Labgob.WalkEnds | lab3/labgob/labgob.go:84-112 | when all successors are in the table, the walk of the type itself is complete |
| Labgob.Checker.CheckFields | lab3/labgob/labgob.go:88-102 | the loop over the fields counts each lower-case field once and completes every field type |
| Labgob.Checker.CheckType | lab3/labgob/labgob.go:72-113 | ends on every finite type graph, cyclic ones included; what a call adds to the table is complete, reachable from its argument, and counted exactly once |
| Labgob.Checker.CheckAll | lab3/labgob/labgob.go:72-113 | after any sequence of top-level calls the table is exactly the set of types reachable from the arguments, and errorCount the number of lower-case fields over that set |
| ConcurrentWalk.BodyRight | lab3/labgob/labgob.go:87-111 | what a call does after marking its type counts its lower-case fields and visits exactly its field, element and key types |
| ConcurrentWalk.NextKeepsInv | lab3/labgob/labgob.go:72-113 | every step of any walker keeps: all that must be marked is marked or about to be visited, nothing else is, and each lower-case field of a marked type is counted or about to be, once |
| ConcurrentWalk.WalkersTogether | lab3/labgob/labgob.go:72-113 | in every interleaving of any number of walkers, once all have returned the table is exactly the set of types reachable from their arguments, and every lower-case field of these has been counted once |
| ConcurrentWalk.WalkersMarkReachable | lab3/labgob/labgob.go:72-113 | on the run: once all calls have returned, a type is in the table if and only if the argument of some call reaches it, and errorCount is the number of lower-case fields of these types |
| ConcurrentWalk.GoUsesUp | lab3/labgob/labgob.go:72-113 | every step of a walker uses up exactly one of the tasks at hand or still to come from types not yet marked |
| ConcurrentWalk.WalkersReturn | lab3/labgob/labgob.go:72-113 | every run is finite: at most two steps per call and one per task of a type; and it can go on with the calls it has if and only if some call has not returned |

## Left out

- The Raft protocol: the methods of lab3/raft/raft.go are empty; instances are arbitrary writers to their own persisters, and handlers arbitrary sequences of saves.
- Real time and randomness (sleeps, timers, `rand`, timeouts, latency averages): every delay is a place where other steps may come in, every random choice is open.
- `GetStats` reads the counters one after another, so nothing is stated about a snapshot of them; totalTimeMs is not modelled.
- Counter overflow, except the wrap-around modulo 2^64 in the ranker.
- Gob encoding and reflection (an RPC's arguments and reply are byte strings), method lookup in `Service.dispatch`, and the Fatalf for unknown services.
- `checkDefault1`, which only warns about non-default values down to a fixed depth.
- The Blowfish cipher and the FNV hashes are arbitrary functions of their inputs; the cipher's are the password, the cost and the decoded salt.
- gRPC connections, generated code, mock clients, command line tools, logging, server mains, and the generation of users and videos. A failure injector is a boolean for each RPC attempt; a reply lost on the way counts as an attempt that failed.
- `lab1/failure_injection` and `parallel_fetcher.go`, whose members are simple.
- `Network.Cleanup` and the done channel: a call made after cleanup returns false without being accepted.
- Overlapping requests on the fallback cache: the sort runs outside the lock on the shared slice, so that preservation of the cache is stated for requests that do not overlap. A reply is a value here; that the reply's slice is the cache's own is not modelled.
- Negative batch sizes and client pools of size 0, for which the original panics.
- The step system of Durability: `rf.Kill()` in crash1 is not a step, because it touches neither tables nor persisters; crash1 and start1 for one server do not overlap each other, as in the harness, while those of different servers may. `&Persister{}` and the save that fills it are one step, because nobody else can reach the new persister in between.
- In Durability, the tables other than the servers' may change to anything at any time, which allows more than connect, disconnect and start1 do.
- Partition.Cluster.Start1: what it does to persisters is in Durability; the random names are an argument, and the process stops when one is taken.
- `applyErr`: log.Fatalf ends the process before it is assigned, so that it stays empty and its readers see nothing. `one` is stated for accepted messages.
- ApplyMonitor.One: the time limits of 25 and 5 seconds are a finite sequence of attempts and polls; rf.Start is what the attempt says it returned.
- MergeChannels.MergeOrCancel: channels deliver a finite sequence and then close; a channel that never closes, or a receiver that never receives, only blocks.
- MergeFetches, the semaphore and the request counters are modelled on values as step systems, not as classes, because their point is the interleaving of atomic operations; update in place of their fields is not captured. Fairness between waiters is not promised by the code.
- Queue.ProducerOrder: under the mutex a concurrent run is an order of whole operations; the mutex itself is not modelled.
- Labgob.Checker.CheckType: one call at a time, in the source's imperative form; concurrent calls are the step system of ConcurrentWalk, modelled on values. Types are numbers in a finite graph.
- The round-robin choice of a client (ClientPool) is not wired into GetTopVideos: it has no influence on the answer.
- The inside of `slices.SortFunc`: it is an insertion sort here, of which callers see only that it permutes and orders.
- Base64.Base64Encode: on an empty source the original indexes out of range, so that the source must not be empty; the line breaks that encoding/base64 skips when decoding are not modelled.
- Base64.Base64Decode: appending to the source may write into its spare capacity; here the source is a value.
- DetBcrypt.Hashed.Hash: stated for a 22-byte salt and a cost in 1..31, which every constructor of the record ensures.
- `RaftStateSize`, `SnapshotSize` and the readers of the network's statistics only return a length or a field.
