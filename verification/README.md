# XLetsChat: verified model

A Dafny model of the LetsChat server (a WebSocket gateway and a gRPC logic server over PostgreSQL, Redis and
SeaweedFS) with proofs of what its code keeps over whole runs. `dafny verify dfyconfig.toml` checks everything.

| files | what they model |
|---|---|
| `ConnPool`, `PoolMachine`, `PoolObject` | the connection pool: one locked pass of `Acquire`, the interleaving machine of any number of threads, and the object whose methods are its steps |
| `PoolOwnership`, `PoolCapacity`, `PoolWakeup`, `PoolProgress` | who owns each handle, how many connections there can be, when a waiting thread is stranded, and what each thread can do next |
| `Store`, `Friendship`, `Handlers`, `Database` | friend requests, friendships and messages at the level of single SQL statements that interleave and fail, what that makes of friendships, what a handler under way can still do, and the database client and the handlers as objects |
| `Sync` | the message query and a client that pages through it while rows are added |
| `Gateway`, `Chat` | the uid-to-socket map against its history, and gateway and store in one run |
| `Framing` | packet headers, packets and streams, in bytes |
| `Text`, `Endpoint`, `Json`, `Upload` | string searching, `stoi`/`to_string`, endpoint parsing, JSON field extraction, upload and download links |
| `Wrappers`, `Types` | the option type, and names that modules share |

How to read it:

- Each machine is a state, an event type, and an `Apply`. A run of the pool is a list of states and a list of
  events, each step enabled; the other machines fold any list of events and skip the impossible ones. What the
  environment decides (health, failures, timeouts, which thread is notified, which statement runs next) is
  carried by the events, so a statement about every run is about every schedule and every fault.
- `DbPool` and `RedisPool` are one model: they differ only in `CreateConn`, where AUTH is an extra stage.
- A wait is left in two steps (out of the wait set, then the lock taken back), so a notification can never be
  spent on a thread that has already stopped waiting.
- The schema of the friend tables is not in the repository. `ON CONFLICT DO NOTHING` is read as insertion into
  a set of pairs, and a new request has status 0.
- Row ids of messages are BIGSERIAL (readme.md:98): an insert draws its id in one step and its row becomes
  visible in a later one, so rows can become visible out of id order.
- Row ids are ghost data for sync: the messages the code returns carry neither `id` nor `msg_id`, so the cursor
  that the paging results move cannot be computed from the replies alone.

What is not true of the code, with the exact condition under which it is:

- `max_pool_` is not a limit. `PoolCapacity.InLimitIff` says exactly in which runs it is one,
  `AlwaysInLimitIff` for which sizes of the race it always is. `CapacityBound` is the true bound, and
  `CapacityBoundReached` shows that it is reached for every size of the race.
- Wake-ups can be lost. `PoolWakeup.NoLostWakeUpIff` says exactly when they are not;
  `FailedCreationStrands` and `NotifiedTimeoutStrands` are runs in which one is.
- Friendship is not always symmetric. `Friendship.SymmetricIff` says exactly when it is, in every run, and
  `CanBeInsertedIff` exactly when a missing row can still appear without a new request;
  `RejectFreezesHalfFriendship` is a run after which it cannot.
- Paging through messages can lose some. `Sync.PagingCompleteIff` says exactly when one client does not, and
  `AlwaysCompleteIff` in which runs no client ever does; `OverlappingInsertsLoseOne` is a run in which one does.
- The links of an upload reply do not always agree. `Upload.RepliesAgreeIff` says exactly when they do, and
  `SameTripleMixesFids` is a run in which they do not.
- The session map is not always the logged-in sockets. `Gateway.AlwaysExactIff` says exactly when it is, and
  three lemmas give a history for each dropped clause. User ids are BIGSERIAL (readme.md:88), so the history
  with a user 0 needs a row that was put into the table by hand.
- The documentation says the length field solves sticky packets (readme.md:58). It makes streams readable
  (`Framing.StreamIsReadableIff`), but the dispatcher does not cut by it: `Framing.MessageHoldsOnePacket`.

Two properties hold for every call the program makes, and the exact conditions describe the functions for other
arguments:

- A parsed endpoint prints to a text that parses back: `Endpoints.NormalFormHttp`, for the default scheme "http"
  that the program passes. `Endpoints.NormalForm` is the condition for any default scheme.
- A field of a flat object is read back: `Upload.FidIsRead`, for the key "fid" that the program asks for.
  `Json.ExtractionIsRightIff` is the condition for any key.

## Model

| member | source | states |
|---|---|---|
| `ConnPool.AcquirePass` | server/logic_server/db_pool.cc:49-74 | one lock hold drops exactly the handles before the first healthy one, lowers the counter by their number without wrapping when it can pay for them, hands out that handle and keeps the rest in order; with none left it creates exactly when the counter is below the maximum |
| `ConnPool.AllocatedIsKeptOrFreed` | server/logic_server/db_pool.cc:5-12 | the attempts of the constructor put every handle they allocated in exactly one of: the queue, the finished ones |
| `ConnPool.AttemptResults` | server/logic_server/redis_pool.cc:5-12 | the queue of the constructor holds exactly the handles of the attempts that returned one, and the finished handles are exactly those of the others that allocated one |
| `ConnPool.AttemptOrder` | server/logic_server/db_pool.cc:5-12 | both in the order of the attempts |
| `PoolObject.Pool.constructor` | server/logic_server/db_pool.cc:5-12 | the queue is the successful attempts in order, the counter its length, and the object is in the machine's start state |
| `PoolObject.Pool.Acquire` | server/logic_server/db_pool.cc:45-79 | the drain loop computes the specified pass and is the machine's locked step |
| `PoolObject.Pool.CreateConn` | server/logic_server/redis_pool.cc:27-49 | a context is returned exactly when connect and, with a password, AUTH succeeded; an allocated context that is not returned is freed |
| `PoolObject.Pool.CountCreated` | server/logic_server/db_pool.cc:66-73 | counting a new connection is the machine's step |
| `PoolObject.Pool.Release` | server/logic_server/db_pool.cc:81-91 | a healthy handle goes to the back of the queue, another is finished and uncounted, as the machine's step does |
| `PoolObject.Pool.Destroy` | server/logic_server/db_pool.cc:14-21 | finishes the idle handles, each once, in order |
| `PoolOwnership.RunOwned` | server/logic_server/db_pool.cc:45-91 | in every reachable state each handle ever opened is exactly once idle, guarded, connected and uncounted, or finished; the counter is idle plus guarded; what left the queue is what entered it first |
| `PoolOwnership.NeverShared` | server/logic_server/db_pool.cc:23-25 | no handle is twice in the queue, in two guards, in a guard and the queue, or in use after it was finished |
| `PoolOwnership.CounterNeverWraps` | server/logic_server/db_pool.cc:50-58 | the unsigned decrement of the drain loop is exact and the test for a positive counter in Release never fails |
| `PoolOwnership.FinishedForGood` | server/logic_server/redis_pool.cc:55-101 | over every run a finished handle is never idle or guarded again, and is finished only once |
| `PoolOwnership.DestroyedFinishesAll` | server/logic_server/redis_pool.cc:14-21 | after the destructor every handle ever opened has been finished exactly once, those freed on the AUTH path included |
| `PoolOwnership.ReuseInReleaseOrder` | server/logic_server/db_pool.cc:50-62 | over every run a handle reused earlier has the earlier place among all that entered the queue, each at the place just popped |
| `PoolCapacity.StepCapacity` | server/logic_server/db_pool.cc:63-73 | a step raises counted plus in-flight connections only to at most the maximum minus one plus the threads in the window |
| `PoolCapacity.CapacityBound` | server/logic_server/db_pool.cc:63-73 | in every run counted plus in-flight connections stay within max(min_pool_, max_pool_ - 1 + K), K the most threads ever in the unlocked window together |
| `PoolCapacity.CapacityWithoutRace` | server/logic_server/db_pool.cc:63-73 | with never more than one thread in the window counted plus in-flight connections keep within max(min_pool_, max_pool_) |
| `PoolCapacity.StepInLimitIff` | server/logic_server/db_pool.cc:63-73 | a step keeps counted plus in-flight connections within max(min_pool_, max_pool_) exactly when a thread that it lets into the window finds room, in-flight connections counted |
| `PoolCapacity.InLimitIff` | server/logic_server/db_pool.cc:63-73 | a run has kept within that limit up to any step exactly when every thread let into the window before found such room |
| `PoolCapacity.AlwaysInLimitIff` | server/logic_server/db_pool.cc:63-73 | for max_pool_ >= 1 and K >= 1, all runs with at most K threads in the window keep within the limit exactly when K is 1 or max_pool_ - 1 + K <= min_pool_ |
| `PoolCapacity.CapacityBoundReached` | server/logic_server/db_pool.cc:63-73 | for every max_pool_ >= 1 and every K >= 1 some run with at most K threads in the window ends with max_pool_ - 1 + K counted connections |
| `PoolCapacity.ThreadBound` | server/logic_server/db_pool.cc:50-73 | when no thread holds two guards, n threads never drive the pool above max(min_pool_, n) |
| `PoolWakeup.StepCoveredIff` | server/logic_server/db_pool.cc:75-77 | a step keeps every idle handle and free place spoken for exactly when it is no failed creation falling asleep, and no notified timeout, that was still needed |
| `PoolWakeup.NoLostWakeUpIff` | server/logic_server/db_pool.cc:45-91 | over every run wake-ups are never lost exactly when all such steps were harmless when taken |
| `PoolWakeup.NoLostWakeUp` | server/logic_server/db_pool.cc:45-91 | none is lost in a run without failing creations and notified timeouts, spurious wake-ups and other timeouts allowed |
| `PoolWakeup.QuietSleeperMeansExhausted` | server/logic_server/db_pool.cc:75-91 | then a thread that sleeps while nothing is on its way means no idle handle and at least max_pool_ live guards |
| `PoolWakeup.FailedCreationStrands` | server/logic_server/db_pool.cc:63-77 | a run in which a failed creation sleeps beside an idle handle with nothing on its way |
| `PoolWakeup.NotifiedTimeoutStrands` | server/logic_server/db_pool.cc:75-77 | a run in which a notified thread times out and another sleeps on beside an idle handle |
| `PoolProgress.EveryStart` | server/logic_server/db_pool.cc:5-12 | every outcome of the constructor is the start of a run, with any number of threads |
| `PoolProgress.ServedFromQueue` | server/logic_server/db_pool.cc:49-62 | in every run a thread that calls Acquire, or whose wait has ended, notified or not, can take the lock and then holds the first healthy handle, the ones before it finished |
| `PoolProgress.NotServedFromQueue` | server/logic_server/db_pool.cc:49-75 | with no healthy handle it goes on to create or to sleep, according to the counter without the dropped ones |
| `PoolProgress.HandOver` | server/logic_server/db_pool.cc:75-91 | the run in which a handle is released, the waiter is notified and ends up holding it |
| `PoolProgress.CreationCanSucceed` | server/logic_server/db_pool.cc:63-74 | in every run a creating thread can get a new handle, guarded and counted |
| `PoolProgress.CreationCanFail` | server/logic_server/db_pool.cc:63-75 | or none, and then goes straight to the wait |
| `PoolProgress.RejectionFreesAndSleeps` | server/logic_server/redis_pool.cc:33-46 | a context that is rejected is freed, and the thread waits |
| `PoolProgress.WaitCanEnd` | server/logic_server/db_pool.cc:75-77 | in every run a wait can end unnotified, in nullptr or in another pass |
| `PoolProgress.WokenCanGiveUp` | server/logic_server/db_pool.cc:75-77 | a woken thread, notified or not, can report a timeout |
| `PoolProgress.ReleaseAndNotify` | server/logic_server/db_pool.cc:81-91 | in every run a guard can be released, which queues or finishes its handle and can wake any thread that sleeps |
| `PoolProgress.CanBeDestroyed` | server/logic_server/db_pool.cc:14-21 | a pool without guards and calls can be destroyed |
| `PoolProgress.WokenSince` | server/logic_server/db_pool.cc:75-91 | in every run a woken thread counts as notified exactly when the step that ended its sleep was a notification of it |
| `PoolProgress.FinishedIff` | server/logic_server/db_pool.cc:50-58 | a handle is finished exactly when a health check fails on it, its connection is rejected, or it is idle at the destruction |
| `Store.RunSound` | server/logic_server/pool_db_client.cc:107-184 | over every run the friend rows are exactly those some accept inserted, accepts serve existing requests in statement order, status 1 needs two done inserts, checked sends are between friends, stored rows come from checked sends, row ids are distinct and queried in order |
| `Store.RunGrows` | server/logic_server/pool_db_client.cc:146-174 | over every run friend rows, users and messages are never lost, and a request once answered is never pending again |
| `Friendship.OneSidedMeansHalfDone` | server/logic_server/pool_db_client.cc:159-168 | a one-sided friendship is the work of an accept of which exactly one insert went through, and that nothing has made up for |
| `Friendship.SymmetricIff` | server/logic_server/pool_db_client.cc:159-168 | after every run two users' friendship is symmetric exactly when the row that each half-done accept between them lacks has been inserted by some accept |
| `Friendship.QuietMeansSymmetric` | server/logic_server/pool_db_client.cc:146-174 | with no accept between its inserts and no failed insert, friendship is symmetric after every run |
| `Friendship.DoneInsertsStay` | server/logic_server/pool_db_client.cc:159-168 | in every run both rows are there for good once both inserts of an accept went through, whatever runs in between or later |
| `Friendship.AcceptedHasBothRows` | server/logic_server/pool_db_client.cc:163-173 | a request that ever had status 1 has both friend rows from then on, whatever rejects and failures follow |
| `Friendship.AcceptCompletes` | server/logic_server/pool_db_client.cc:146-174 | in every run an accept that gets to its update, however interleaved, leaves both rows for good, and status 1 when the update succeeds |
| `Friendship.RetryRestores` | server/logic_server/pool_db_client.cc:146-174 | in every state the four statements of a fault-free accept of a pending request are possible one after the other, and leave both rows and status 1 whatever earlier accepts left |
| `Friendship.RowComesFromRequest` | server/logic_server/pool_db_client.cc:155-160 | every friend row comes from a request between its two users |
| `Friendship.CanBeInsertedIff` | server/logic_server/pool_db_client.cc:146-174 | after every run a missing friend row can still appear without a new request exactly when a request between the two is pending or an accept under way has yet to insert it |
| `Friendship.RejectFreezesHalfFriendship` | server/logic_server/main.cc:222-226 | after a half-failed accept and a reject, in every continuation the request is never accepted again, and without a new request between the two the friendship stays one-sided |
| `Handlers.AcceptCanFinish` | server/logic_server/pool_db_client.cc:146-174 | in every run an accept without a failed insert can finish, with both rows and status 1 |
| `Handlers.SendCanBeStored` | server/logic_server/main.cc:84-99 | in every run a send between friends can be stored, as a row with its sender, addressee, content, time and the next id |
| `Handlers.RefusedIsNeverStored` | server/logic_server/main.cc:86-91 | nothing is ever stored for a send whose check failed |
| `Handlers.FailedSaveStoresNothing` | server/logic_server/pool_db_client.cc:40-46 | a failed insert stores nothing |
| `Handlers.RejectIsUnconditional` | server/logic_server/main.cc:222-226 | in every run a reject sets the status of any existing request, and changes nothing else |
| `Database.AcceptRun` | server/logic_server/pool_db_client.cc:146-174 | the four statements without interruption: which rows and which status each combination of faults leaves |
| `Database.PooledDbClient.AcceptFriendRequest` | server/logic_server/pool_db_client.cc:146-174 | reports success exactly when a pending request was found and both inserts went through, even if the status update failed; the tables change as the store's steps do |
| `Database.PooledDbClient.CreateFriendRequest` | server/logic_server/pool_db_client.cc:107-121 | appends a pending request and returns its id, or changes nothing |
| `Database.PooledDbClient.Reject` | server/logic_server/main.cc:223-224 | sets the status whatever it was, as the store's step does |
| `Database.PooledDbClient.SaveMessage` | server/logic_server/pool_db_client.cc:33-48 | appends the row under the next id, which is used up by a failure after it was drawn |
| `Database.LogicService.RespondFriendRequest` | server/logic_server/main.cc:212-228 | accepting replies what the accept reported; rejecting always replies success and sets the status without looking at it |
| `Database.LogicService.SendMsg` | server/logic_server/main.cc:84-137 | replies not-friend exactly when the check found no row, and otherwise success with the message id and time, whether or not the message was saved; a push packet goes to the gateway that Redis holds, saved or not; the tables change as the store's steps do |
| `Sync.GetOfflineMsgs` | server/logic_server/pool_db_client.cc:50-70 | returns at most a hundred messages, all addressed to the user: those of the result set in order, or nothing when the query fails |
| `Sync.Messages` | server/logic_server/pool_db_client.cc:58-67 | each message has the sender, addressee, content and time of its row |
| `Sync.PageRows` | server/logic_server/pool_db_client.cc:54-55 | a page holds the rows for the user up to its last id, in id order; at most a hundred, and all there are when fewer |
| `Sync.MatchingFromCursor` | server/logic_server/pool_db_client.cc:54-55 | moving the cursor to the id of the k-th result leaves exactly the results after it |
| `Sync.CollectedUnlessMissed` | server/logic_server/pool_db_client.cc:50-70 | for tables that only gain rows, a client that has caught up has exactly the rows for the user above the start that no cursor had passed before they were visible |
| `Sync.CollectedAscends` | server/logic_server/pool_db_client.cc:54-55 | whatever becomes visible between the calls, no row is returned twice, out of id order, or at or below the start |
| `Sync.PagingCompleteIff` | server/logic_server/pool_db_client.cc:50-70 | paging returns exactly the matching rows of the last table, in order, if and only if none of them was passed by a cursor before it was visible |
| `Sync.PagingIsComplete` | server/logic_server/pool_db_client.cc:50-70 | which holds whenever rows are appended in id order, although they are appended between the calls |
| `Sync.EachRowOnceInOrder` | server/logic_server/pool_db_client.cc:50-70 | that is every row for the user above the start, once, in id order, and nothing else |
| `Sync.PagingDuringRun` | server/logic_server/main.cc:138-149 | the exact condition for the tables a client meets during any run of the store |
| `Sync.AlwaysCompleteIff` | server/logic_server/pool_db_client.cc:33-48 | in every run, every client of a user has all messages when it has caught up, whenever it asks, exactly when no row for the user is stored after one with a larger id |
| `Sync.SerialInsertsAreComplete` | server/logic_server/pool_db_client.cc:33-48 | which holds in every run whose inserts do not overlap |
| `Sync.OverlappingInsertsLoseOne` | server/logic_server/pool_db_client.cc:33-48 | a run with two overlapping inserts in which the earlier message is lost to the client that asks in between |
| `Sync.LateSmallerIdIsLost` | server/logic_server/pool_db_client.cc:54-55 | a row with an id at or below the cursor is on no later page, whatever the tables are |
| `Sync.PagingCalls` | server/logic_server/pool_db_client.cc:54-55 | with n matching rows and no inserts the client has caught up after exactly floor(n / 100) + 1 calls |
| `Gateway.SessionManager.OnLogin` | server/gateway/main.cc:141-149 | an accepted login sets the socket's uid and the session, a refused one changes nothing |
| `Gateway.SessionManager.OnClose` | server/gateway/main.cc:277-280 | a close removes the session of the socket's own uid |
| `Gateway.SessionManager.PushToUser` | server/gateway/main.cc:38-46 | sends on the session's socket exactly when the user has one |
| `Gateway.FieldIsHistory` | server/gateway/main.cc:144 | the uid of an open socket is that of its latest accepted login, 0 without one |
| `Gateway.SessionsAreHistory` | server/gateway/main.cc:27-37 | after every history the map holds w for u exactly when the last event touching u is an accepted login of w as u, a close touching the closing socket's own uid |
| `Gateway.OpenIsHistory` | server/gateway/main.cc:277-280 | a socket has a uid exactly while it is connected and not closed |
| `Gateway.PossibleIff` | server/gateway/main.cc:117-149 | histories are those in which a socket connects once and logs in and closes only while open, at any time and with any outcome |
| `Gateway.StepExactIff` | server/gateway/main.cc:141-146 | an exact map stays exact in a step exactly when a login is as a nonzero user, no other than before, on no other open socket |
| `Gateway.AlwaysExactIff` | server/gateway/main.cc:21-50 | over every history the map is one-to-one the open logged-in sockets after every event exactly when every login was careful in that sense |
| `Gateway.PushReachesOwnSocket` | server/gateway/main.cc:38-46 | then a push goes to the user's own open socket, and fails only when the user has none |
| `Gateway.ChangingUidLeavesClosedSocket` | server/gateway/main.cc:144-145 | a socket that logs in as two users leaves a session on a closed socket |
| `Gateway.TwoSocketsLoseSession` | server/gateway/main.cc:277-280 | a user on two sockets loses the session when one of them closes |
| `Gateway.UserZeroLosesSession` | server/gateway/main.cc:277-280 | a session of user 0 is removed by the close of a socket that never logged in |
| `Chat.UidIsLatestLogin` | server/gateway/main.cc:134-146 | the nonzero uid kept with a socket is that of its latest login whose token was the nonempty password the user was made with |
| `Chat.UsersAreHistory` | server/logic_server/pool_db_client.cc:18-31 | in every run the stored password of a user is the one in the statement that made the user |
| `Chat.LoginTakenIff` | server/logic_server/main.cc:63-82 | in every run a login sets uid and session exactly when the socket is open, the query works and the token is the nonempty password the user was made with, and otherwise changes nothing |
| `Chat.OpenIsHistory` | server/gateway/main.cc:277-280 | in every run a socket is open exactly when it has connected and not disconnected since |
| `Chat.SendBegins` | server/gateway/main.cc:173-187 | in every run a message on an open, logged-in socket begins a send as the socket's user, and any other is dropped |
| `Chat.StatementRuns` | server/logic_server/pool_db_client.cc:146-174 | in every run a statement is the store's step and leaves the gateway alone |
| `Chat.JointRun` | server/gateway/main.cc:124-149 | every joint run is a run of the store and a possible history of the gateway |
| `Chat.UidIsHistory` | server/gateway/main.cc:134-146 | the uid kept with a socket is that of its latest successful login, 0 when there was none |
| `Chat.SyncIsOwn` | server/gateway/main.cc:213-243 | the reply to a sync holds, field by field and in id order, the first hundred rows above the id asked for that are addressed to the user of the latest successful login on the socket, or to user 0 without one |
| `Chat.SyncedMessageProvenance` | server/logic_server/main.cc:138-149 | every message a sync returns was sent by its sender to its addressee with that content, the two are friends, and its addressee is the user of the latest successful login on the socket |
| `Chat.StoredMessageProvenance` | server/gateway/main.cc:173-187 | in every run each stored message is between friends from then on, and through the gateway its sender is the user of the latest successful login on the sending socket, with the password that user was made with, with the content and addressee that were sent |
| `Framing.EncodeHeader` | server/gateway/packet.h:17-27 | writes the header in network order into the first 12 bytes of the buffer and nothing else |
| `Framing.WireOrder` | server/gateway/packet.h:17-27 | the bytes are length, version, command id and sequence number, each with its highest byte first |
| `Framing.DecodeUndoesEncode` | server/gateway/packet.h:28-35 | decoding gives back every header, whatever follows it |
| `Framing.EncodeUndoesDecode` | server/gateway/packet.h:28-35 | encoding gives back every 12 bytes |
| `Framing.BuildResponse` | server/gateway/main.cc:150-164 | a response is a packet with the request's version and sequence number, the next command id and the length of header and body |
| `Framing.AnsweredCommands` | server/gateway/main.cc:134-272 | login, send, sync and upload are answered with the next command id, and nothing else is |
| `Framing.LengthIsSize` | server/gateway/main.cc:153-164 | the length field of every packet is its size modulo 2^32, and its body follows the 12 bytes |
| `Framing.PackPushMsg` | server/logic_server/main.cc:31-57 | a push is a packet of version 1, command 0x1005 and sequence number 0 |
| `Framing.StreamIsReadableIff` | server/gateway/packet.h:19-37 | a stream of packets is cut by its length fields into exactly its headers and bodies if and only if every packet is under 2^32 bytes |
| `Framing.JoinUndoesRead` | server/gateway/packet.h:28-35 | every stream that can be read is the concatenation of the packets read from it |
| `Framing.JoinInjective` | readme.md:56-66 | no two lists of packets that fit give the same bytes |
| `Framing.LengthTest` | server/gateway/main.cc:175-176 | the length test, although its unsigned subtraction may wrap, accepts exactly messages at least as long as declared |
| `Framing.MessageHoldsOnePacket` | server/gateway/main.cc:213-216 | a packet is parsed as sent, and whatever else the message holds is taken as part of its body |
| `Text.FindFrom` | server/logic_server/s3_client.h:22-34 | the first occurrence not before a position, or none |
| `Text.LastIndex` | server/logic_server/s3_client.h:53 | the last occurrence of a character, or none |
| `Text.StoiUndoesToString` | server/logic_server/s3_client.h:56 | stoi gives back every int that to_string printed |
| `Text.StoiReads` | server/logic_server/s3_client.h:56 | white space, a sign of either kind, digits and junk: what stoi makes of every text, and its exceptions |
| `Text.CharacterClasses` | server/logic_server/s3_client.h:56 | which characters are digits and white space |
| `Text.ToStringIff` | server/logic_server/s3_client.h:147-149 | to_string prints the one text of the number without superfluous characters |
| `Text.ToStringIsShortest` | server/logic_server/s3_client.h:147-149 | which is the shortest that stoi reads back, and no other is as short |
| `Endpoints.ParseByParts` | server/logic_server/s3_client.h:38-62 | what each part of an endpoint text becomes: path dropped, port after the last colon through stoi and its exceptions, default port without a colon |
| `Endpoints.ParseWithoutScheme` | server/logic_server/s3_client.h:38-62 | the same for a text without a scheme, under the default one |
| `Endpoints.ParseHostOnly` | server/logic_server/s3_client.h:38-62 | a text with neither gets both defaults |
| `Endpoints.BaseUrlIsShortest` | server/logic_server/s3_client.h:147-149 | the base URL is the shortest text with scheme, host and port that parses to the endpoint: nothing follows the port, and the port has no superfluous character |
| `Endpoints.ShippedEndpoint` | config.yaml:25 | the configured endpoint is printed and parsed as it stands |
| `Endpoints.ParseUndoesBaseUrl` | server/logic_server/s3_client.h:147-149 | a printed endpoint parses back exactly when its scheme is free of "://" |
| `Endpoints.NormalForm` | server/logic_server/s3_client.h:38-62 | for every text that does not throw, printing and parsing again gives the same triple exactly when the text had a scheme or the default scheme is free of "://" |
| `Endpoints.NormalFormHttp` | server/logic_server/s3_client.h:71-72 | with the default scheme the program uses it always does |
| `Json.ExtractUndoesPrint` | server/logic_server/s3_client.h:20-36 | extraction from a printed flat object returns the first string field of that key, else the first unquoted one, else nothing, wherever it stands and whatever the other values hold |
| `Json.EveryFieldIsRead` | server/logic_server/s3_client.h:20-36 | with distinct keys every field is read back |
| `Json.ExtractionIsRightIff` | server/logic_server/s3_client.h:20-36 | extraction by a key is right on every such object exactly when the key is none of the texts that can stand between two strings |
| `Json.UnsearchableMisleads` | server/logic_server/s3_client.h:20-36 | for every other key an object on which it is wrong |
| `Json.ExtractString` | server/logic_server/s3_client.h:22-34 | in any text, the string after the first quoted key and colon is read to the next quote or the end |
| `Json.ExtractOther` | server/logic_server/s3_client.h:22-31 | in any text without a string after that key, what follows it is read to the next comma, brace or the end |
| `Json.ExtractNothing` | server/logic_server/s3_client.h:22-27 | a text without the key gives nothing |
| `Upload.ObjectKeyInjective` | server/logic_server/main.cc:180 | object keys determine user, time and file name |
| `Upload.ObjectKeyReads` | server/logic_server/main.cc:180 | cutting at the first slash and the first underscore after it gives back user, time and file name |
| `Upload.PrintedLinks` | server/logic_server/s3_client.h:108-114 | keys and links as they are printed, with and without access keys |
| `Upload.FidIsRead` | server/logic_server/s3_client.h:97-101 | the fid is read from every answer that is a flat object with distinct keys and a string field "fid" |
| `Upload.S3Client.GetPresignedPutUrl` | server/logic_server/s3_client.h:87-118 | records the assigned fid under the object and returns its upload URL; with no answer, or one without a fid, it changes nothing and returns nothing |
| `Upload.S3Client.GetDownloadUrl` | server/logic_server/s3_client.h:120-136 | returns the download URL of the recorded fid, nothing without one |
| `Upload.RepliesAgree` | server/logic_server/main.cc:177-193 | in every interleaving of requests with distinct user, time and file name, a reply with an upload URL succeeds, links one fid, and its download URL is the front of its upload URL |
| `Upload.FidsAreHistory` | server/logic_server/s3_client.h:103-106 | after every history the map holds, under a request's key, the fid assigned last to a request of that user, time and file name |
| `Upload.LinkAgreesIff` | server/logic_server/s3_client.h:120-136 | a reply links one fid exactly when the map still holds the fid of its upload link |
| `Upload.RepliesAgreeIff` | server/logic_server/main.cc:177-193 | in every history each reply with an upload URL succeeds, and its two links are of one fid exactly when the last fid assigned to its user, time and file name before the reply was its own |
| `Upload.RequestCanFinish` | server/logic_server/main.cc:177-193 | in every history a request can be made and answered, and which reply and entry it gets |
| `Upload.RequestGoesOn` | server/logic_server/main.cc:177-193 | the steps of one request do not wait for another |
| `Upload.SucceedsIff` | server/logic_server/main.cc:184-193 | in every history a request succeeds exactly when the master's answer to it held a fid |
| `Upload.NoFidFails` | server/logic_server/s3_client.h:92-101 | a request answered with nothing, or with an object without a fid, gets no upload URL and an error |
| `Upload.NoFidNoEntry` | server/logic_server/s3_client.h:92-105 | a triple whose answers were all of that kind has no entry |
| `Upload.LinkedIsHistory` | server/logic_server/s3_client.h:120-136 | in every history the download link of a triple is that of the fid assigned to it last, and empty while none was |
| `Upload.SameTripleMixesFids` | server/logic_server/main.cc:177-193 | two overlapping requests of one triple with different fids give a reply whose two links differ |

## Left out

- Sockets, HTTP, gRPC, uWebSockets, libpq, hiredis and protobuf: bodies are byte sequences, and a failing call is an event. SQL text and its concatenation: each statement is the table operation it names, and a failed statement has no effect.
- The counter of the pool counts up without a 64-bit limit, because reaching it takes 2^64 connections at once; decrements do wrap around in the model.
- Time in `Acquire`: a timeout may come at any moment a thread waits. The destruction of a pool with guards or calls outstanding.
- `PoolOwnership.ReuseInReleaseOrder`: an idle handle is one that entered the queue, by Release or from the constructor.
- Delivery of pushes: Login writes another Redis key than SendMsg reads, so what Redis holds for the addressee is an input of SendMsg, and whether the gateway takes the packet is not modelled.
- `Sync.PagingCompleteIff`: every query succeeds. A failed one gives an empty reply that looks like a short page (`Sync.GetOfflineMsgs`).
- `Chat.StoredMessageProvenance`: the password lookup and the gateway's change of its own state are one step; stored passwords never change, so statements in between would not matter. One gateway is modelled; sends that reach the logic server another way are in the run but have no socket.
- `Json.ExtractUndoesPrint`: objects are printed without escapes, so keys and strings hold no quotes; nested objects and arrays are left out.
- The login arm of the dispatcher, which parses the declared number of bytes: the declared length is taken to be the message's. Message sizes over the gateway's payload limit are not excluded.
- User registration and the HTTP endpoints, listing of friends and of pending requests, group messages, connectivity checks, configuration and logging: no protocol of their own.
