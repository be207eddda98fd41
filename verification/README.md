# Protocols of the API template, modelled and proved in Dafny

This project models the stateful protocols of the API template and proves what they guarantee over
whole runs. `dafny verify dfyconfig.toml` checks everything.

Every protocol is a state, an event type and a step function; a run is the fold of the step over
any sequence of events (`Runs`), so a lemma about all sequences is a lemma about every reachable
state. Code that works on fields is also written as a class whose methods are proved to perform
exactly the steps of that state machine. Redis, RabbitMQ, the client pool and the database appear
as sets, maps and sequences.

Failures are part of the event, so the theorems cover failing paths: in `RedisStreams`, `StreamMessages`,
`RedisPubSub`, `Locks` and `Sockets` a store call throws before or after it was applied; in `RabbitMQ` callbacks
throw; in `DynamicQueue`, `RedisPool` and `QueueActivity` borrowing, locking, building, closing and returning
fail; in `Users` and its companions a request throws after any number of its writes; in `EmailQuota` counting,
submitting and logging fail, the last two also after the fact. The remaining modules are computations.

| module | subject |
|---|---|
| `RedisStreams`, `StreamMessages` | the consumer-group reader, its concurrency bound and acknowledgements; wire form and retries of messages |
| `RabbitMQ` | batched cumulative acknowledgements of one channel |
| `RedisPubSub` | de-duplication of published messages by SET NX |
| `Locks` | the cron scheduler's and the socket handlers' use of the shared lock hash |
| `DynamicQueue`, `RedisPool`, `QueueActivity` | queues, workers and pooled connections with their monitors; the idle sweep and the board |
| `Users`, `Accounts`, `AccountChanges`, `RefreshTokens`, `TokenRaces`, `UserServices` | accounts, passwords and refresh tokens |
| `Sockets` | one live channel per character |
| `PrismaWhere`, `SensitiveData`, `QueryString`, `Compose` | query translation, response filter, query strings, the compose-file builder |
| `EmailQuota`, `OrderStatistics` | provider choice under a daily quota; median and weighted mean |
| `Runs`, `Options`, `Entries`, `Text` | shared vocabulary |

Unless a module says otherwise, each request, message handler or timer tick is one atomic step.
`RedisStreams`, `Locks` and `TokenRaces` split them, and hold for any interleaving of the parts.

## Where the code does less than it seems to

The model follows the code. In these places a reader might expect more; lemmas show it and say exactly
when the expected property does hold.

- A token rotation stores the new token and then overwrites it with a list computed from the user
  as read before: the returned refresh token does not verify (`RefreshTokens.RotationRemovesExactlyThePresented`).
- A logout during a rotation or a login is undone by the request's later write
  (`TokenRaces.RotationUndoesALogout`, `TokenRaces.LoginUndoesALogout`, `TokenRaces.RevocationHoldsIffLive`).
- A password reset revokes no token and looks the email up as given (`Accounts.ResetPasswordIsTheOnlyOne`,
  `Accounts.ResetNeedsTheStoredSpelling`); OAuth emails are not lower-cased, so two accounts can
  differ in case only (`Accounts.EmailsClashUpToCase`, `Accounts.DistinctUpToCaseIff`).
- A reset writes the password in the clear first; if it throws before the second write it stays so, and the
  user is locked out (`Accounts.PasswordsStayHashedIff`, `Accounts.InTheClearLocksOut`).
- A socket handler whose lock was refused still releases it (`Locks.SocketGuardBreaks`,
  `Locks.ExclusiveThroughoutIff`, `Locks.BecomesExposedIff`).
- A cron job whose lock was set with its reply lost, or whose release failed, never runs again
  (`Locks.KeyOutlivesItsTaskIff`, `Locks.OrphanedForEver`).
- A published message whose first subscriber loses the reply of its pipeline is handled by nobody, unless
  another delivery of it is processed after the key has expired (`RedisPubSub.OneLifetime`).
- A RabbitMQ callback that throws after its delivery was acknowledged closes the channel, and so does
  a timer that acknowledges a rejected delivery (`RabbitMQ.ChannelSurvives`); the delivery that fills a
  batch is acknowledged before it is processed (`RabbitMQ.BatchFillingDeliveryCannotFail`).
- A queue whose cleanup throws stays in the map, unwatched for ever, on a client that went back to
  the pool (`DynamicQueue.QueueOnReturnedClientIffClosingThrew`, `DynamicQueue.UnwatchedForEver`), so that
  two queues can come to share a client (`DynamicQueue.ClientsStayDistinctIff`, `DynamicQueue.SharedClientIsStale`).
- A first job whose monitor or worker could not be set up leaves a queue that later jobs are added to
  without one (`DynamicQueue.NewQueueSetUpIff`).
- The comment in the stream writer says that a success ends the retries; it does not, and a lost reply
  is retried too, so up to ten copies are stored (`StreamMessages.FailedWriteBounds`, `StreamMessages.StoredOnceIff`).
- A stream entry delivered by a read whose reply is lost is never processed, like one whose callback threw
  (`RedisStreams.NothingLostIff`, `RedisStreams.ThrownEntryStaysPending`).
- The e-mail day start is the local date read as UTC; while that is ahead of the clock nothing is
  counted (`EmailQuota.DayStartAheadIff`), and an e-mail whose log could not be written is never counted
  (`EmailQuota.UnloggedAreNeverCounted`); `EmailQuota.SentExceedsCreditsIff` says what a day then exceeds.
- A login's token can be lost to a request that had read the user before (`TokenRaces.StaysStoredIff`).
- A socket whose leaving throws is not displaced, and a throw at the wrong place strands a session
  (`Sockets.TrackedThroughoutIff`, `Sockets.ExactThroughoutIff`).
- A dependency named like an inherited property counts as present (`Compose.DependenciesAreBuiltIff`), and a
  field or key `__proto__` does not come back (`StreamMessages.RoundTripIff`, `QueryString.RoundTripIff`).
- A depends_on list is lost when a module adds dependencies to its service (`Compose.ExtendingAListLosesIt`).
- A percent sign between two other characters makes a filter lose the record it names
  (`PrismaWhere.MatchSurvivesIffPercentsOutside`).
- The response filter turns nested arrays into objects (`SensitiveData.NestedArraysBecomeObjects`).

## Model

| member | source | states |
|---|---|---|
| `RedisStreams.EveryRunKeepsInv` | src/providers/redis/RedisStreams.ts:237-313 | In every interleaving of reads, callback starts, callback ends and xack calls, over any number of batches, where a read or an xack may fail before or after Redis applied it: at most 8 callbacks in flight; every delivered entry but those of a read whose reply was lost is started once, in stream order; it is in flight, ended or thrown, never two of these; ended entries are acknowledged, about to be, or refused by a failed xack; delivered entries split into acknowledged and pending |
| `RedisStreams.DeliveryGuarantees` | src/providers/redis/RedisStreams.ts:242-302 | The bound of 8 and the split hold in every run; between batches the acknowledged entries are those that ended normally less the refused ones, the pending ones are the thrown, the refused and the unread ones, and they are the thrown ones if and only if nothing was refused or left unread |
| `RedisStreams.OutcomesComeFromEvents` | src/providers/redis/RedisStreams.ts:274-291 | An entry counts as ended, thrown or refused only if an event of the run said so |
| `RedisStreams.AcknowledgedEndedNormally` | src/providers/redis/RedisStreams.ts:276-300 | Only entries whose callback ended normally are ever acknowledged |
| `RedisStreams.NothingLostIff` | src/providers/redis/RedisStreams.ts:248-301 | Between batches acknowledged means ended normally and pending means thrown, exactly, if and only if no read with entries lost its reply and no xack of a non-empty batch failed unapplied in the whole run |
| `RedisStreams.SuccessfulXackCoversTheBatch` | src/providers/redis/RedisStreams.ts:299-301 | After any run, an xack that succeeds leaves every entry that ended normally acknowledged but those refused before |
| `RedisStreams.ThrownEntryStaysPending` | src/providers/redis/RedisStreams.ts:248-281 | In every continuation an entry whose callback threw, or whose read lost its reply, stays pending and is never processed again: the group reads new entries only |
| `RedisStreams.StreamReader.XReadGroup` | src/providers/redis/RedisStreams.ts:248-259 | A read takes the next 100 new entries at most and makes them pending; when its reply is lost they are pending without a batch |
| `RedisStreams.StreamReader.StartCallback` | src/providers/redis/RedisStreams.ts:269-293 | Starting a callback is the launch step, allowed below the bound only |
| `RedisStreams.StreamReader.CallbackEnds` | src/providers/redis/RedisStreams.ts:275-289 | The end of a callback takes it out of the in-flight list and records its id if it did not throw |
| `RedisStreams.StreamReader.XAck` | src/providers/redis/RedisStreams.ts:299-301 | The acknowledgement is the xack step, under each of its three outcomes |
| `RedisStreams.StreamReader.Await` | src/providers/redis/RedisStreams.ts:270-272 | Waiting lets any callbacks end in any order and keeps the invariant; at least the awaited number has ended |
| `RedisStreams.StreamReader.ProcessMessages` | src/providers/redis/RedisStreams.ts:266-297 | The loop over a batch is a run of the state machine and ends with nothing left to start or in flight |
| `RedisStreams.StreamReader.ReadFromStream` | src/providers/redis/RedisStreams.ts:242-312 | One turn of the reading loop is a run of the state machine, whatever the callbacks do in between and however the read and the xack end; it keeps the invariant and delivers exactly the entries read |
| `RedisStreams.ReadDelivers` | src/providers/redis/RedisStreams.ts:248-259 | Between batches a read that reaches Redis delivers the next entries, as many as there are and 100 at most, and touches nothing else |
| `RedisStreams.LaunchesIff` | src/providers/redis/RedisStreams.ts:269-293 | The next callback is started if and only if there is one and fewer than eight are in flight |
| `RedisStreams.SettlesOnce` | src/providers/redis/RedisStreams.ts:275-289 | The end of a callback takes it out of flight and counts it one way or the other |
| `RedisStreams.XackEndsTheBatch` | src/providers/redis/RedisStreams.ts:297-301 | A batch ends with its acknowledgement, once nothing is left to start or in flight, and not before |
| `StreamMessages.RoundTripIff` | src/providers/redis/RedisStreams.ts:431-452 | Decoding the encoded fields gives a message back if and only if it has no field named __proto__, for any enumeration order of its distinct keys, when JSON parsing undoes printing |
| `StreamMessages.PrefixOfSerialized` | src/providers/redis/RedisStreams.ts:431-452 | The first n field pairs decode to the first n entries |
| `StreamMessages.DeserializeMessage` | src/providers/redis/RedisStreams.ts:440-452 | The loop decodes pair by pair, keeps an unparsable value as its text, and lets a later pair of the same key win |
| `StreamMessages.RetryOperation` | src/providers/redis/RedisStreams.ts:215-230 | A retry resolves if and only if one of its tries is answered; it makes at most maxRetries writes, of which each is stored that was applied, whether its reply came back or not |
| `StreamMessages.AddToStream` | src/providers/redis/RedisStreams.ts:187-213 | An add issues at most 1 + maxRetries squared writes and stores no more copies than that; while no reply is lost it stores as many copies as retries succeed, at most maxRetries |
| `StreamMessages.MadeBounded` | src/providers/redis/RedisStreams.ts:215-230 | A retry at attempt n makes at most maxRetries - n more writes |
| `StreamMessages.FailedWriteBounds` | src/providers/redis/RedisStreams.ts:193-213 | The bounds on writes and copies for every maxRetries, and that lost replies alone make every one of the 1 + maxRetries squared writes a copy |
| `StreamMessages.CopiesAreSuccesses` | src/providers/redis/RedisStreams.ts:196-211 | While no reply is lost one copy is stored for every retry that succeeds; a success does not end the loop |
| `StreamMessages.StoredOnceIff` | src/providers/redis/RedisStreams.ts:187-213 | With any failures and lost replies, the message is stored exactly once if and only if its first write is answered, or is applied and every retry fails, or fails and one retry stores one copy while all others fail |
| `StreamMessages.DecodedFields` | src/providers/redis/RedisStreams.ts:440-452 | Any fields decode each key but __proto__ to the value of its last pair: the parsed text, or the text itself when it does not parse |
| `StreamMessages.DecodedKeysAreFields` | src/providers/redis/RedisStreams.ts:440-452 | Any fields decode to no key that is not among them, and never to __proto__ |
| `RabbitMQ.EveryRunKeepsInv` | src/providers/rabbitmq/RabbitMQ.ts:196-224 | While the channel is open, with or without throwing callbacks: the buffer holds the newest deliveries in tag order, fewer than ten; all older ones not rejected are acknowledged once and in order; the broker holds the buffered ones not rejected; the timer is armed exactly when the buffer is non-empty |
| `RabbitMQ.NoThrowGuarantees` | src/providers/rabbitmq/RabbitMQ.ts:198-205 | In runs where no callback throws: the channel stays open, acknowledged plus buffered tags are all tags once each in order, the buffer is exactly the unsettled deliveries, below ten, and the timer is armed exactly when it is non-empty |
| `RabbitMQ.EveryTagInOnePlace` | src/providers/rabbitmq/RabbitMQ.ts:198-222 | With or without throws, while the channel is open each delivered tag is acknowledged once, rejected, or unsettled, and only one of these |
| `RabbitMQ.ChannelSurvives` | src/providers/rabbitmq/RabbitMQ.ts:212-220 | The broker keeps the channel open if and only if every throw found its delivery still buffered and no timer found the newest buffered delivery rejected |
| `RabbitMQ.OpenExactlyWhenSurvivable` | src/providers/rabbitmq/RabbitMQ.ts:198-253 | The same equivalence from any state that satisfies the invariant |
| `RabbitMQ.FlushOutcome` | src/providers/rabbitmq/RabbitMQ.ts:243-253 | A flush closes the channel exactly when the newest buffered delivery has been rejected; otherwise it settles everything the broker holds and empties the buffer |
| `RabbitMQ.DeliverKeeps` | src/providers/rabbitmq/RabbitMQ.ts:198-205 | A delivery never closes the channel, whatever was rejected before it |
| `RabbitMQ.DeliveryAcksOnlyAFullBatch` | src/providers/rabbitmq/RabbitMQ.ts:200-205 | A delivery acknowledges nothing below the batch size, and at it everything not rejected |
| `RabbitMQ.ThrowOutcome` | src/providers/rabbitmq/RabbitMQ.ts:212-217 | A throwing callback closes the channel exactly when its delivery is no longer buffered |
| `RabbitMQ.TimerKeeps` | src/providers/rabbitmq/RabbitMQ.ts:203-205 | The timer closes the channel exactly when the newest buffered delivery has been rejected |
| `RabbitMQ.BatchFillingDeliveryCannotFail` | src/providers/rabbitmq/RabbitMQ.ts:200-217 | The delivery that fills a batch is acknowledged before its callback is called, so its failure closes the channel |
| `RabbitMQ.Channel.Send` | src/providers/rabbitmq/RabbitMQ.ts:196-199 | A delivery gets the next tag and is held |
| `RabbitMQ.Channel.Ack` | src/providers/rabbitmq/RabbitMQ.ts:246 | basic.ack with multiple (AMQP 0-9-1, section 1.8.3.13): settles all held tags up to the given one; an unknown tag closes the channel |
| `RabbitMQ.Channel.Nack` | src/providers/rabbitmq/RabbitMQ.ts:216 | basic.nack of one tag without requeue; an unknown tag closes the channel |
| `RabbitMQ.Consumer.Flush` | src/providers/rabbitmq/RabbitMQ.ts:243-253 | flushAcks is the flush of the state machine |
| `RabbitMQ.Consumer.OnMessage` | src/providers/rabbitmq/RabbitMQ.ts:198-205 | The handler up to the callback is the delivery step and keeps the invariant |
| `RabbitMQ.Consumer.OnTimer` | src/providers/rabbitmq/RabbitMQ.ts:204 | The timer is the timer step |
| `RabbitMQ.Consumer.OnCallbackEnd` | src/providers/rabbitmq/RabbitMQ.ts:208-221 | The rest of the handler is the end-of-callback step; on a channel closed meanwhile it rejects nothing |
| `RabbitMQ.TimerSettlesEverything` | src/providers/rabbitmq/RabbitMQ.ts:204 | A timer that finds its newest buffered delivery not rejected leaves the channel open, every delivery so far acknowledged or rejected, and nothing held, buffered or armed |
| `RabbitMQ.NothingWaitsAfterTheTimer` | src/providers/rabbitmq/RabbitMQ.ts:243-253 | At the end of any run that a timer ends with the channel open, a tag is acknowledged if and only if it was delivered and not rejected, and none waits |
| `RabbitMQ.DeliveryIsCounted` | src/providers/rabbitmq/RabbitMQ.ts:198-200 | A delivery takes the next tag and neither ends nor rejects anything |
| `RabbitMQ.EndsTouchOnlyTheirDelivery` | src/providers/rabbitmq/RabbitMQ.ts:208-217 | The end of a callback settles nothing; a throw of a buffered one rejects exactly its own delivery |
| `RedisPubSub.OneLifetime` | src/providers/redis/RedisPubSub.ts:36-50 | For any subscribers, order, other traffic and throwing pipelines: while all processing of a message falls within the key lifetime of the first, there is never a second call, and there is one if and only if the reply to the first came back |
| `RedisPubSub.ExactlyOneCall` | src/providers/redis/RedisPubSub.ts:36-50 | When no reply is lost, exactly one callback is called for a message if and only if it was processed and all processing falls within the key lifetime of the first |
| `RedisPubSub.CalledIffProcessed` | src/providers/redis/RedisPubSub.ts:41-48 | When no reply is lost, a callback is called for a message if and only if some delivery of it was processed |
| `RedisPubSub.CallsDependOnOwnTries` | src/providers/redis/RedisPubSub.ts:38-48 | In every run there is one call for each processing of the message that found its key gone and was answered; other messages have no influence |
| `RedisPubSub.OnlyTheFirstIff` | src/providers/redis/RedisPubSub.ts:42 | Only the first processing finds the key gone if and only if all are within a lifetime of it |
| `RedisPubSub.AdmittedNone` | src/providers/redis/RedisPubSub.ts:42 | Once set, a key refuses all later deliveries exactly while the last is within its lifetime |
| `RedisPubSub.PubSub.SetNx` | src/providers/redis/RedisPubSub.ts:41-45 | SET NX succeeds exactly when the key is absent or expired, and a throw hides the answer |
| `RedisPubSub.PubSub.OnMessage` | src/providers/redis/RedisPubSub.ts:36-50 | The handler is the processing step |
| `RedisPubSub.CallersProcessedTheMessage` | src/providers/redis/RedisPubSub.ts:45-48 | Every call is of a subscriber whose own processing of that message was answered |
| `RedisPubSub.KeysAndClock` | src/providers/redis/RedisPubSub.ts:42 | A key lives for 60000 ms; a processing that reaches Redis leaves its key set and touches no other |
| `Locks.UniqueScheduleIsUnique` | src/providers/cronjobs/CronJobScheduler.ts:13-29 | With any number of instances, in any interleaving, whatever lock and unlock calls throw, and whatever the socket handlers do in the same hash: at most one task of a cron id runs, and its key is locked while it runs |
| `Locks.CronStepKeeps` | src/providers/cronjobs/CronJobScheduler.ts:14-28 | Each tick, refusal, throw and release keeps it |
| `Locks.KeyOutlivesItsTaskIff` | src/providers/cronjobs/CronJobScheduler.ts:15-27 | The key is locked without a running task if and only if, in the run, the reply to a granted lock was lost or a release did not reach the hash; otherwise it is locked exactly while the task runs |
| `Locks.OrphanedForEver` | src/providers/cronjobs/CronJobScheduler.ts:15-19 | Once that has happened no instance ever runs the task again |
| `Locks.FinishedTaskFreesItsKey` | src/providers/cronjobs/CronJobScheduler.ts:21-27 | A task whose release reaches the hash frees its key whether it ended or threw, and the next tick of any instance runs |
| `Locks.KeysApart` | src/providers/cronjobs/CronJobScheduler.ts:15 | Cron keys are distinct for distinct ids and never equal to a socket lock |
| `Locks.SocketGuardBreaks` | src/providers/sockets/SocketAuth.ts:22-33 | Any three deliveries under one key break the socket guard: the second is refused, its finally opens the lock, the third runs beside the first |
| `Locks.ExclusiveThroughoutIff` | src/providers/sockets/SocketAuthLock.ts:22-33 | Over any run, two invocations never run under one key if and only if no delivery is given the lock while the key is free and its holder runs |
| `Locks.BecomesExposedIff` | src/providers/sockets/SocketAuth.ts:24-31 | A key comes to be free under its holder exactly when another invocation of it reaches its finally and the release is applied |
| `Locks.ExclusiveWithoutRefusals` | src/providers/sockets/SocketAuthLock.ts:22-33 | In particular a run in which every delivery of a key is given its lock keeps the key exclusive |
| `Locks.Locker.Lock` | src/providers/locks/Locker.ts:10-19 | Atomic set-if-absent; the answer says whether it was absent, and a throw hides it |
| `Locks.Locker.Unlock` | src/providers/locks/Locker.ts:26-28 | Removes the key, whoever holds it, unless the call throws before it is applied |
| `Locks.Instances.UniqueScheduleTick` | src/providers/cronjobs/CronJobScheduler.ts:14-19 | A tick is the firing step of the scheduler; nothing follows a refusal or a throw |
| `Locks.Instances.SocketDelivery` | src/providers/sockets/SocketAuth.ts:22-27 | A socket event is the firing step of the socket discipline; a refused or throwing one goes on to its finally |
| `Locks.Instances.Finally` | src/providers/sockets/SocketAuth.ts:30-32 | The finally block releases the key in all cases |
| `Locks.FiresIff` | src/providers/cronjobs/CronJobScheduler.ts:14-19 | A tick or delivery runs if and only if its lock was free and the call answered; a refused or throwing tick leaves nothing behind, a refused or throwing socket delivery has its release to come |
| `Locks.FinishReleases` | src/providers/sockets/SocketAuth.ts:30-32 | Whoever finishes releases their own key, if the call reaches the hash, and no other |
| `Locks.OtherInvocationsStay` | src/providers/cronjobs/CronJobScheduler.ts:14-28 | No event touches another invocation |
| `Locks.ThrowingDeliveryFreesTheKey` | src/providers/sockets/SocketAuthLock.ts:22-33 | A socket delivery whose lock call throws frees the key in the end, whoever holds it |
| `Locks.KeysAre` | src/providers/sockets/SocketAuth.ts:24 | The key of each discipline, by its prefix, event and id |
| `DynamicQueue.EveryRunKeepsInv` | src/providers/queue/DynamicQueue.ts:53-94 | In every run of addJob calls and monitor ticks, whatever throws: one client per name; borrowed clients are connections or failed returns; workers and monitors belong to queues; a monitor watches its name's own client; a queue not left behind by a failed cleanup runs on its name's client |
| `DynamicQueue.AllocatorGuarantees` | src/providers/queue/DynamicQueueCleaner.ts:20-117 | The same in the maps' terms: borrowed = the values of queueConnections plus the clients whose return threw, disjoint, one per name |
| `DynamicQueue.BorrowedAreTheConnections` | src/providers/queue/DynamicQueueCleaner.ts:83-116 | Even when closing a worker or queue throws, while returning a client does not, the borrowed clients are exactly the values of queueConnections |
| `DynamicQueue.NewQueueSetUpIff` | src/providers/queue/DynamicQueue.ts:191-231 | A first job that got a client borrows it and leaves a queue on it; it has a worker if and only if the lock calls went well and making the worker did not throw, a monitor if and only if the lock was given; nothing else changes, and later jobs do not make up for what is missing |
| `DynamicQueue.CleanShutdownRemovesTheName` | src/providers/queue/DynamicQueueCleaner.ts:83-116 | A failure-free cleanup leaves the name in none of the maps, returns its client, and touches no other queue |
| `DynamicQueue.QueueOnReturnedClientIffClosingThrew` | src/providers/queue/DynamicQueueCleaner.ts:106-116 | A shutdown leaves a queue on a client that went back to the pool if and only if closing threw and the return did not |
| `DynamicQueue.ClientsStayDistinctIff` | src/providers/queue/DynamicQueueCleaner.ts:76-116 | Over any run, no two queues run on one client at any point if and only if no job for a name without a queue is given a client that some queue still runs on |
| `DynamicQueue.SharedClientIsStale` | src/providers/queue/DynamicQueueCleaner.ts:106-116 | Over any run, the queue a new one shares its client with is one left behind by a cleanup that threw |
| `DynamicQueue.NoStaleNoSharing` | src/providers/queue/DynamicQueueCleaner.ts:83-116 | A run in which no cleanup leaves a queue behind keeps all queues on distinct clients |
| `DynamicQueue.TwoQueuesOnOneClient` | src/providers/queue/DynamicQueueCleaner.ts:106-116 | A three-step run in which two names' queues use one client |
| `DynamicQueue.UnwatchedForEver` | src/providers/queue/DynamicQueueCleaner.ts:27-65 | A queue without a monitor is never given one: it stays, and a client held for it is never returned |
| `DynamicQueue.Allocator.GetQueueConnection` | src/providers/queue/DynamicQueue.ts:198-202 | Borrows a client for a new name; fails with nothing changed when it cannot |
| `DynamicQueue.Allocator.MonitorQueue` | src/providers/queue/DynamicQueueCleaner.ts:27-73 | Starts a monitor unless the lock is refused or throws |
| `DynamicQueue.Allocator.InitOrFetchQueue` | src/providers/queue/DynamicQueue.ts:213-230 | Sets up queue, monitor and worker in that order, stopping at the first throw; an existing queue is returned as it is |
| `DynamicQueue.Allocator.Add` | src/providers/queue/DynamicQueue.ts:64-93 | addJob is the job step; it succeeds only with a queue for the name |
| `DynamicQueue.Allocator.PerformResourceCleanup` | src/providers/queue/DynamicQueueCleaner.ts:83-116 | Closes worker then queue, stops at a throw, and in every case returns the client and drops the connection |
| `DynamicQueue.Allocator.MonitorTick` | src/providers/queue/DynamicQueueCleaner.ts:37-65 | A tick is the monitor step: nothing, stop on a thrown check, or cleanup and stop |
| `DynamicQueue.OtherNamesStay` | src/providers/queue/DynamicQueue.ts:191-231 | A job or a tick touches no queue, worker, connection, monitor or mark of any other name |
| `DynamicQueue.ActiveTickChangesNothing` | src/providers/queue/DynamicQueueCleaner.ts:37-56 | A tick that finds the queue active, or of a name without a monitor, changes nothing |
| `DynamicQueue.ThrownCheckEndsTheMonitor` | src/providers/queue/DynamicQueueCleaner.ts:58-64 | A tick whose check throws ends the monitor and nothing else |
| `DynamicQueue.ShutdownOutcome` | src/providers/queue/DynamicQueueCleaner.ts:83-116 | After a shutdown, however it went: monitor and connection are gone; exactly when worker, queue and client are left |
| `DynamicQueue.MonitorStaysIff` | src/providers/queue/DynamicQueueCleaner.ts:37-65 | Over any run a monitor stays until a tick of its own name shuts the queue down or throws |
| `DynamicQueue.JobBorrows` | src/providers/queue/DynamicQueue.ts:198-202 | A job borrows at most one client, for a name without a connection, and changes nothing when it gets none |
| `DynamicQueue.JobForAKnownName` | src/providers/queue/DynamicQueue.ts:213-230 | A job for a name that has its queue leaves queue, worker and monitor as they are |
| `RedisPool.Pool.GetPoolClient` | src/providers/database/RedisManager/RedisIOClient.ts:66-81 | Lends a free client; when naming it fails it is handed back before the error |
| `RedisPool.Pool.ReleasePoolClient` | src/providers/database/RedisManager/RedisIOClient.ts:90-94 | Takes back a borrowed client and leaves another alone |
| `QueueActivity.TableHoldsTheActive` | src/providers/queue/QueueActivityMonitor.ts:22-77 | After any run of touches and completed sweeps, at whatever times, a row is there if and only if no sweep since its last touch came more than the threshold after it, and it holds the time of that touch |
| `QueueActivity.ActivityMonitor.ShutdownInactiveQueue` | src/providers/queue/QueueActivityMonitor.ts:79-92 | Borrows one client on first need, then removes the row unless that throws; without a client no row is removed |
| `QueueActivity.ActivityMonitor.CloseInactiveQueues` | src/providers/queue/QueueActivityMonitor.ts:55-77 | A completed sweep leaves exactly the rows within the threshold and those whose removal threw, and no client held; a failed borrow changes nothing |
| `QueueActivity.Board.AddQueue` | src/providers/queue/BullBoardMonitor.ts:88-99 | One new adapter, on the map and on the board, once |
| `QueueActivity.Board.RemoveQueue` | src/providers/queue/BullBoardMonitor.ts:101-109 | Takes the adapter off the map and the board |
| `QueueActivity.Board.AddMissing` | src/providers/queue/BullBoardMonitor.ts:65-73 | Adds exactly the missing names, or stops at one whose queue cannot be built, and keeps the adapters of the others |
| `QueueActivity.Board.RemoveOthers` | src/providers/queue/BullBoardMonitor.ts:76-80 | Keeps exactly the listed names, with their adapters |
| `QueueActivity.Board.RefreshQueues` | src/providers/queue/BullBoardMonitor.ts:59-86 | Unless a missing queue cannot be built, the monitored names are the table's after a refresh; in every case the board shows exactly the map's adapters once each, old adapters are kept, and the client is returned unless that throws |
| `QueueActivity.SweepAndRefresh` | src/providers/queue/BullBoardMonitor.ts:59-86 | A sweep then a refresh: the board shows exactly the queues within the threshold, and no client is held |
| `Users.LowersLetters` | src/providers/auth/UserAuth.ts:78 | Lower-casing replaces every capital from A to Z by its small letter and nothing else |
| `Accounts.EveryRunKeepsAccounts` | src/providers/database/repository/BaseRepository.ts:29-60 | After any sequence of sign-ups, OAuth logins, resets, changes, logins, rotations and logouts, each of which may throw after any of its writes: no two users share an email; Basic users have a lower-case email, a salt and a password, which belongs to the salt if it is hashed; OAuth users have neither |
| `Accounts.AccountGuarantees` | src/providers/auth/UserAuth.ts:98-113 | The same for a reader: emails unique, a salt exactly with the Basic flow, and recalculatePasswordHash changes no email |
| `Accounts.StepKeepsAccounts` | src/providers/database/repository/BaseRepository.ts:31-52 | Every request, wherever it throws, keeps the invariant and loses or changes no existing account |
| `Accounts.AccountsNeverChangeHands` | src/providers/auth/UserAuth.ts:108-112 | In every continuation an existing user keeps email and flow |
| `Accounts.PasswordsStayHashedIff` | src/useCases/ModuleSystem/user/forgotPassword/ForgotPasswordUseCase.ts:45-51 | Over any run, no request ever leaves a password in the clear if and only if no reset throws between its two writes |
| `Accounts.InTheClearLocksOut` | src/useCases/ModuleSystem/user/forgotPassword/ForgotPasswordUseCase.ts:45-51 | A user whose password is in the clear can neither log in nor change it |
| `Accounts.LookupReachesEveryBasicUser` | src/providers/auth/UserAuth.ts:82-96 | The credential lookup of a spelling finds a Basic user if and only if it is the user's email up to case |
| `Accounts.ResetNeedsTheStoredSpelling` | src/useCases/ModuleSystem/user/forgotPassword/ForgotPasswordUseCase.ts:28-31 | The reset lookup finds a Basic user by the stored spelling only |
| `Accounts.AcceptedIff` | src/providers/database/repository/BaseRepository.ts:31-41 | Each of the eight requests is carried out if and only if the accounts, as a declarative condition says, admit it, and otherwise changes nothing |
| `Accounts.LoginSucceedsExactly` | src/providers/auth/UserAuth.ts:82-96 | A login gives a token if and only if a Basic user has the lower-cased email and that password, and the email is well formed |
| `Accounts.SignedUpUserLogsIn` | src/useCases/ModuleSystem/user/signup/SignUpUseCase.ts:38-42 | After a sign-up, any spelling logs in with the password and no other |
| `Accounts.ChangedPasswordIsTheOnlyOne` | src/useCases/ModuleSystem/user/changePassword/ChangePasswordUseCase.ts:53-59 | After a change only the new password logs in, and none of the user's old tokens verifies |
| `Accounts.ResetPasswordIsTheOnlyOne` | src/useCases/ModuleSystem/user/forgotPassword/ForgotPasswordUseCase.ts:40-51 | After a reset only the new password logs in, but every token keeps verifying |
| `Accounts.DistinctUpToCaseIff` | src/providers/database/repository/BaseRepository.ts:33-40 | Over any run, no two users' emails agree up to case if and only if every sign-up and OAuth login that made an account found its email free in every case |
| `Accounts.StepKeepsDistinctIff` | src/providers/database/repository/BaseRepository.ts:33-40 | The same for one request: it keeps emails distinct up to case exactly when it makes no account for an email that is taken in another case |
| `Accounts.OverlookedAreOAuth` | src/providers/auth/UserAuth.ts:77-80 | The uniqueness checks overlook only users spelled otherwise, and that of a sign-up only OAuth users |
| `Accounts.EmailsAfter` | src/repositories/ModuleSystem/user/UserRepository.ts:19-28 | A request adds the one account it makes, with the lower-cased (sign-up) or given (OAuth) email, and changes no other email |
| `Accounts.EmailsClashUpToCase` | src/useCases/ModuleSystem/user/googleOAuthSync/GoogleOAuthSyncUseCase.ts:27-31 | Whenever an OAuth email is not lower-case, a sign-up with its lower-case spelling makes a second account for it |
| `Accounts.NoClashWhenOAuthIsLowerCase` | src/useCases/ModuleSystem/user/signup/SignUpUseCase.ts:38 | In particular, if OAuth emails are lower-case, no two users' emails agree up to case |
| `RefreshTokens.VerifiesOnlyIfIssuedSinceRevocation` | src/providers/auth/AuthRefreshToken.ts:35-56 | Over whole runs, wherever requests throw, a token verifies only if it was issued to that same user after their latest logout or password change |
| `RefreshTokens.StepKeepsTokens` | src/providers/auth/AuthRefreshToken.ts:14-33 | Every request, wherever it throws, keeps that, together with the account invariant |
| `RefreshTokens.StepStores` | src/providers/auth/AuthRefreshToken.ts:14-33 | A stored token was stored before with no revocation since, or has just been issued |
| `RefreshTokens.LoginsAddExactlyTheirToken` | src/providers/auth/UserAuth.ts:53-59 | Every completed request but a rotation that returns a token adds exactly that token to the verifying ones |
| `RefreshTokens.RevocationsRemoveExactlyTheUsers` | src/useCases/ModuleSystem/user/logout/LogoutUseCase.ts:15-22 | A logout or a change removes exactly the user's tokens; other successful requests without a token remove none |
| `RefreshTokens.RotationRemovesExactlyThePresented` | src/providers/auth/UserAuth.ts:62-75 | After a rotation exactly the presented token has stopped verifying; the returned one verifies only if it was stored before |
| `RefreshTokens.BrokenRotationKeepsBoth` | src/providers/auth/UserAuth.ts:66-72 | A rotation that throws between its writes leaves the presented and the new token verifying |
| `RefreshTokens.RotationReturnsADeadToken` | src/providers/auth/UserAuth.ts:66-72 | With a clock past all stored tokens, the token a rotation returns does not verify |
| `RefreshTokens.NewlyVerifyingWasIssued` | src/providers/auth/AuthRefreshToken.ts:14-20 | Over any run a token can start to verify only by being issued in it |
| `RefreshTokens.RotatedTokenStaysDead` | src/providers/auth/AuthRefreshToken.ts:22-25 | In every continuation a rotated token verifies only if it is issued anew |
| `AccountChanges.OthersStayAsTheyWere` | src/providers/database/repository/BaseRepository.ts:104-120 | Wherever it throws, a request leaves every user it does not concern, by email, token or id, exactly as they were |
| `AccountChanges.PasswordChangesOnlyByItsUser` | src/providers/auth/UserAuth.ts:98-113 | A user's password and salt change only by a reset of the stored email or a change by the user, wherever the request throws |
| `AccountChanges.LogsInAsBefore` | src/providers/auth/UserAuth.ts:82-96 | Over any run without a reset or change of their own, a user logs in with exactly the same passwords |
| `AccountChanges.IssuedTokenIs` | src/providers/auth/UserAuth.ts:32-60 | A returned token is the one recorded as issued: of the time of the request, with the email of its user, who is the one found by the email and password, the identity token or the presented token, or the one newly made |
| `AccountChanges.RefusedBy` | src/useCases/ModuleSystem/user/login/LoginUseCase.ts:18-38 | Which error refuses each of the eight requests, exactly |
| `AccountChanges.BrokenAnswer` | src/providers/database/repository/BaseRepository.ts:117-119 | A request that throws says so unless it was refused before, and a refused one has changed nothing |
| `AccountChanges.CreatedAccountIs` | src/repositories/ModuleSystem/user/UserRepository.ts:19-28 | The account a sign-up or a first OAuth login makes: email, flow, hash, salt and tokens |
| `AccountChanges.BrokenCreationHasNoToken` | src/useCases/ModuleSystem/user/googleOAuthSync/GoogleOAuthSyncUseCase.ts:27-37 | A creation that throws before its token is stored leaves the same account without a token |
| `AccountChanges.NewPasswordIs` | src/providers/auth/UserAuth.ts:105-112 | An accepted reset or change stores the hash of the new password under the new salt |
| `AccountChanges.BrokenChangeOnlyRevokes` | src/useCases/ModuleSystem/user/changePassword/ChangePasswordUseCase.ts:53-59 | A change that throws between its writes has revoked the tokens and kept everything else |
| `AccountChanges.BrokenResetIsInTheClear` | src/useCases/ModuleSystem/user/forgotPassword/ForgotPasswordUseCase.ts:45-51 | A reset that throws between its writes has stored the new password in the clear and kept everything else |
| `AccountChanges.RevocationIsRecorded` | src/providers/auth/AuthRefreshToken.ts:27-33 | A logout, or a change that is carried out, counts as a revocation |
| `AccountChanges.TokensVanishOnlyBy` | src/providers/auth/AuthRefreshToken.ts:22-33 | A stored token is lost only by a revocation or by its own rotation, wherever the request throws |
| `AccountChanges.StoreAccountIsLeftAlone` | src/useCases/ModuleSystem/user/changePassword/ChangePasswordUseCase.ts:24-26 | The password of the store testers' account can be neither reset nor changed |
| `AccountChanges.OAuthUsersComeBack` | src/useCases/ModuleSystem/user/appleOAuth/AppleOAuthUseCase.ts:44-49 | Over any run an Apple user is recognised by the identity token alone, without a given email, and a Google user by the email |
| `TokenRaces.RevocationHoldsIffLive` | src/providers/auth/AuthRefreshToken.ts:14-33 | In every interleaving of single reads and writes, no token from before the latest logout is stored at any point if and only if no write carries one over from the list its request has read |
| `TokenRaces.PerformKeepsIffLive` | src/providers/auth/AuthRefreshToken.ts:14-33 | The same for one access |
| `TokenRaces.InterleavingsKeepRevocation` | src/providers/auth/AuthRefreshToken.ts:14-33 | In particular it holds when no logout comes between a request's read and its writes |
| `TokenRaces.RotationUndoesALogout` | src/providers/auth/UserAuth.ts:66-72 | A logout between a rotation's read and its last write is undone: exactly the tokens read, but the presented one, are stored again |
| `TokenRaces.LoginUndoesALogout` | src/providers/auth/UserAuth.ts:53-54 | A logout between a login's read and its write is undone: all tokens read are stored again, and revocation survives if and only if there was none but the new one |
| `TokenRaces.StaysStoredIff` | src/providers/auth/AuthRefreshToken.ts:14-33 | In any interleaving a stored token stays stored at every point if and only if no logout comes and every write is of a request that had read the token and does not remove it, or adds it |
| `TokenRaces.LaterLoginWins` | src/providers/auth/AuthRefreshToken.ts:14-20 | So of two logins that both read before either writes, only the later writer's token is stored |
| `UserServices.UserService.FindBy` | src/providers/database/repository/BaseRepository.ts:36 | The query finds a user with the email exactly when there is one |
| `UserServices.UserService.CreateUser` | src/providers/database/repository/BaseRepository.ts:29-60 | Creates the record exactly when its email is free and its id is new |
| `UserServices.UserService.AddRefreshToken` | src/providers/auth/AuthRefreshToken.ts:14-20 | Overwrites the list with the snapshot's plus the token |
| `UserServices.UserService.RemoveRefreshToken` | src/providers/auth/AuthRefreshToken.ts:22-25 | Overwrites the list with the snapshot's less the token |
| `UserServices.UserService.ClearRefreshTokens` | src/providers/auth/AuthRefreshToken.ts:27-33 | Empties the list of an existing user |
| `UserServices.UserService.GenerateAccessToken` | src/providers/auth/UserAuth.ts:32-60 | Signs a token for the snapshot and stores it after the snapshot's tokens |
| `UserServices.UserService.RecalculatePasswordHash` | src/providers/auth/UserAuth.ts:98-113 | Rewrites email, hash and salt and nothing else |
| `UserServices.UserService.SignUpUser` | src/useCases/ModuleSystem/user/signup/SignUpUseCase.ts:21-49 | The sign-up, write by write and wherever it throws, is the sign-up request of the model, response included |
| `UserServices.UserService.GoogleOAuthSync` | src/useCases/ModuleSystem/user/googleOAuthSync/GoogleOAuthSyncUseCase.ts:17-48 | The same for the Google login |
| `UserServices.UserService.AppleOAuthSync` | src/useCases/ModuleSystem/user/appleOAuth/AppleOAuthUseCase.ts:19-78 | The same for the Apple login |
| `UserServices.UserService.ForgotUserPassword` | src/useCases/ModuleSystem/user/forgotPassword/ForgotPasswordUseCase.ts:22-51 | The same for the reset: a throw between its writes leaves the new password in the clear |
| `UserServices.UserService.ChangeUserPassword` | src/useCases/ModuleSystem/user/changePassword/ChangePasswordUseCase.ts:23-59 | The same for the change: a throw between its writes leaves the tokens revoked and the old password |
| `UserServices.UserService.LoginUser` | src/useCases/ModuleSystem/user/login/LoginUseCase.ts:18-38 | The same for the login |
| `UserServices.UserService.RefreshToken` | src/providers/auth/UserAuth.ts:62-75 | The rotation: both writes start from the one snapshot, and the second overwrites the first unless a throw comes between |
| `UserServices.UserService.LogoutUser` | src/useCases/ModuleSystem/user/logout/LogoutUseCase.ts:15-22 | The same for the logout |
| `Sockets.TrackedThroughoutIff` | src/providers/sockets/SocketAdapter.ts:72-186 | On one node, whatever store call throws: at every point of a run each live channel is the one stored on its character, which has a session, if and only if no connection that is stored found a live channel whose leaving threw |
| `Sockets.OneLiveChannelPerCharacter` | src/providers/sockets/SocketAdapter.ts:111-169 | So, whatever store call throws, at most one channel of a character has listeners, and it is the stored one |
| `Sockets.ExactThroughoutIff` | src/providers/sockets/SocketAdapter.ts:72-186 | At every point of a run the sessions and stored channels are exactly those of live channels if and only if no call threw between displacing a live channel, or storing a new one, and its listeners, or between the disconnection of a live channel and the end of its session |
| `Sockets.EveryRunKeepsBase` | src/providers/sockets/SocketAdapter.ts:72-186 | In every run a channel has both kinds of listeners or none, a stored channel was opened for that character, and sessions are of known characters |
| `Sockets.LiveAfterConnect` | src/providers/sockets/SocketAdapter.ts:84-107 | Which channels are live after a connection, wherever it throws: the new one if it completes, and the old ones but the displaced |
| `Sockets.NewestConnectionWins` | src/providers/sockets/SocketAdapter.ts:84-99 | After any run that keeps track, the new channel is live, the displaced one has no listener or binding left, other characters are untouched |
| `Sockets.DisplacedDisconnectChangesNothing` | src/providers/sockets/SocketAdapter.ts:90-99 | In every continuation the disconnect of a displaced channel changes no user, session or listener |
| `Sockets.LiveDisconnectEndsTheSession` | src/providers/sockets/SocketAdapter.ts:171-186 | The live channel's disconnect, when nothing throws in it, ends exactly its character's session |
| `Sockets.UnknownCharacterChangesNothing` | src/providers/sockets/SocketAdapter.ts:100-107 | A connection that names no known character changes no session |
| `Sockets.SocketAdapter.RemoveAllListeners` | src/providers/sockets/SocketAdapter.ts:138 | Takes all listeners off the channel |
| `Sockets.SocketAdapter.BindEvents` | src/providers/sockets/SocketEventsBinderControl.ts:9-19 | Binds the events and marks the channel unless it is marked; a throw can leave it bound without a mark |
| `Sockets.SocketAdapter.UnbindEvents` | src/providers/sockets/SocketEventsBinderControl.ts:21-31 | Removes the mark of a stripped channel unless a call throws |
| `Sockets.SocketAdapter.HandleExistingCharacterSession` | src/providers/sockets/SocketAdapter.ts:111-145 | Strips the previous channel and ends its session, as far as no call throws, if there is a session and the server still knows the channel |
| `Sockets.SocketAdapter.UpdateCharacterConnection` | src/providers/sockets/SocketAdapter.ts:147-169 | Stores the channel, opens the session and binds the events, up to the call that throws |
| `Sockets.SocketAdapter.ConnectCharacter` | src/providers/sockets/SocketAdapter.ts:84-107 | Displaces, stores and listens, or closes the channel at a throw |
| `Sockets.SocketAdapter.OnConnect` | src/providers/sockets/SocketAdapter.ts:72-109 | The connection handler is the connect step |
| `Sockets.SocketAdapter.HandleDisconnect` | src/providers/sockets/SocketSessionControl.ts:26-32 | Clears the stored channel and then the session, up to the call that throws |
| `Sockets.SocketAdapter.OnDisconnect` | src/providers/sockets/SocketAdapter.ts:91-99 | The disconnect handler is the disconnect step |
| `Sockets.KeptOpenIff` | src/providers/sockets/SocketAdapter.ts:72-108 | A new channel is kept open if and only if it came without a query, or named a known character and nothing threw; no other channel is opened or closed by it |
| `Sockets.NewChannelIs` | src/providers/sockets/SocketAdapter.ts:84-99 | A channel kept open belongs to the character of its query and has its listeners exactly if that is known |
| `Sockets.OtherChannelsAfterConnect` | src/providers/sockets/SocketAdapter.ts:127-145 | Of the other channels exactly the displaced one loses its listeners |
| `Sockets.TablesAfterConnect` | src/providers/sockets/SocketAdapter.ts:127-169 | Exactly when the character has a session after a connection, and which channels are marked as bound, wherever it throws |
| `Sockets.TablesWithoutCharacter` | src/providers/sockets/SocketAdapter.ts:72-80 | A connection without a known character, or of an id given out before, touches no table |
| `Sockets.DisconnectRemovesItsChannel` | src/providers/sockets/SocketAdapter.ts:91-99 | A disconnection takes exactly its own channel off the server, and no mark |
| `Sockets.TablesAfterDisconnect` | src/providers/sockets/SocketAdapter.ts:171-186 | A listening channel's disconnection clears its own character, as far as nothing throws, and no other |
| `PrismaWhere.TranslationKeepsMeaning` | src/providers/database/repository/PrismaRepository.ts:124-142 | For nested queries whose strings have no % or _, a record matches the translation exactly when it matches the query |
| `PrismaWhere.MatchSurvivesIff` | src/providers/database/repository/PrismaRepository.ts:134-136 | A matching record matches the translation if and only if every string of the query contains itself less its percent signs |
| `PrismaWhere.MatchSurvivesIffPercentsOutside` | src/providers/database/repository/PrismaRepository.ts:134-136 | With contains as the substring test, a matching record matches the translation if and only if no percent sign of the query's strings stands between two other characters |
| `PrismaWhere.InnerPercentLosesItsMatch` | src/providers/database/repository/PrismaRepository.ts:134-136 | A filter for "a%b" does not find the record that holds it |
| `PrismaWhere.PercentFreeLosesNoMatch` | src/providers/database/repository/PrismaRepository.ts:134-136 | A query whose strings are only %-free loses no match |
| `PrismaWhere.TextKeepsMeaningIff` | src/providers/database/repository/PrismaRepository.ts:134-138 | A string filter keeps its meaning for all data if and only if it has neither % nor _ |
| `PrismaWhere.ParseWhere` | src/providers/database/repository/PrismaRepository.ts:124-142 | The loop builds the translation, whatever the order of the fields |
| `PrismaWhere.TranslationOf` | src/providers/database/repository/PrismaRepository.ts:127-139 | A value becomes a contains exactly if it is a text with a percent sign or an underscore, a null test, membership and nesting exactly for null, lists and objects, and equality with itself otherwise |
| `PrismaWhere.OnlyPercentsGo` | src/providers/database/repository/PrismaRepository.ts:135 | Exactly the percent signs are left out, in order |
| `SensitiveData.FilteredPaths` | src/providers/middlewares/SensitiveDataMiddleware.ts:39-60 | What any path leads to after filtering: nothing if it has a sensitive key, else the filtered form of what it led to |
| `SensitiveData.KeepsExactlyTheOtherLeaves` | src/providers/middlewares/SensitiveDataMiddleware.ts:46-57 | A leaf is kept if and only if its path has no sensitive key |
| `SensitiveData.NoSensitiveKeyAtAnyDepth` | src/providers/middlewares/SensitiveDataMiddleware.ts:46-57 | No path with a sensitive key leads anywhere |
| `SensitiveData.FilterTwice` | src/providers/middlewares/SensitiveDataMiddleware.ts:39-60 | Filtering by A then by B is filtering once by their union |
| `SensitiveData.FilterIdempotent` | src/providers/middlewares/SensitiveDataMiddleware.ts:39-60 | Filtering twice is filtering once |
| `SensitiveData.NestedArraysBecomeObjects` | src/providers/middlewares/SensitiveDataMiddleware.ts:44 | The result has no array: the spread makes them index-keyed objects |
| `SensitiveData.UnchangedIff` | src/providers/middlewares/SensitiveDataMiddleware.ts:39-60 | Filtering changes nothing if and only if there is no array and no path with a sensitive key |
| `SensitiveData.DeleteFields` | src/providers/middlewares/SensitiveDataMiddleware.ts:44-50 | The deletion loop leaves exactly the keys that are not sensitive |
| `SensitiveData.FilterChildren` | src/providers/middlewares/SensitiveDataMiddleware.ts:53-57 | The loop over the keys filters every child in place |
| `SensitiveData.FilterSensitiveData` | src/providers/middlewares/SensitiveDataMiddleware.ts:39-60 | The recursive method computes the filter |
| `SensitiveData.FilterBody` | src/providers/middlewares/SensitiveDataMiddleware.ts:16-33 | The json wrapper filters by the fields not excluded; an array body stays an array, item by item |
| `QueryString.RoundTripIff` | src/providers/dataStructures/DataStructuresHelper.ts:15-30 | For objects without percent signs: parsing undoes printing if and only if keys avoid & = +, values avoid & +, the first key does not begin with ?, and no key is __proto__ (section 5.1 of the WHATWG URL Standard) |
| `QueryString.CleanComesBack` | src/providers/dataStructures/DataStructuresHelper.ts:15-30 | Such an object comes back entry by entry, in order |
| `QueryString.ParsePrinted` | src/providers/dataStructures/DataStructuresHelper.ts:26-30 | The parser undoes the printer once no question mark is taken off |
| `QueryString.UncleanEntryIsLost` | src/providers/dataStructures/DataStructuresHelper.ts:26-30 | An entry that breaks the condition is not in the parsed list |
| `QueryString.QuestionMarkIsLost` | src/providers/dataStructures/DataStructuresHelper.ts:16 | A leading ? of the first key is taken off, and that only |
| `QueryString.QueryStringToObject` | src/providers/dataStructures/DataStructuresHelper.ts:15-24 | The loop fills the object in list order; the last value of a name stays |
| `QueryString.SplitCuts` | src/providers/dataStructures/DataStructuresHelper.ts:16 | For any text, the parts are the text cut at every ampersand |
| `QueryString.CutAtTheFirstEquals` | src/providers/dataStructures/DataStructuresHelper.ts:16 | A part is its name and value around the first equals sign, and a name alone without one |
| `QueryString.PlusIsSpace` | src/providers/dataStructures/DataStructuresHelper.ts:16 | Every plus sign is read as a space, and no other character is touched |
| `QueryString.PartsInOrder` | src/providers/dataStructures/DataStructuresHelper.ts:16-23 | The parts make their entries in order |
| `QueryString.PartAlone` | src/providers/dataStructures/DataStructuresHelper.ts:16-23 | A part makes one entry of its decoded name and value, an empty one none |
| `QueryString.PlainTextIsAName` | src/providers/dataStructures/DataStructuresHelper.ts:15-24 | A text without special characters but plus signs is a name in which they are spaces |
| `Compose.BuiltServices` | environment/modules/module-builder.js:84-175 | The built services are exactly those of the base file and of enabled, existing modules that no disabled module claims |
| `Compose.EnabledAndDisabledModules` | environment/modules/module-builder.js:103-175 | No service key of a disabled module is built; a service of an enabled module file is built if and only if no disabled module claims it |
| `Compose.BuiltDependencies` | environment/modules/module-builder.js:177-178 | A built dependency clause is non-empty, and has lost exactly the dependencies on absent services, unless their names are properties that every object inherits |
| `Compose.DependenciesAreBuiltIff` | environment/modules/module-builder-utils.js:94-114 | All dependencies of a built file are on built services if and only if none was merged in on an absent service with an inherited name |
| `Compose.CleanKeepsExactlyPresent` | environment/modules/module-builder-utils.js:94-114 | Cleaning keeps exactly the dependencies on the given names and drops an empty clause |
| `Compose.CleanTwice` | environment/modules/module-builder-utils.js:94-114 | Cleaning a clause twice is cleaning it once |
| `Compose.SecondCleanupChangesNothing` | environment/modules/module-builder-utils.js:94-114 | A second cleanup of all services changes nothing |
| `Compose.MergedKeys` | environment/modules/module-builder.js:103-154 | Merging brings in exactly the services of enabled, existing modules and those their dependency settings create |
| `Compose.LastDefinitionWins` | environment/modules/module-builder-utils.js:73-77 | A service is what the last enabled module that defines it says, else what the base file says; its command is the last one set or defined |
| `Compose.BuiltDefinitions` | environment/modules/module-builder.js:103-154 | A built service is what its last definition says, with the last command set for it |
| `Compose.DependencyStays` | environment/modules/module-builder.js:116-142 | A dependency stays through all later modules whose files do not replace the service |
| `Compose.AddedDependencyIsBuilt` | environment/modules/module-builder.js:116-124 | A dependency added by an enabled module is built whenever both services are, unless a later file replaces the service |
| `Compose.ExtendingAListLosesIt` | environment/modules/module-builder.js:119-122 | Adding dependencies to a service that lists its own loses every listed name that is not added again (or equal to an index) |
| `Compose.Builder.AddDependsOn` | environment/modules/module-builder.js:116-124 | Extends each named service, making it if absent |
| `Compose.Builder.AddCommandOn` | environment/modules/module-builder.js:127-133 | Sets the command of each named service that exists |
| `Compose.Builder.ProcessModule` | environment/modules/module-builder.js:103-142 | One module in the source's order: file, added dependencies, commands, own dependencies |
| `Compose.Builder.RemoveServices` | environment/modules/module-builder.js:166-175 | Removes exactly the given keys |
| `Compose.Builder.CleanUp` | environment/modules/module-builder-utils.js:94-114 | The loop over the services cleans every clause against the services that remain |
| `Compose.Builder.BuildDockerCompose` | environment/modules/module-builder.js:84-178 | The whole builder computes the built file |
| `Compose.LastClauseExtended` | environment/modules/module-builder-utils.js:73-77 | After all merges a service's depends_on is that of its last definition, extended by what that module and later ones add, and by their own dependencies |
| `Compose.ExtendedClauseIs` | environment/modules/module-builder.js:119-122 | An extended clause has the new dependencies with their conditions, which win, and the others it had as an object |
| `Compose.BuiltClause` | environment/modules/module-builder-utils.js:94-114 | A built service has exactly the dependencies of that clause on built services or inherited names, under the same conditions, and a list in the same order |
| `EmailQuota.QuotaHoldsForAClock` | emails/TransactionalEmail.ts:36-45 | With one server's clock and time zone, from an empty table on, no provider's logs since the current day start exceed its credits |
| `EmailQuota.QuotaHolds` | emails/TransactionalEmail.ts:38-45 | The same for any run whose day start does not go back |
| `EmailQuota.ClockGivesDays` | emails/TransactionalEmail.ts:36 | The day start of a fixed offset goes forward with the clock |
| `EmailQuota.ProvidersAreUsedInOrder` | emails/TransactionalEmail.ts:38-94 | Within one day, from an empty table, a provider has a log only if every earlier one is exhausted |
| `EmailQuota.Chosen` | emails/TransactionalEmail.ts:38-45 | The provider taken is the first with credits left, or none |
| `EmailQuota.DayStartAheadIff` | emails/TransactionalEmail.ts:36 | The day start is ahead of the clock if and only if the local date is later than the UTC date |
| `EmailQuota.SentInNumbers` | emails/TransactionalEmail.ts:36-98 | What every provider accepts in a day of a forward clock, from the submissions alone: its share of those counted, those before the day start if it is next in order at the beginning, and those whose log is missing |
| `EmailQuota.SentExceedsCreditsIff` | emails/TransactionalEmail.ts:36-98 | A day begun with nothing counted sends more through a provider than its credits if and only if these three together are more |
| `EmailQuota.SentIsRowsAndUnlogged` | emails/TransactionalEmail.ts:77-98 | In any order of clock readings, what a provider accepts in a day is its log rows plus the e-mails whose log is missing |
| `EmailQuota.SentIsBounded` | emails/TransactionalEmail.ts:36-98 | In any order of clock readings a day exceeds a provider's credits at most by the e-mails before the day start and those whose log is missing |
| `EmailQuota.UnloggedAreNeverCounted` | emails/TransactionalEmail.ts:77-98 | When the log is missing each time, any number of e-mails go out through the same provider |
| `EmailQuota.OneDayStaysWithinCredits` | emails/TransactionalEmail.ts:36-45 | From any log table within the credits, in any order of clock readings: the log rows a provider gets in one day, with those already counted for it, exceed its credits by no more than what was logged while the day start was ahead of the clock |
| `EmailQuota.DayInNumbers` | emails/TransactionalEmail.ts:36-94 | The log rows of a day of a forward clock in numbers, for every provider: what is logged past the day start fills the providers up in order, what is logged before it all goes to the provider next in order |
| `EmailQuota.DayExceedsCreditsIff` | emails/TransactionalEmail.ts:36-45 | The log rows of a day begun with nothing counted exceed a provider's credits if and only if it is the first with any, and the rows before the day start plus those counted after it are more |
| `EmailQuota.SharesAfter` | emails/TransactionalEmail.ts:38-45 | In any order of clock readings the counted log rows of a day fill the providers up in order |
| `EmailQuota.TransactionalEmail.FindLogsByAction` | src/repositories/ModuleSystem/LogRepository.ts:20-27 | The query counts the logs of the action from the date on |
| `EmailQuota.TransactionalEmail.SendEmail` | emails/TransactionalEmail.ts:38-103 | The provider loop writes the log of the chosen provider and of no other, and answers true exactly when submitted or unsubscribed |
| `EmailQuota.WritesARowIff` | emails/TransactionalEmail.ts:85-90 | A call writes one row, if a provider has credits and it was submitted and logged, and otherwise none |
| `EmailQuota.SendsIff` | emails/TransactionalEmail.ts:77-90 | An e-mail goes out through a provider exactly if that is chosen and took it, whether or not it answered or was logged |
| `EmailQuota.RowsComeFromSends` | emails/TransactionalEmail.ts:86 | Every row of a run is of a submission that was logged, with its time, its address and one of the providers |
| `EmailQuota.DayStartIs` | emails/TransactionalEmail.ts:36 | The day start is the UTC midnight that begins the date the local clock shows |
| `EmailQuota.ActionsApart` | emails/TransactionalEmail.ts:41 | Providers' rows are told apart by their keys |
| `OrderStatistics.MedianOfPermutation` | src/providers/math/MathHelper.ts:35-39 | The median does not depend on the order of the list |
| `OrderStatistics.SortedIsUnique` | src/providers/math/MathHelper.ts:37 | Whatever sorting algorithm is used, the sorted list is the same |
| `OrderStatistics.MedianSplitsInHalf` | src/providers/math/MathHelper.ts:35-39 | At least half of the entries are on each side of the median, ties counted on both |
| `OrderStatistics.MedianOfNegated` | src/providers/math/MathHelper.ts:35-39 | Negating the list negates the median |
| `OrderStatistics.SortOfNegated` | src/providers/math/MathHelper.ts:37 | The sorted negated list is the sorted list negated and read backwards |
| `OrderStatistics.MeanBalances` | src/providers/math/MathHelper.ts:41-57 | The weighted distances from the mean cancel |
| `OrderStatistics.MeanWithinBounds` | src/providers/math/MathHelper.ts:41-57 | With positive weights the mean exists and lies between the least and the greatest value |
| `OrderStatistics.MeanExistsIff` | src/providers/math/MathHelper.ts:41-57 | There is a mean if and only if every value has a weight and the weights used do not cancel out; weights beyond the values are not used |

## Left out

- RedisStreams: reconnecting, recreating a missing group, shutdown, trimming and deletion, and the
  limit of 1000 strings on a message; a callback that throws before returning its promise (an async one cannot).
- RabbitMQ: channel replacement after a close, prefetch, publishing and its retries; a connection that fails
  on its own; nothing is modelled of a channel once the broker has closed it.
- RedisPubSub: time is the Redis clock; a key counts as present up to and including its sixtieth second.
- Locks: lifetimes (no caller passes one) and `Locker.clear`; an instance that dies while it holds a lock.
- DynamicQueue: `shutdown` and `clearAllJobs`, queue-name generation and worker scaling; the two seconds
  inside a cleanup and the awaits inside `addJob` are not interruption points.
- QueueActivity: waiting for active jobs; a queue touched while a sweep is under way.
- Users: bcrypt, JWT and Apple's token check are data (a digest holds what was hashed, a token what was
  signed, a trusted flag); the email validator is a flag of the request; `trim` of the login email is
  taken as done; lower-casing covers A to Z; a request that throws answers with one error, whichever call
  threw; access tokens and their expiry, the token refresh use case beyond the rotation, analytics and
  e-mails sent are not modelled.
- BaseRepository: other operations, hidden fields, timestamps and unique keys other than the email.
- UserServices: requests interleave in `TokenRaces` only, and there for the refresh tokens only, so two simultaneous
  sign-ups with one email are not covered.
- Sockets: the Geckos adapter, whose lookup answers with a room for every id; several nodes; connects that
  interleave inside their awaits; the events themselves.
- PrismaWhere: dates, undefined values, operator-named fields and a field named `__proto__`; what `contains` matches is a parameter.
- SensitiveData: functions and class instances in a body, and replacing `res.json` itself.
- QueryString: percent decoding is a parameter that leaves text without a percent sign alone; values
  that are not strings.
- Compose: volumes, networks, reading and printing YAML, services whose value is null, and modules that add
  dependencies or commands to a service named like an inherited property.
- EmailQuota: templates, encryption of the unsubscribe link, and a time zone whose offset changes.
- OrderStatistics: floating-point rounding; the other functions of the helper. A result that would be
  NaN or infinite is None.
- Controllers, DTO validation, the container, analytics, scaling calculators, cooldowns and formatters:
  plumbing, foreign calls, or arithmetic on one line.
