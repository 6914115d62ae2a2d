# Shared-memory message broker of the Slamware SDK, with the base service lifecycle and the ROS-bridge base device

This project models, in Dafny, the process-shared publish/subscribe broker of the Slamware SDK and proves properties of it. It also models two smaller pieces: the lifecycle of a `BaseService` and the `RosBaseDevice` pseudo-device of the ROS bridge.

## The broker

- **Topics.** A topic (`ShmTopic`) lives in a shared segment. It keeps an ordered log of message entries (payload handle, sequence number, timestamp), the handles of its subscriptions, a bounded recycle bin of payload slots, a sequence counter, a disposing flag and the time of its last lock. Its QoS is Singleton (the one entry is overwritten) or Queue (entries are appended; the log is capped at 10000 entries).
- **Subscriptions.** A subscription (`ShmSubscription`) reads in AtMostOnce mode (the newest unseen entry) or All mode (the entry after its cursor). It may also drain everything unread, or unsubscribe.
- **Topic directory.** The topic manager (`ShmTopicManager`) maps names to topic records in the segment under its own lock.
- **Locks.** Every lock is a timed try-lock with forced recovery from a holder that crashed:
  - A topic lock gives up after a second stale timeout. Staleness is judged on a 32-bit unsigned elapsed time.
  - The directory lock retries for ever.
  - `tryRead` uses a one-shot lock that forces it once when stale.

## How it is modelled

- **Specification.** `TopicSpec` states each topic operation as a function on a value `World`. A world holds:
  - the topic record;
  - the segment's payload and subscription objects;
  - the next free handle.

  `TopicSpec.Inv` is the invariant every topic operation keeps:
  - the log is bounded, and a Singleton topic holds at most one entry;
  - sequence numbers in the log strictly increase and never run ahead of the counter;
  - the recycle bin stays within its capacity;
  - every payload slot the topic owns is live and owned once;
  - the segment's allocation counter is beyond every live handle.
- **Imperative model.** `Topic.ShmTopic`, `Topic.ShmSubscription` and `TopicManager.ShmTopicManager` are classes over the mutable `TopicRecord.TopicData` and `SharedMemory.Segment`. Each method is proved to leave exactly the state the specification function gives (`Abs() == Spec(old(Abs()))`) and to keep `Valid()`.
- **Properties.** `TopicProps` proves what the source promises about the specification:
  - contiguity of sequence numbers;
  - the effect of each publish mode;
  - what each read returns;
  - draining;
  - retirement of read entries;
  - expiry of subscriptions.
- **Locks.** `ShmLock` models a lock acquisition as a trace of attempts (acquired, timed out at a given time, threw). It gives the outcome of each of the three protocols as a function.
- **Inputs and left-out effects.**
  - Clocks, allocation success and lock attempts are parameters.
  - Mutexes and cross-process concurrency are not modelled.

### Behaviour of the code that the model keeps

- **Failed Queue publish.** A Queue publish whose allocation fails has already bumped the sequence counter. It leaves a gap in the sequence numbers:
  - `TopicProps.PublishAllocFailureLeavesGap` shows the gap.
  - After such a gap, the lookup of the next entry lands on a later entry than the one after the cursor (`TopicProps.GapMakesLookupSkip`).
  - A new AtMostOnce subscriber can be handed a message published before it subscribed (`TopicProps.GapShowsOldMessageToNewSubscriber`).
- **The disposing flag.** `destroy` sets the flag, and `subscribe` refuses while it is set (shm_topic.h:85-90). `publish` never reads it (shm_topic.h:223-268).
- **`destroy` when the lock fails.** If the lock is not acquired, `destroy` returns after setting the flag. The topic record stays allocated.
- **`deleteTopic(topic)`.** The topic record is freed before the directory lock is taken. If that lock throws, the directory keeps a dangling entry (`TopicManager.FreeWithoutEraseDangles`).
- **`deleteTopic(name)`.** The entry is erased even when the topic lock then fails. The record is then leaked.
- **`getOrCreateTopic`.** The QoS argument is ignored for a topic that already exists.
- **Staleness of a topic lock.** It is computed on an unsigned 32-bit elapsed time, so a clock reading earlier than the last lock time looks stale (`ShmLock.EarlierClockLooksStale`). The directory lock compares signed times instead.
- **A service hook that throws.** A throwing `onStart` leaves the service in StartingUp, and a throwing `onStop` leaves it in Stopping. After that, every `start` and `stop` throws (`Service.RaisingHookWedges`).
- **The one-shot lock.** Unlike the timed lock, `doTryLock_` has no handler, so an exception from `try_lock` escapes `tryRead` to its caller (`ShmLock.TryLock`, `Topic.ShmSubscription.TryRead`).

## Model

Definitions that carry no contract of their own are stated through the members in the table that are about them. Each is listed here with the lines it models:

- `TopicSpec.Publish`, `TopicSpec.OverwritePath`, `TopicSpec.AppendPath`, `TopicSpec.Overwrite`, `TopicSpec.Append`: `doPublish_`, src/slamware_sdk/include/rpos/system/shared_memory/shm_topic.h:223-268. Stated by `TopicSpec.PublishKeeps`, `TopicProps.QueuePublishAppends`, `TopicProps.SingletonPublishOverwrites`, `TopicProps.PublishAllocFailure`, `TopicProps.PublishKeepsContiguous` and `TopicProps.QueuePublishesReadBack`.
- `TopicSpec.Subscribe`: `subscribe`, src/slamware_sdk/include/rpos/system/shared_memory/shm_topic.h:85-108. Stated by `TopicSpec.SubscribeKeeps` and `TopicProps.SubscribeEffect`.
- `TopicSpec.Read`, `TopicSpec.NextUnseen`: `read_`, src/slamware_sdk/include/rpos/system/shared_memory/shm_topic.h:143-184, the All branch at src/slamware_sdk/include/rpos/system/shared_memory/shm_topic.h:167-177. Stated by `TopicProps.AllReadReturnsNext`, `TopicProps.NextUnseenContiguous` and `TopicSpec.ReadKeeps`.
- `TopicSpec.ReadAll`: `readAll_`, src/slamware_sdk/include/rpos/system/shared_memory/shm_topic.h:186-212. Stated by `TopicProps.ReadAllReturnsUnread` and `TopicSpec.ReadAllKeeps`.
- `TopicSpec.Expired`: the expiry test, src/slamware_sdk/include/rpos/system/shared_memory/shm_topic.h:338-339. Stated by `TopicSpec.ExpiredSubscriptions` and `TopicSpec.LiveSubscriptions`.
- `TopicSpec.DestroyContents`: the clean-up in `destroy`, src/slamware_sdk/include/rpos/system/shared_memory/shm_topic.h:132-137. Stated by `TopicSpec.DestroyContentsKeeps`.
- `ShmLock.Stale32`, `ShmLock.SignedStale`, `ShmLock.CountStale`: the staleness tests at src/slamware_sdk/include/rpos/system/shared_memory/shm_topic.h:372-373 and src/slamware_sdk/include/rpos/system/shared_memory/shm_topic_manager.h:116, and the count of stale timeouts in the loop. Stated by `ShmLock.StaleRulesAgree`, `ShmLock.EarlierClockLooksStale` and `ShmLock.TimedLockFrom`.
- `Service.StartStep`, `Service.StopStep`: `start` and `stop`, src/slamware_sdk/include/rpos/context/base_service.h:79-149. Stated by the `Service` lemmas in the table.
- `Service.StartsWith`: the prefix test in the logger source, src/slamware_sdk/include/rpos/context/base_service.h:44-52. Stated by `Service.LoggerSource`.
- `RosBase.CopyConfig`: the copy in `getBinaryConfig`, src/ros_bridge/src/devices/ros_base.cpp:24-33. Stated by `RosBase.CopyConfigReadsBack`.
- `TopicRecord.TopicData.State`: the fields of `ShmTopicData`, src/slamware_sdk/include/rpos/system/shared_memory/shm_topic.h:29-38, read as one value. It is the abstraction that every `Topic.ShmTopic` method's contract is stated in.

| member | source | states |
|---|---|---|
| ShmDefs.MaxTrashSize | src/slamware_sdk/include/rpos/system/shared_memory/shm_topic.h:78 | the recycle bin holds at least 10 slots and at least as many payloads as fit in 100 KiB, and is exactly one of the two |
| ShmLock.Elapsed32 | src/slamware_sdk/include/rpos/system/shared_memory/shm_topic.h:372 | the elapsed time is taken modulo 2^32, so it is never negative and equals the true difference whenever that fits in 32 bits |
| ShmLock.TimedLock | src/slamware_sdk/include/rpos/system/shared_memory/shm_topic.h:362-393 | a topic lock is taken exactly when at most one stale timeout precedes the first attempt that does not time out, and that attempt acquires; it force-unlocks exactly once if any timeout was stale; the lock time moves to the acquiring attempt's time and stays put on failure |
| ShmLock.AwaitTimedLock | src/slamware_sdk/include/rpos/system/shared_memory/shm_topic.h:367-386 | the waiting loop reaches exactly the decision and the lock time that `TimedLock` gives for the same attempts |
| ShmLock.DirectoryLock | src/slamware_sdk/include/rpos/system/shared_memory/shm_topic_manager.h:110-124 | the directory lock never gives up on staleness: it is taken exactly when the first attempt that does not time out acquires, and it force-unlocks once per stale timeout before that |
| ShmLock.TryLock | src/slamware_sdk/include/rpos/system/shared_memory/shm_topic.h:395-411 | the one-shot lock is taken exactly when the first try succeeds, or the first finds it held, the lock looks stale and the retry succeeds; a stale lock is forced exactly once; an exception from either try escapes the call, since nothing catches it; the lock time becomes the current time only when taken |
| ShmLock.StaleTwiceGivesUp | src/slamware_sdk/include/rpos/system/shared_memory/shm_topic.h:373-379 | two stale timeouts in a row make the topic lock give up after one forced unlock |
| ShmLock.EarlierClockLooksStale | src/slamware_sdk/include/rpos/system/shared_memory/shm_topic.h:372-373 | a clock reading earlier than the last lock time looks stale to a topic lock but not to the directory lock |
| ShmLock.FirstStop | src/slamware_sdk/include/rpos/system/shared_memory/shm_topic.h:369-385 | the loop runs through a prefix of timed-out attempts and stops at the first attempt that acquires the lock or throws |
| ShmLock.TimedLockFrom | src/slamware_sdk/include/rpos/system/shared_memory/shm_topic.h:369-386 | from any point of the loop: the lock is taken exactly when at most one stale timeout, counting one already seen, precedes the stopping attempt and that attempt acquires; the mutex is forced at most once; the lock time is the acquiring attempt's or stays |
| ShmLock.StaleRulesAgree | src/slamware_sdk/include/rpos/system/shared_memory/shm_topic.h:372-373 | whenever the elapsed time fits in 32 bits, the unsigned and the signed staleness rules agree |
| SharedMemory.OwnerIffNotUser | src/slamware_sdk/include/rpos/system/shared_memory/shared_memory.h:94 | a process owns the segment exactly when it did not open it with user access |
| SharedMemory.Segment.constructor | src/slamware_sdk/include/rpos/system/shared_memory/shared_memory.h:96-103 | an empty arena (no payload, subscription or topic records, allocation counter 0) that records the access right, the open status and the heartbeat state it is given |
| SharedMemory.Segment.IsValid | src/slamware_sdk/include/rpos/system/shared_memory/shared_memory.h:36 | `isValid` fails on every status other than success and whenever the heartbeat has stopped, and holds when both are fine |
| SharedMemory.Segment.IsOwner | src/slamware_sdk/include/rpos/system/shared_memory/shared_memory.h:94 | a segment is owned exactly when it was not opened with user access |
| SharedMemory.Segment.PayloadAt | src/slamware_sdk/include/rpos/system/shared_memory/shared_memory.h:52-56 | a handle of a live slot resolves to that slot's payload; a freed handle, whose address dangles in the source, resolves to nothing (see "## Left out") |
| SharedMemory.Segment.CreatePayload | src/slamware_sdk/include/rpos/system/shared_memory/shared_memory.h:61-74 | allocation succeeds exactly when the segment has room; the new handle is fresh and holds the value; on failure nothing changes |
| SharedMemory.Segment.CreateSubscriptionData | src/slamware_sdk/include/rpos/system/shared_memory/shared_memory.h:61-74 | a subscription record is allocated exactly when there is room, under a fresh handle; on failure nothing changes |
| SharedMemory.Segment.ConstructTopicRecord | src/slamware_sdk/include/rpos/system/shared_memory/shm_topic_manager.h:53-55 | a topic record is allocated exactly when there is room, fresh, with the given name and QoS; on failure nothing changes |
| SharedMemory.Segment.WritePayload | src/slamware_sdk/include/rpos/system/shared_memory/shm_topic.h:236-237 | writing through a live handle replaces that payload and no other |
| SharedMemory.Segment.WriteSubscription | src/slamware_sdk/include/rpos/system/shared_memory/shm_topic.h:162 | writing through a live handle replaces that subscription record and no other |
| SharedMemory.Segment.DestroyPayload | src/slamware_sdk/include/rpos/system/shared_memory/shared_memory.h:76-84 | destroying a live handle removes exactly that payload and nothing else |
| SharedMemory.Segment.DestroySubscriptionData | src/slamware_sdk/include/rpos/system/shared_memory/shared_memory.h:76-84 | destroying a handle removes exactly that subscription record |
| SharedMemory.Segment.DestroyTopicRecord | src/slamware_sdk/include/rpos/system/shared_memory/shared_memory.h:86-90 | destroying a topic record removes exactly the entries that point to it |
| SharedMemory.WithoutRecord | src/slamware_sdk/include/rpos/system/shared_memory/shared_memory.h:86-90 | the records left after freeing one are exactly those that do not point to it, unchanged |
| SharedMemory.TopicMgrData.constructor | src/slamware_sdk/include/rpos/system/shared_memory/shared_memory.h:17-25 | a new topic directory is empty and has never been locked |
| TopicRecord.TopicData.constructor | src/slamware_sdk/include/rpos/system/shared_memory/shm_topic.h:17-39 | a new topic record is not disposing and has no subscribers, no log, no recycled slots and a zero counter |
| TopicSpec.RetireFirst | src/slamware_sdk/include/rpos/system/shared_memory/shm_topic.h:412-423 | retiring drops the front entry of the log and nothing else of the topic or the subscriptions |
| TopicSpec.RetireUpTo | src/slamware_sdk/include/rpos/system/shared_memory/shm_topic.h:315-318 | the popping loop leaves a suffix of the log; every dropped entry is at or below the mark, and the new front entry, if any, is above it |
| TopicSpec.Watermark | src/slamware_sdk/include/rpos/system/shared_memory/shm_topic.h:305-313 | the watermark is the least of the counter and the cursors of the live subscribers: below or equal to each, and equal to one of them |
| TopicSpec.RetireMessages | src/slamware_sdk/include/rpos/system/shared_memory/shm_topic.h:303-319 | retirement leaves a suffix of the log and changes no other field of the topic or of the subscriptions |
| TopicSpec.EvictFull | src/slamware_sdk/include/rpos/system/shared_memory/shm_topic.h:261-264 | a log at the 10000-entry cap is cut to 9999 newest entries before an append; a shorter log is left alone |
| TopicSpec.ExpiredSubscriptions | src/slamware_sdk/include/rpos/system/shared_memory/shm_topic.h:338-344 | the subscriptions the sweep removes are exactly the listed ones whose record exists and has been idle longer than its timeout |
| TopicSpec.LiveSubscriptions | src/slamware_sdk/include/rpos/system/shared_memory/shm_topic.h:338-344 | the subscriptions the sweep keeps are exactly the listed ones whose record exists and has not expired |
| TopicSpec.Sweep | src/slamware_sdk/include/rpos/system/shared_memory/shm_topic.h:320-353 | the sweep keeps exactly the listed subscriptions whose record exists and has not expired (a listed handle with no record is dropped, see "## Left out"), destroys exactly the expired records, leaves a suffix of the log, and retires entries only on a Queue topic that lost a subscriber |
| TopicSpec.TakeSlot | src/slamware_sdk/include/rpos/system/shared_memory/shm_topic.h:244-260 | a publish takes the most recently recycled slot, or a fresh one, without touching the log |
| TopicSpec.Bumped | src/slamware_sdk/include/rpos/system/shared_memory/shm_topic.h:232 | the counter rises by one and nothing else changes |
| TopicSpec.LookupNext | src/slamware_sdk/include/rpos/system/shared_memory/shm_topic.h:269-291 | the lookup yields a position within the log or its end; `TopicProps.LookupNextContiguous` relates it to the reference definition |
| TopicSpec.NewestUnseen | src/slamware_sdk/include/rpos/system/shared_memory/shm_topic.h:152-166 | an AtMostOnce reader is handed the newest entry exactly when the log is not empty and its cursor is not already on that entry |
| TopicSpec.Consume | src/slamware_sdk/include/rpos/system/shared_memory/shm_topic.h:180-182 | after a read the reader's cursor moves to the entry read, if one was read, and its activity time becomes now; other readers are untouched and the log keeps a suffix of itself; nothing is retired on a Singleton topic or when nothing was read |
| TopicSpec.Unsubscribe | src/slamware_sdk/include/rpos/system/shared_memory/shm_topic.h:214-220 | the handle leaves the subscriber set and, if it was listed, its record is destroyed; the log keeps a suffix of itself, and stays as it was on a Singleton topic or for an unknown handle |
| TopicSpec.DropSubscriber | src/slamware_sdk/include/rpos/system/shared_memory/shm_topic.h:292-302 | retiring a subscription removes its handle from the set and its record from the segment and changes nothing else |
| TopicSpec.RetireFirstKeeps | src/slamware_sdk/include/rpos/system/shared_memory/shm_topic.h:412-423 | retiring the front entry keeps the segment invariant, and every live payload that the topic does not own stays live and unowned |
| TopicSpec.RetireFirstRecycles | src/slamware_sdk/include/rpos/system/shared_memory/shm_topic.h:412-423 | the retired front slot leaves the log; it is appended to the recycle bin with every payload kept while the bin has room, and otherwise it is freed and owned by nothing |
| TopicSpec.RetireUpToKeeps | src/slamware_sdk/include/rpos/system/shared_memory/shm_topic.h:315-318 | the popping loop keeps the segment invariant |
| TopicSpec.RetireMessagesKeeps | src/slamware_sdk/include/rpos/system/shared_memory/shm_topic.h:303-319 | retirement keeps the segment invariant |
| TopicSpec.EvictFullKeeps | src/slamware_sdk/include/rpos/system/shared_memory/shm_topic.h:261-264 | eviction keeps the segment invariant and leaves room for one entry |
| TopicSpec.SweepKeeps | src/slamware_sdk/include/rpos/system/shared_memory/shm_topic.h:320-353 | the timeout sweep keeps the segment invariant |
| TopicSpec.OverwriteKeeps | src/slamware_sdk/include/rpos/system/shared_memory/shm_topic.h:233-242 | a Singleton overwrite keeps the segment invariant |
| TopicSpec.TakeSlotKeeps | src/slamware_sdk/include/rpos/system/shared_memory/shm_topic.h:244-260 | taking a slot keeps the invariant, and the slot is live, holds the payload and is owned by nothing else |
| TopicSpec.AppendKeeps | src/slamware_sdk/include/rpos/system/shared_memory/shm_topic.h:265 | appending an entry above the log's newest, into an unowned live slot, keeps the invariant |
| TopicSpec.AppendPathKeeps | src/slamware_sdk/include/rpos/system/shared_memory/shm_topic.h:244-266 | the appending path of a publish keeps the invariant |
| TopicSpec.AppendAfterEvictKeeps | src/slamware_sdk/include/rpos/system/shared_memory/shm_topic.h:261-265 | appending right after eviction keeps the invariant even at the size cap |
| TopicSpec.BumpedKeeps | src/slamware_sdk/include/rpos/system/shared_memory/shm_topic.h:232 | bumping the counter keeps the invariant |
| TopicSpec.PublishKeeps | src/slamware_sdk/include/rpos/system/shared_memory/shm_topic.h:223-268 | every publish, on both paths and whether allocation succeeds or not, keeps the segment invariant |
| TopicSpec.SubscribeKeeps | src/slamware_sdk/include/rpos/system/shared_memory/shm_topic.h:85-108 | subscribing keeps the segment invariant |
| TopicSpec.ConsumeKeeps | src/slamware_sdk/include/rpos/system/shared_memory/shm_topic.h:180-182 | the bookkeeping after a read keeps the invariant |
| TopicSpec.ReadKeeps | src/slamware_sdk/include/rpos/system/shared_memory/shm_topic.h:143-184 | a read keeps the segment invariant |
| TopicSpec.ReadAllKeeps | src/slamware_sdk/include/rpos/system/shared_memory/shm_topic.h:186-212 | draining keeps the segment invariant |
| TopicSpec.UnsubscribeKeeps | src/slamware_sdk/include/rpos/system/shared_memory/shm_topic.h:214-220 | unsubscribing keeps the segment invariant |
| TopicSpec.DestroyContentsKeeps | src/slamware_sdk/include/rpos/system/shared_memory/shm_topic.h:132-137 | destroying subscriptions, log and recycle bin keeps the invariant and leaves the topic owning nothing |
| TopicProps.FirstAfter | src/slamware_sdk/include/rpos/system/shared_memory/shm_topic.h:269-291 | the reference definition of what the lookup should find: the first entry newer than the cursor, all before it being at or below it |
| TopicProps.LookupNextContiguous | src/slamware_sdk/include/rpos/system/shared_memory/shm_topic.h:269-291 | on a gap-free log the offset arithmetic of the lookup finds exactly the first entry newer than the cursor |
| TopicProps.GapMakesLookupSkip | src/slamware_sdk/include/rpos/system/shared_memory/shm_topic.h:281-290 | on a log with a gap the lookup lands past the first entry newer than the cursor and hands out a later one |
| TopicProps.ConsecutiveOffset | src/slamware_sdk/include/rpos/system/shared_memory/shm_topic.h:286-289 | on a gap-free log each entry's number is the front's number plus its position, which the lookup's offset arithmetic relies on |
| TopicProps.SuffixContiguous | src/slamware_sdk/include/rpos/system/shared_memory/shm_topic.h:303-319 | removing entries from the front keeps the log gap-free and ending at the counter |
| TopicProps.RetireMessagesKeepsUnread | src/slamware_sdk/include/rpos/system/shared_memory/shm_topic.h:303-319 | retirement drops only entries that every live subscriber has consumed and keeps every entry some live subscriber has not read |
| TopicProps.RetireWithoutSubscribersEmpties | src/slamware_sdk/include/rpos/system/shared_memory/shm_topic.h:303-319 | a topic with no subscribers ends retirement with an empty log |
| TopicProps.RetireMessagesFront | src/slamware_sdk/include/rpos/system/shared_memory/shm_topic.h:315-318 | the front entry left by retirement is newer than the counter or than some live subscriber's cursor |
| TopicProps.Stamp | src/slamware_sdk/include/rpos/system/shared_memory/shm_topic.h:231 | a message keeps its own timestamp unless that is the invalid timestamp, in which case it is stamped now |
| TopicProps.OverwriteSingleton | src/slamware_sdk/include/rpos/system/shared_memory/shm_topic.h:235-240 | the overwrite keeps the one entry's slot, gives it the new number and time and stores the new payload there, and the following sweep leaves a Singleton topic's log, bin and payloads alone |
| TopicProps.SingletonPublishOverwrites | src/slamware_sdk/include/rpos/system/shared_memory/shm_topic.h:233-242 | a Singleton publish always succeeds and rewrites the one entry in place with the next number, the stamped time and the new payload |
| TopicProps.PublishAllocFailure | src/slamware_sdk/include/rpos/system/shared_memory/shm_topic.h:244-251 | an appending publish with no slot to reuse or allocate fails, having bumped the counter, and changes nothing else |
| TopicProps.PublishAllocFailureLeavesGap | src/slamware_sdk/include/rpos/system/shared_memory/shm_topic.h:232-251 | that failed publish leaves a gap-free log no longer ending at the counter |
| TopicProps.SweepQuiet | src/slamware_sdk/include/rpos/system/shared_memory/shm_topic.h:320-353 | when no subscription has expired the sweep leaves the log, the recycle bin and the payloads alone |
| TopicProps.AppendPathShape | src/slamware_sdk/include/rpos/system/shared_memory/shm_topic.h:244-265 | the appending path writes into the last recycled slot or a fresh one and leaves the surviving log followed by the new entry |
| TopicProps.QueuePublishAppends | src/slamware_sdk/include/rpos/system/shared_memory/shm_topic.h:244-266 | with a slot to be had and no subscription expiring, a Queue publish succeeds and appends exactly the new entry after the surviving log, the bin losing its last slot if it had one |
| TopicProps.QueuePublishStores | src/slamware_sdk/include/rpos/system/shared_memory/shm_topic.h:244-260 | that publish leaves the payload stored in the slot it took |
| TopicProps.AppendPathStores | src/slamware_sdk/include/rpos/system/shared_memory/shm_topic.h:244-265 | the slot the appending path takes holds the new payload after eviction and append |
| TopicProps.PayloadsKeptByEvict | src/slamware_sdk/include/rpos/system/shared_memory/shm_topic.h:261-264 | eviction never touches a live payload the topic does not own |
| TopicProps.AppendPathContiguous | src/slamware_sdk/include/rpos/system/shared_memory/shm_topic.h:261-265 | appending the next number after eviction keeps the log gap-free |
| TopicProps.PublishKeepsContiguous | src/slamware_sdk/include/rpos/system/shared_memory/shm_topic.h:223-268 | every successful publish keeps the log gap-free and ending at the counter |
| TopicProps.OverwritePathContiguous | src/slamware_sdk/include/rpos/system/shared_memory/shm_topic.h:233-242 | a Singleton overwrite leaves a one-entry log ending at the counter |
| TopicProps.SubscribeEffect | src/slamware_sdk/include/rpos/system/shared_memory/shm_topic.h:85-108 | subscribing fails exactly while disposing or when no record can be allocated, changing nothing; otherwise only the new handle joins, its cursor at the counter and its activity time now |
| TopicProps.NewSubscriberSeesNoHistory | src/slamware_sdk/include/rpos/system/shared_memory/shm_topic.h:104-105 | a new All subscriber's first read finds nothing, and so does a new AtMostOnce subscriber's while the log ends at the counter |
| TopicProps.GapShowsOldMessageToNewSubscriber | src/slamware_sdk/include/rpos/system/shared_memory/shm_topic.h:152-166 | after a failed publish a new AtMostOnce subscriber is handed a message published before it subscribed |
| TopicProps.ReadUnknown | src/slamware_sdk/include/rpos/system/shared_memory/shm_topic.h:145-150 | a read on a handle the topic does not know returns nothing and changes nothing |
| TopicProps.AtMostOnceReadsNewest | src/slamware_sdk/include/rpos/system/shared_memory/shm_topic.h:152-166 | an AtMostOnce reader is handed the newest entry exactly when its cursor is not on it, and its cursor then moves there |
| TopicProps.AtMostOnceSecondReadFails | src/slamware_sdk/include/rpos/system/shared_memory/shm_topic.h:152-166 | a second AtMostOnce read with no publish in between returns nothing |
| TopicProps.AllReadReturnsNext | src/slamware_sdk/include/rpos/system/shared_memory/shm_topic.h:167-178 | on a gap-free log an All reader is handed the entry after its cursor, or the oldest entry when its cursor predates the log, and moves its cursor to it |
| TopicProps.NextUnseenContiguous | src/slamware_sdk/include/rpos/system/shared_memory/shm_topic.h:269-291 | on a gap-free log there is an entry to hand out exactly when the newest entry is newer than the cursor, and it is the entry numbered one past the cursor or the oldest |
| TopicProps.FirstAfterSplits | src/slamware_sdk/include/rpos/system/shared_memory/shm_topic.h:196-201 | on an increasing log the entries from the lookup position on are exactly the entries newer than the cursor |
| TopicProps.ReadAllReturnsUnread | src/slamware_sdk/include/rpos/system/shared_memory/shm_topic.h:186-212 | on a gap-free log draining hands over exactly the entries newer than the cursor, in log order, and moves the cursor to the newest |
| TopicProps.ReadAllStep | src/slamware_sdk/include/rpos/system/shared_memory/shm_topic.h:186-212 | one drain hands over the log from the lookup position on, keeps the reader, moves its cursor to the newest entry if anything was handed over, and leaves a suffix of the log |
| TopicProps.NothingAfterNewest | src/slamware_sdk/include/rpos/system/shared_memory/shm_topic.h:283-284 | once the cursor is on the newest entry the lookup finds nothing |
| TopicProps.ReadAllDrains | src/slamware_sdk/include/rpos/system/shared_memory/shm_topic.h:186-212 | a second drain with no publish in between hands over nothing |
| TopicProps.QueuePublishFits | src/slamware_sdk/include/rpos/system/shared_memory/shm_topic.h:244-266 | a Queue publish into a log that is not full, with no subscriber timed out and allocation succeeding, appends the stamped entry with the next sequence number, writes only the slot it took, and leaves the subscribers alone |
| TopicProps.NextSlotUnlogged | src/slamware_sdk/include/rpos/system/shared_memory/shm_topic.h:244-259 | the slot a publish takes (the last recycled one, or a fresh handle) is never one the log still uses |
| TopicProps.QueuePublishesAppend | src/slamware_sdk/include/rpos/system/shared_memory/shm_topic.h:223-268 | after any run of successful Queue publishes that never fills the log, with no subscriber timed out, the old log is followed by one entry per publish in publish order, numbered on from the counter, each slot holding its payload, and the invariant and the subscribers are kept |
| TopicProps.QueuePublishesReadBack | src/slamware_sdk/include/rpos/system/shared_memory/shm_topic.h:186-212 | a subscriber whose cursor is at the counter drains, after such a run on a gap-free log, exactly the published payloads in publish order, with consecutive sequence numbers and their timestamps |
| TopicProps.ReadsKeepContiguous | src/slamware_sdk/include/rpos/system/shared_memory/shm_topic.h:143-220 | reads, drains, unsubscribes and the timeout sweep never introduce a gap |
| TopicProps.SweptSubscriptionCannotRead | src/slamware_sdk/include/rpos/system/shared_memory/shm_topic.h:338-345 | an expired subscription removed by the sweep can no longer read |
| TopicProps.UnsubscribeIdempotent | src/slamware_sdk/include/rpos/system/shared_memory/shm_topic.h:214-220 | unsubscribing twice is the same as unsubscribing once |
| Topic.Locked | src/slamware_sdk/include/rpos/system/shared_memory/shm_topic.h:386 | taking the lock changes only the last lock time |
| Topic.Disposing | src/slamware_sdk/include/rpos/system/shared_memory/shm_topic.h:124 | marking the topic disposing changes only the flag |
| Topic.LockedKeeps | src/slamware_sdk/include/rpos/system/shared_memory/shm_topic.h:386 | taking the lock keeps the segment invariant |
| Topic.WatermarkUnique | src/slamware_sdk/include/rpos/system/shared_memory/shm_topic.h:305-313 | any value below or equal to all cursors and the counter and equal to one of them is the watermark, so the order in which the loop visits subscribers does not matter |
| Topic.CopyOut | src/slamware_sdk/include/rpos/system/shared_memory/shm_topic.h:196-201 | the drained entries are copied out in order, each as its payload and timestamp |
| Topic.ShmTopic.constructor | src/slamware_sdk/include/rpos/system/shared_memory/shm_topic.h:74-79 | a topic accessor is bound to its record and segment with the recycle-bin capacity derived from the payload size |
| Topic.ShmTopic.DoTimedLock | src/slamware_sdk/include/rpos/system/shared_memory/shm_topic.h:362-393 | the lock is taken exactly as `TimedLock` decides, and only the last lock time changes |
| Topic.ShmTopic.DoTryLock | src/slamware_sdk/include/rpos/system/shared_memory/shm_topic.h:395-411 | the lock is taken, and an exception escapes, exactly as `TryLock` decides; only the last lock time changes |
| Topic.ShmTopic.RetireFirstMessage | src/slamware_sdk/include/rpos/system/shared_memory/shm_topic.h:412-423 | the topic and segment move exactly as `TopicSpec.RetireFirst` says |
| Topic.ShmTopic.RetireMessages | src/slamware_sdk/include/rpos/system/shared_memory/shm_topic.h:303-319 | the topic and segment move exactly as `TopicSpec.RetireMessages` says |
| Topic.ShmTopic.DropExpired | src/slamware_sdk/include/rpos/system/shared_memory/shm_topic.h:325-350 | the subscriber set becomes exactly the unexpired listed subscriptions with a record (a listed handle with no record is dropped, see "## Left out"), exactly the expired ones are destroyed, and it reports whether any was |
| Topic.ShmTopic.RetireSubscriptions | src/slamware_sdk/include/rpos/system/shared_memory/shm_topic.h:320-353 | the topic and segment move exactly as `TopicSpec.Sweep` says |
| Topic.ShmTopic.OverwriteFront | src/slamware_sdk/include/rpos/system/shared_memory/shm_topic.h:233-242 | the one entry is rewritten as `TopicSpec.Overwrite` says |
| Topic.ShmTopic.TakeSlotFor | src/slamware_sdk/include/rpos/system/shared_memory/shm_topic.h:244-259 | the last recycled slot is reused, or a fresh one is allocated when the bin is empty; a failed allocation leaves the world unchanged; otherwise world and handle are `TopicSpec.TakeSlot` |
| Topic.ShmTopic.EvictFullLog | src/slamware_sdk/include/rpos/system/shared_memory/shm_topic.h:261-264 | the log is cut as `TopicSpec.EvictFull` says |
| Topic.ShmTopic.AppendMessage | src/slamware_sdk/include/rpos/system/shared_memory/shm_topic.h:265 | the pushed entry becomes the last of the log and nothing else changes |
| Topic.ShmTopic.AppendEntry | src/slamware_sdk/include/rpos/system/shared_memory/shm_topic.h:244-265 | a slot is found exactly when the bin is not empty or allocation succeeds, and then the entry is appended after eviction; otherwise nothing changes |
| Topic.ShmTopic.AppendAndSweep | src/slamware_sdk/include/rpos/system/shared_memory/shm_topic.h:244-266 | as `AppendEntry`, followed by the timeout sweep |
| Topic.ShmTopic.PublishOverwrite | src/slamware_sdk/include/rpos/system/shared_memory/shm_topic.h:231-242 | the Singleton path moves the state exactly as `TopicSpec.OverwritePath` says |
| Topic.ShmTopic.PublishAppend | src/slamware_sdk/include/rpos/system/shared_memory/shm_topic.h:231-267 | the appending path moves the state and reports success exactly as `TopicSpec.AppendPath` says |
| Topic.ShmTopic.BumpSeq | src/slamware_sdk/include/rpos/system/shared_memory/shm_topic.h:232 | the counter rises by one and nothing else changes |
| Topic.ShmTopic.PublishLocked | src/slamware_sdk/include/rpos/system/shared_memory/shm_topic.h:231-267 | with the lock held, the publish does exactly what `TopicSpec.Publish` says |
| Topic.ShmTopic.PublishHeld | src/slamware_sdk/include/rpos/system/shared_memory/shm_topic.h:231-267 | with the lock held, the publish does exactly what `TopicSpec.Publish` says and keeps the invariant |
| Topic.ShmTopic.DoPublish | src/slamware_sdk/include/rpos/system/shared_memory/shm_topic.h:223-268 | a publish fails without effect beyond the lock time when the lock is not taken, and otherwise does exactly what `TopicSpec.Publish` says |
| Topic.ShmTopic.Publish | src/slamware_sdk/include/rpos/system/shared_memory/shm_topic.h:110-113 | publishing a bare payload stamps it with the invalid timestamp, so the current time is used |
| Topic.ShmTopic.PublishMessage | src/slamware_sdk/include/rpos/system/shared_memory/shm_topic.h:114-117 | publishing a message passes its own timestamp |
| Topic.ShmTopic.Subscribe | src/slamware_sdk/include/rpos/system/shared_memory/shm_topic.h:85-108 | no subscription without the lock; otherwise the state moves as `TopicSpec.Subscribe` says and a returned subscription's handle is new and listed |
| Topic.ShmTopic.SubscribeHeld | src/slamware_sdk/include/rpos/system/shared_memory/shm_topic.h:93-107 | with the lock held, subscribing does exactly what `TopicSpec.Subscribe` says |
| Topic.ShmTopic.ReadLocked | src/slamware_sdk/include/rpos/system/shared_memory/shm_topic.h:143-184 | with the lock held, the read returns the payload and timestamp of the entry `TopicSpec.Read` selects and moves the state as it says |
| Topic.ShmTopic.ConsumeLocked | src/slamware_sdk/include/rpos/system/shared_memory/shm_topic.h:180-182 | the bookkeeping after a read does exactly what `TopicSpec.Consume` says |
| Topic.ShmTopic.ReadAllLocked | src/slamware_sdk/include/rpos/system/shared_memory/shm_topic.h:186-212 | with the lock held, draining returns the payloads and timestamps of the entries `TopicSpec.ReadAll` selects, in order, and moves the state as it says |
| Topic.ShmTopic.RetireSubscription | src/slamware_sdk/include/rpos/system/shared_memory/shm_topic.h:292-302 | a listed handle is removed from the set with its record destroyed; an unlisted one changes nothing |
| Topic.ShmTopic.UnsubscribeLocked | src/slamware_sdk/include/rpos/system/shared_memory/shm_topic.h:214-220 | with the lock held, unsubscribing does exactly what `TopicSpec.Unsubscribe` says |
| Topic.ShmTopic.DestroyPayloads | src/slamware_sdk/include/rpos/system/shared_memory/shm_topic.h:426-435 | exactly the given payload slots are freed |
| Topic.ShmTopic.DestroyMessages | src/slamware_sdk/include/rpos/system/shared_memory/shm_topic.h:424-436 | the log and the recycle bin are emptied and exactly the slots they owned are freed |
| Topic.ShmTopic.DestroySubscriptionRecords | src/slamware_sdk/include/rpos/system/shared_memory/shm_topic.h:132-136 | exactly the given subscription records are destroyed |
| Topic.ShmTopic.Destroy | src/slamware_sdk/include/rpos/system/shared_memory/shm_topic.h:122-141 | the topic is marked disposing; without the lock it stops there; with it, subscriptions, log and bin are destroyed, the record freed and the accessor detached |
| Topic.ShmSubscription.constructor | src/slamware_sdk/include/rpos/system/shared_memory/shm_subscription.h:46-49 | a subscription accessor is bound to its handle and topic |
| Topic.ShmSubscription.Read | src/slamware_sdk/include/rpos/system/shared_memory/shm_subscription.h:55-67 | a detached subscription reads nothing; otherwise nothing without the lock, else exactly what `TopicSpec.Read` gives |
| Topic.ShmSubscription.TryRead | src/slamware_sdk/include/rpos/system/shared_memory/shm_subscription.h:69-81 | as `Read`, behind the one-shot lock; an exception from the lock escapes exactly as `TryLock` decides, and then nothing is read and the topic is unchanged |
| Topic.ShmSubscription.ReadAll | src/slamware_sdk/include/rpos/system/shared_memory/shm_subscription.h:83-95 | a detached subscription drains nothing; otherwise nothing without the lock, else exactly what `TopicSpec.ReadAll` gives |
| Topic.ShmSubscription.Unsubscribe | src/slamware_sdk/include/rpos/system/shared_memory/shm_subscription.h:97-107 | the accessor is detached; when the topic lock is taken the state moves as `TopicSpec.Unsubscribe` says |
| TopicManager.EraseKeeps | src/slamware_sdk/include/rpos/system/shared_memory/shm_topic_manager.h:79 | erasing a directory entry keeps the directory consistent |
| TopicManager.EraseAndFreeKeeps | src/slamware_sdk/include/rpos/system/shared_memory/shm_topic_manager.h:66-91 | erasing a topic's entry and freeing its record keeps the directory consistent |
| TopicManager.FreeWithoutEraseDangles | src/slamware_sdk/include/rpos/system/shared_memory/shm_topic_manager.h:93-108 | freeing a listed topic's record without erasing its entry leaves a dangling entry |
| TopicManager.ShmTopicManager.constructor | src/slamware_sdk/include/rpos/system/shared_memory/shm_topic_manager.h:16 | a manager is bound to its directory and segment |
| TopicManager.ShmTopicManager.ContainsTopic | src/slamware_sdk/include/rpos/system/shared_memory/shm_topic_manager.h:18-22 | a name is found exactly when the directory lists it |
| TopicManager.ShmTopicManager.DoTimedLock | src/slamware_sdk/include/rpos/system/shared_memory/shm_topic_manager.h:110-124 | the directory lock is taken exactly as `DirectoryLock` decides, and its lock time moves accordingly |
| TopicManager.ShmTopicManager.GetOrCreateTopic | src/slamware_sdk/include/rpos/system/shared_memory/shm_topic_manager.h:35-64 | no topic without the lock; a listed name yields its existing record whatever the QoS; an unlisted name gets a new empty record and entry exactly when allocation succeeds |
| TopicManager.ShmTopicManager.OpenTopic | src/slamware_sdk/include/rpos/system/shared_memory/shm_topic_manager.h:27-28 | the topic a subscription opens is listed under the name, bound to its record, and valid |
| TopicManager.ShmTopicManager.Subscribe | src/slamware_sdk/include/rpos/system/shared_memory/shm_topic_manager.h:24-33 | no subscription without the directory lock; a returned one is new, listed by the named topic's record |
| TopicManager.ShmTopicManager.DeleteTopicNamed | src/slamware_sdk/include/rpos/system/shared_memory/shm_topic_manager.h:66-91 | the entry is erased exactly when the directory lock is taken; the topic is then destroyed, or only marked disposing, with its record kept, when its lock fails |
| TopicManager.ShmTopicManager.DeleteTopic | src/slamware_sdk/include/rpos/system/shared_memory/shm_topic_manager.h:93-108 | the topic is destroyed or only marked disposing as its lock decides, and the entry is erased exactly when the directory lock is taken |
| Service.StartReportsRunning | src/slamware_sdk/include/rpos/context/base_service.h:79-113 | `start` reports true exactly when the service ends Running, and throws exactly when found in a transient state or when its hook throws |
| Service.StopReportsStopped | src/slamware_sdk/include/rpos/context/base_service.h:115-149 | `stop` reports true exactly when the service ends Stopped, and throws exactly when found in a transient state or when its hook throws |
| Service.StartStopIdempotent | src/slamware_sdk/include/rpos/context/base_service.h:83-86 | after a successful `start` another `start` changes nothing and reports true; likewise `stop` |
| Service.FailedHookRollsBack | src/slamware_sdk/include/rpos/context/base_service.h:95-99 | a hook reporting failure rolls the status back to the stable state it started from |
| Service.StableStaysStable | src/slamware_sdk/include/rpos/context/base_service.h:79-149 | unless a hook throws, every `start` and `stop` from a stable state ends in a stable state |
| Service.RaisingHookWedges | src/slamware_sdk/include/rpos/context/base_service.h:87-95 | a throwing `onStart` leaves the service in StartingUp and a throwing `onStop` leaves it in Stopping; after that every `start` and `stop` throws and changes nothing |
| Service.StartStopRoundTrip | src/slamware_sdk/include/rpos/context/base_service.h:79-149 | from either resting state, with hooks that do not throw, start then stop (and stop then start) never throws and ends resting; the second call reports true exactly when it reaches its target state; it misses it only when its own hook reported failure from the other state; a succeeding second hook always reaches it |
| Service.LoggerSource | src/slamware_sdk/include/rpos/context/base_service.h:44-52 | the logger source starts with the type name, ends with the id, and is the id itself exactly when the id already starts with the type name |
| Service.LoggerSourceIdempotent | src/slamware_sdk/include/rpos/context/base_service.h:44-52 | setting the logger source as the id again yields the same source |
| Service.BaseService.constructor | src/slamware_sdk/include/rpos/context/base_service.h:25-28 | a new service is Stopped, with no id, dependencies or interfaces, logging under its type name |
| Service.BaseService.SetId | src/slamware_sdk/include/rpos/context/base_service.h:44-52 | the id is stored and the logger source is the one `LoggerSource` picks |
| Service.BaseService.Start | src/slamware_sdk/include/rpos/context/base_service.h:79-113 | the status and outcome are those `StartStep` gives |
| Service.BaseService.Stop | src/slamware_sdk/include/rpos/context/base_service.h:115-149 | the status and outcome are those `StopStep` gives |
| Service.BaseService.Depends | src/slamware_sdk/include/rpos/context/base_service.h:153-161 | a dependency is appended exactly when the service is Stopped; otherwise the call throws and nothing changes |
| Service.BaseService.Provides | src/slamware_sdk/include/rpos/context/base_service.h:163-171 | an interface is appended exactly when the service is Stopped; otherwise the call throws and nothing changes |
| Service.BaseService.ClearDepends | src/slamware_sdk/include/rpos/context/base_service.h:179-183 | the dependencies are emptied in any status |
| Service.BaseService.ClearProvides | src/slamware_sdk/include/rpos/context/base_service.h:185-189 | the provided interfaces are emptied in any status |
| RosBase.LoadedConfig | src/ros_bridge/src/devices/ros_base.cpp:61-84 | the configuration is the file's bytes when a file is named and opens, and the default otherwise |
| RosBase.CopyConfigReadsBack | src/ros_bridge/src/devices/ros_base.cpp:24-33 | a copy fails exactly when the capacity is below the configuration's length; otherwise the buffer's prefix is the configuration, the rest is untouched and the reported size is its length |
| RosBase.RosBaseDevice.constructor | src/ros_bridge/src/devices/ros_base.cpp:13-17 | a new device holds a live manager and the configuration `LoadedConfig` settles on |
| RosBase.RosBaseDevice.InitBinaryConfig | src/ros_bridge/src/devices/ros_base.cpp:61-84 | the configuration becomes the one `LoadedConfig` gives |
| RosBase.RosBaseDevice.InitDefaultBinaryConfig | src/ros_bridge/src/devices/ros_base.cpp:86-89 | the configuration becomes the two-byte default |
| RosBase.RosBaseDevice.GetBinaryConfig | src/ros_bridge/src/devices/ros_base.cpp:24-33 | success exactly when both the buffer and the size are given and the capacity suffices; then the buffer and size are those `CopyConfig` gives; on failure nothing is written |
| RosBase.RosBaseDevice.RequestMotion | src/ros_bridge/src/devices/ros_base.cpp:35-41 | a request is published to the manager exactly when the manager is still alive |
| RosBase.RosBaseDevice.GetMovementEstimation | src/ros_bridge/src/devices/ros_base.cpp:43-49 | the manager's estimate is returned exactly when the manager is still alive; otherwise the output is left as it was |
| RosBase.RosBaseDevice.GetExtendedSensorData | src/ros_bridge/src/devices/ros_base.cpp:51-54 | reports success and leaves the data as it was |
| RosBase.RosBaseDevice.GetBaseStatus | src/ros_bridge/src/devices/ros_base.cpp:56-59 | reports success and leaves the status as it was |

## Left out

- Concurrency: the mutexes, the waiting inside `timed_lock` and cross-process interleaving are not modelled. Each operation runs alone, and a lock acquisition is a trace of attempts given as input.
- Clocks: an operation takes one clock reading (`now`) as a parameter. The source reads the clock several times within one operation: for the publish stamp, for the sweep, for the reader's activity time and after taking a lock.
- ShmLock.TimedLock: the new lock time is the time of the acquiring attempt, not a fresh clock reading taken after the lock is held.
- TopicSpec.Bumped: sequence numbers are unbounded integers; the 32-bit signed counter of the source would wrap after 2^31 - 1 publishes, and that wrap is not modelled.
- TopicSpec.Watermark: the truncation of `std::min<int32_t>` is not modelled; with unbounded sequence numbers it never applies.
- TopicSpec.Expired: the multiplication of the timeout by 1000 is unbounded; an overflow of the 32-bit product is not modelled.
- TopicSpec.LookupNext: where the source only asserts in debug builds that the computed offset lies within the log, the model clamps it to the end of the log, so nothing is handed out.
- SharedMemory.Segment.CreatePayload: handles come from a counter that never reuses a freed handle. The real allocator may hand out the address of a freed object again.
- Segment management: creating, opening, validating, reopening and heartbeating the shared segment are not modelled, nor are the segment's version check, its allocator, `getMemory` and the allocation of shared strings for directory keys.
- TopicManager.ShmTopicManager.GetOrCreateTopic: for a topic that already exists, the returned accessor is proved valid only when that topic's record satisfies the segment invariant. The directory does not carry the per-topic invariant of every listed topic, so callers state it (`Sound`) for the topic they use.
- TopicManager.ShmTopicManager.Subscribe: states that a returned subscription is new and listed by the named topic. The effect on the topic state is proved one level down, by `Topic.ShmTopic.Subscribe`, and is not restated here.
- TopicManager.ShmTopicManager.OpenTopic: states only what `Subscribe` needs of the opened topic; the full effect is the one `GetOrCreateTopic` states.
- SharedMemory.Segment.PayloadAt: in the source, `getAddressFromHandle` (shared_memory.h:52-56) adds an offset to the segment's base address and never returns null, so a freed handle dangles and any use of it is undefined behaviour. The model keeps freed handles apart and gives them a defined meaning instead. `PayloadAt` answers nothing, `DestroyPayload` removes nothing, and a listed subscription with no record is skipped by `TopicSpec.Watermark` and dropped by `TopicSpec.Sweep` and `Topic.ShmTopic.DropExpired`. So the null tests at shm_topic.h:309, shm_topic.h:331-336 and shared_memory.h:80, which never fire in the source, become live branches in the model. The topic invariant does not state that every listed subscription has a record, so nothing proves that branch unreachable.
- Topic.ShmSubscription.Read: a record freed through another accessor is not modelled as freed. `Destroy` nulls only the record of the accessor it is called on, as the source does (shm_topic.h:139-140). Every other accessor of the freed record, and every subscription through it, keeps working on a live, empty, disposing topic that still publishes and reads. In the source that accessor's record dangles, for instance after `deleteTopic(name)` (shm_topic_manager.h:86-90), and any later call through it is undefined behaviour. The same holds for `TryRead`, `ReadAll`, `Unsubscribe` and `Topic.ShmTopic.Publish`.
- Topic.ShmSubscription.Unsubscribe: the destructor is modelled by this method, since it only calls `unsubscribe`.
- Getters: `hasSubscription`, `getName` and `getMutex_` of the topic are not modelled. Neither are `getId`, `getType`, `getStatus`, `getProvides` and `getDependencies` of the service. They only read a field.
- Service.BaseService.Provides: the templated `provides<T>()` adds the type index of `T`. The model passes the interface value itself.
- Payload types: payloads are a type parameter. The concrete message structures (laser scans, map frames and the like) and their copy semantics are not modelled.
- Logging: log output from the broker, the service and the device is not modelled.
- RosBase.RosBaseDevice.InitBinaryConfig: reading the file is not modelled. Whether it opens, and the bytes it yields, are inputs.
- RosBase.RosBaseDevice.RequestMotion: the devices manager is reduced to the list of motions it received and the estimate it reports. Its own behaviour is not part of this model.
- RosBase.RosBaseDevice.GetMovementEstimation: the expiry of the weak reference to the manager is a flag that does not change during a call.
