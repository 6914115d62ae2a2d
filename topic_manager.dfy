/** `ShmTopicManager`: the directory of topics by name, guarded by its own
    lock. A directory lock that throws is reported as a failed attempt; the
    operations that catch the exception then return without effect. */
module TopicManager {
  import opened ShmDefs
  import opened ShmLock
  import opened TopicSpec
  import opened TopicRecord
  import opened SharedMemory
  import opened Topic

  /** Every directory entry names a live record carrying that name, so no
      two names share a record. */
  ghost predicate DirectoryOk(topics: map<string, Handle>, records: map<Handle, TopicData>)
  {
    forall name :: name in topics ==> topics[name] in records && records[topics[name]].name == name
  }

  /** Erasing a name keeps the directory sound. */
  lemma EraseKeeps(topics: map<string, Handle>, records: map<Handle, TopicData>, name: string)
    requires DirectoryOk(topics, records)
    ensures DirectoryOk(topics - {name}, records)
  {
  }

  /** Erasing a name and then freeing its record keeps the directory sound:
      every other entry names a record with another name. */
  lemma EraseAndFreeKeeps(topics: map<string, Handle>, records: map<Handle, TopicData>, d: TopicData)
    requires DirectoryOk(topics, records)
    ensures DirectoryOk(topics - {d.name}, WithoutRecord(records, d))
  {
  }

  /** Freeing a record whose name stays listed under it breaks the
      directory: the entry is left dangling. */
  lemma FreeWithoutEraseDangles(topics: map<string, Handle>, records: map<Handle, TopicData>, d: TopicData)
    requires DirectoryOk(topics, records) && d.name in topics && records[topics[d.name]] == d
    ensures !DirectoryOk(topics, WithoutRecord(records, d))
  {
  }

  class ShmTopicManager<P> {
    const data: TopicMgrData
    const seg: Segment<P>
    const payloadSize: nat

    constructor (data: TopicMgrData, seg: Segment<P>, payloadSize: nat)
      ensures this.data == data && this.seg == seg && this.payloadSize == payloadSize
    {
      this.data := data;
      this.seg := seg;
      this.payloadSize := payloadSize;
    }

    /** The segment is consistent and the directory sound. */
    ghost predicate Valid()
      reads this, data, seg
    {
      && seg.Valid()
      && payloadSize > 0
      && DirectoryOk(data.topics, seg.records)
    }

    /** The record of a listed topic satisfies the topic invariant. */
    ghost predicate Sound(name: string)
      reads this, data, seg, seg.records.Values
      requires Valid() && name in data.topics
    {
      var d := seg.records[data.topics[name]];
      Inv(World(d.State(), seg.payloads, seg.subs, seg.next), MaxTrashSize(payloadSize))
    }

    /** `containsTopic`. */
    method ContainsTopic(name: string) returns (found: bool)
      ensures found <==> name in data.topics
    {
      found := name in data.topics;
    }

    /** `doTimedLock` of the directory: waits through any number of
        timeouts, force-unlocking after each stale one; `ok` is false when
        an attempt throws. */
    method DoTimedLock(attempts: seq<LockAttempt>) returns (ok: bool)
      requires Ends(attempts)
      modifies data`lastLockTime
      ensures ok == DirectoryLock(attempts, old(data.lastLockTime)).acquired
      ensures data.lastLockTime == DirectoryLock(attempts, old(data.lastLockTime)).lockTime
    {
      var i := 0;
      while attempts[i].TimedOut?
        invariant 0 <= i < |attempts| && Ends(attempts[i..])
        invariant data.lastLockTime == old(data.lastLockTime)
        invariant DirectoryLock(attempts[i..], data.lastLockTime).acquired == DirectoryLock(attempts, data.lastLockTime).acquired
        invariant DirectoryLock(attempts[i..], data.lastLockTime).lockTime == DirectoryLock(attempts, data.lastLockTime).lockTime
        decreases |attempts| - i
      {
        assert attempts[i..][1..] == attempts[i + 1..];
        i := i + 1;
      }
      if attempts[i].Threw? {
        return false;
      }
      data.lastLockTime := attempts[i].at;
      ok := true;
    }

    /** `getOrCreateTopic`: under the directory lock, a listed name yields a
        handle on its existing record (whatever `qos` was asked for); an
        unlisted name gets a new record, listed under it. A lock or an
        allocation that throws yields nothing. */
    method GetOrCreateTopic(name: string, qos: TopicQos, attempts: seq<LockAttempt>, allocOk: bool)
      returns (topic: ShmTopic?<P>)
      requires Valid() && Ends(attempts)
      modifies data, seg`records, seg`next
      ensures Valid()
      ensures data.lastLockTime == DirectoryLock(attempts, old(data.lastLockTime)).lockTime
      ensures topic != null ==> fresh(topic) && topic.seg == seg && topic.maxTrash == MaxTrashSize(payloadSize)
      ensures !DirectoryLock(attempts, old(data.lastLockTime)).acquired ==>
                topic == null && data.topics == old(data.topics) && seg.records == old(seg.records) && seg.next == old(seg.next)
      ensures DirectoryLock(attempts, old(data.lastLockTime)).acquired && name in old(data.topics) ==>
                && topic != null && topic.data == old(seg.records[data.topics[name]])
                && data.topics == old(data.topics) && seg.records == old(seg.records) && seg.next == old(seg.next)
                && (old(Sound(name)) ==> topic.Valid())
      ensures DirectoryLock(attempts, old(data.lastLockTime)).acquired && name !in old(data.topics) ==>
                && (topic != null <==> allocOk)
                && (topic != null ==>
                      && fresh(topic.data) && topic.data.State() == TopicState(name, qos, false, {}, [], 0, 0, [])
                      && data.topics == old(data.topics)[name := old(seg.next)]
                      && seg.records == old(seg.records)[old(seg.next) := topic.data]
                      && topic.Valid())
                && (topic == null ==> data.topics == old(data.topics) && seg.records == old(seg.records) && seg.next == old(seg.next))
    {
      var locked := DoTimedLock(attempts);
      if !locked {
        return null;
      }
      var record: TopicData;
      if name in data.topics {
        record := seg.records[data.topics[name]];
      } else {
        var h, d := seg.ConstructTopicRecord(name, qos, allocOk);
        if d == null {
          return null;
        }
        record := d;
        data.topics := data.topics[name := h];
      }
      topic := new ShmTopic(record, seg, payloadSize);
    }

    /** `subscribe`: find or create the topic, then subscribe to it. */
    method Subscribe(name: string, qos: TopicQos, options: SubscriptionOptions, dirAttempts: seq<LockAttempt>,
                     topicAttempts: seq<LockAttempt>, now: int, allocTopic: bool, allocSub: bool)
      returns (sub: ShmSubscription?<P>)
      requires Valid() && Ends(dirAttempts) && Ends(topicAttempts)
      requires name in data.topics ==> Sound(name)
      modifies data, seg`records, seg`next, seg`subs
      modifies if name in data.topics then {seg.records[data.topics[name]]} else {}
      ensures Valid()
      ensures !DirectoryLock(dirAttempts, old(data.lastLockTime)).acquired ==> sub == null
      ensures sub != null ==>
                && fresh(sub) && sub.topic != null && sub.topic.data != null
                && name in data.topics && data.topics[name] in seg.records
                && sub.topic.data == seg.records[data.topics[name]]
                && sub.handle in sub.topic.data.subscriptions && sub.handle in seg.subs
                && sub.handle !in old(seg.subs)
    {
      var topic := OpenTopic(name, qos, dirAttempts, allocTopic);
      if topic == null {
        return null;
      }
      ghost var dirs, records := data.topics, seg.records;
      sub := topic.Subscribe(topicAttempts, options, now, allocSub);
      assert data.topics == dirs && seg.records == records;
    }

    /** `getOrCreateTopic` as `subscribe` relies on it: a topic handle,
        when there is one, is valid and names the record listed under
        `name`, which is either the one listed before or a fresh one. */
    method OpenTopic(name: string, qos: TopicQos, attempts: seq<LockAttempt>, allocOk: bool)
      returns (topic: ShmTopic?<P>)
      requires Valid() && Ends(attempts)
      requires name in data.topics ==> Sound(name)
      modifies data, seg`records, seg`next
      ensures Valid()
      ensures !DirectoryLock(attempts, old(data.lastLockTime)).acquired ==> topic == null
      ensures topic != null ==>
                && fresh(topic) && topic.seg == seg && topic.Valid()
                && name in data.topics && data.topics[name] in seg.records
                && topic.data == seg.records[data.topics[name]]
                && (fresh(topic.data) || (name in old(data.topics) && topic.data == old(seg.records[data.topics[name]])))
    {
      topic := GetOrCreateTopic(name, qos, attempts, allocOk);
    }
  
    /** `deleteTopic(name)`: under the directory lock, a listed name is
        erased and its record then destroyed through a topic handle. The
        entry is gone even when that destroy cannot take the topic lock, in
        which case the record stays allocated, marked disposing. A directory
        lock that throws changes nothing. */
    method DeleteTopicNamed(name: string, dirAttempts: seq<LockAttempt>, topicAttempts: seq<LockAttempt>)
      requires Valid() && Ends(dirAttempts) && Ends(topicAttempts)
      modifies data, seg`subs, seg`payloads, seg`records
      modifies if name in data.topics then {seg.records[data.topics[name]]} else {}
      ensures Valid()
      ensures data.topics == if DirectoryLock(dirAttempts, old(data.lastLockTime)).acquired
                             then old(data.topics) - {name} else old(data.topics)
      ensures !(DirectoryLock(dirAttempts, old(data.lastLockTime)).acquired && name in old(data.topics)) ==>
                seg.records == old(seg.records) && seg.payloads == old(seg.payloads) && seg.subs == old(seg.subs)
      ensures DirectoryLock(dirAttempts, old(data.lastLockTime)).acquired && name in old(data.topics) ==>
                var d := old(seg.records[data.topics[name]]);
                var w := World(old(d.State()), old(seg.payloads), old(seg.subs), old(seg.next));
                var o := TimedLock(topicAttempts, old(d.lastLockTime));
                && (!o.acquired ==> World(d.State(), seg.payloads, seg.subs, seg.next) == Disposing(w)
                                    && seg.records == old(seg.records))
                && (o.acquired ==>
                      && World(d.State(), seg.payloads, seg.subs, seg.next) == DestroyContents(Locked(Disposing(w), o.lockTime))
                      && seg.records == WithoutRecord(old(seg.records), d))
    {
      var locked := DoTimedLock(dirAttempts);
      if !locked || name !in data.topics {
        return;
      }
      var record := seg.records[data.topics[name]];
      ghost var topics, records := data.topics, seg.records;
      data.topics := data.topics - {name};
      var topic := new ShmTopic(record, seg, payloadSize);
      topic.Destroy(topicAttempts);
      EraseKeeps(topics, records, name);
      EraseAndFreeKeeps(topics, records, record);
    }

    /** `deleteTopic(topic)`: destroys the topic first, then erases its name
        under the directory lock. When that lock throws after a successful
        destroy, the entry is left naming a freed record (see
        `FreeWithoutEraseDangles`), so the directory is only known to stay
        sound otherwise. */
    method DeleteTopic(topic: ShmTopic<P>, dirAttempts: seq<LockAttempt>, topicAttempts: seq<LockAttempt>)
      requires Valid() && topic.data != null && topic.seg == seg && Ends(dirAttempts) && Ends(topicAttempts)
      modifies topic, topic.data, data, seg`subs, seg`payloads, seg`records
      ensures var o := TimedLock(topicAttempts, old(topic.data.lastLockTime));
              var dir := DirectoryLock(dirAttempts, old(data.lastLockTime));
              && data.topics == (if dir.acquired then old(data.topics) - {old(topic.data.name)} else old(data.topics))
              && (!o.acquired ==> topic.data == old(topic.data) && topic.Abs() == Disposing(old(topic.Abs()))
                                  && seg.records == old(seg.records))
              && (o.acquired ==>
                    && topic.data == null
                    && World(old(topic.data).State(), seg.payloads, seg.subs, seg.next)
                       == DestroyContents(Locked(Disposing(old(topic.Abs())), o.lockTime))
                    && seg.records == WithoutRecord(old(seg.records), old(topic.data)))
              && (dir.acquired || !o.acquired ==> Valid())
    {
      var record := topic.data;
      ghost var topics, records := data.topics, seg.records;
      topic.Destroy(topicAttempts);
      var locked := DoTimedLock(dirAttempts);
      if locked {
        data.topics := data.topics - {record.name};
        EraseKeeps(topics, records, record.name);
        EraseAndFreeKeeps(topics, records, record);
      }
    }
  }
}
