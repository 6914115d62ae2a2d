/** `ShmTopic` and `ShmSubscription`: the process-local handles on a topic
    record and on one subscription to it. Each method changes the record and
    the segment in place; its contract ties the new state to the matching
    function of `TopicSpec` applied to the old state. */
module Topic {
  import opened ShmDefs
  import opened ShmLock
  import opened TopicSpec
  import opened TopicRecord
  import opened SharedMemory

  /** The world after a locking call that set `lastLockTime_` to `t`. */
  function Locked<P>(w: World<P>, t: int): (r: World<P>)
    ensures r.topic.lastLockTime == t
    ensures r.topic.(lastLockTime := w.topic.lastLockTime) == w.topic
    ensures r.payloads == w.payloads && r.subs == w.subs && r.next == w.next
  {
    w.(topic := w.topic.(lastLockTime := t))
  }

  /** The world once `destroy` has raised the disposing flag. */
  function Disposing<P>(w: World<P>): (r: World<P>)
    ensures r.topic.disposing
    ensures r.topic.(disposing := w.topic.disposing) == w.topic
    ensures r.payloads == w.payloads && r.subs == w.subs && r.next == w.next
  {
    w.(topic := w.topic.(disposing := true))
  }

  /** The lock word plays no part in the invariant. */
  lemma LockedKeeps<P>(w: World<P>, t: int, cap: nat)
    requires Inv(w, cap)
    ensures Inv(Locked(w, t), cap)
  {
    assert Owned(Locked(w, t).topic) == Owned(w.topic);
  }

  /** Every entry of the log names a live payload slot. */
  lemma InLogIsStored<P>(w: World<P>, cap: nat, i: int)
    requires Inv(w, cap) && 0 <= i < |w.topic.messages|
    ensures w.topic.messages[i].handle in w.payloads
  {
    assert w.topic.messages[i].handle == Owned(w.topic)[i];
  }

  /** Every recycled slot is live. */
  lemma InBinIsStored<P>(w: World<P>, cap: nat, i: int)
    requires Inv(w, cap) && 0 <= i < |w.topic.recycleBin|
    ensures w.topic.recycleBin[i] in w.payloads
  {
    assert w.topic.recycleBin[i] == Owned(w.topic)[|w.topic.messages| + i];
  }

  /** The slots a publish may write into are live: the front entry's and
      the last recycled one. */
  lemma SlotsInUseAreStored<P>(w: World<P>, cap: nat)
    requires Inv(w, cap)
    ensures |w.topic.messages| > 0 ==> w.topic.messages[0].handle in w.payloads
    ensures |w.topic.recycleBin| > 0 ==> w.topic.recycleBin[|w.topic.recycleBin| - 1] in w.payloads
  {
    if |w.topic.messages| > 0 {
      InLogIsStored(w, cap, 0);
    }
    if |w.topic.recycleBin| > 0 {
      InBinIsStored(w, cap, |w.topic.recycleBin| - 1);
    }
  }

  /** The world a publish leaves behind satisfies the invariant. */
  lemma PublishedKeeps<P>(w: World<P>, w': World<P>, payload: P, msgTime: int, now: int, allocOk: bool, cap: nat)
    requires Inv(w, cap) && w' == TopicSpec.Publish(w, payload, msgTime, now, allocOk, cap).0
    ensures Inv(w', cap)
  {
    PublishKeeps(w, payload, msgTime, now, allocOk, cap);
  }

  /** Any value that is at most the counter and every live cursor, and that
      is the counter or one of those cursors, is the watermark: the order in
      which the subscriptions are visited does not matter. */
  lemma WatermarkUnique(last: int, subscriptions: set<Handle>, store: map<Handle, SubscriptionData>, m: int)
    requires m <= last
    requires forall h :: h in subscriptions && h in store ==> m <= store[h].latestMsgSeqNum
    requires m == last || exists h :: h in subscriptions && h in store && m == store[h].latestMsgSeqNum
    ensures m == Watermark(last, subscriptions, store)
  {
  }

  /** `Sweep` once the expired and the surviving subscriptions are known. */
  lemma SweepUnfold<P>(w: World<P>, now: int, cap: nat, kept: set<Handle>, gone: set<Handle>)
    requires w.topic.subscriptions != {}
    requires forall h :: h in kept <==> h in w.topic.subscriptions && h in w.subs && !Expired(w.subs[h], now)
    requires forall h :: h in gone <==> h in w.topic.subscriptions && h in w.subs && Expired(w.subs[h], now)
    ensures var w1 := w.(topic := w.topic.(subscriptions := kept), subs := w.subs - gone);
            Sweep(w, now, cap) == if gone != {} && w.topic.qos == MessageQueue then TopicSpec.RetireMessages(w1, cap) else w1
  {
    var expired := ExpiredSubscriptions(w, now);
    var alive := LiveSubscriptions(w, now);
    assert gone == expired;
    assert kept == alive;
  }

  /** The copying loop of `readAll_`: each entry's payload and timestamp,
      in order. */
  method CopyOut<P>(payloads: map<Handle, P>, entries: seq<MessageEntry>) returns (out: seq<Message<P>>)
    requires forall i :: 0 <= i < |entries| ==> entries[i].handle in payloads
    ensures |out| == |entries|
    ensures forall k :: 0 <= k < |out| ==> out[k] == Message(payloads[entries[k].handle], entries[k].timestamp)
  {
    out := [];
    var i := 0;
    while i < |entries|
      invariant 0 <= i <= |entries| && |out| == i
      invariant forall k :: 0 <= k < i ==> out[k] == Message(payloads[entries[k].handle], entries[k].timestamp)
    {
      out := out + [Message(payloads[entries[i].handle], entries[i].timestamp)];
      i := i + 1;
    }
  }

  class ShmTopic<P> {
    var data: TopicData?
    const seg: Segment<P>
    const maxTrash: nat

    /** A handle on the record `data`; the recycle bin's capacity follows
        from the payload size. */
    constructor (data: TopicData, seg: Segment<P>, payloadSize: nat)
      requires payloadSize > 0
      ensures this.data == data && this.seg == seg && maxTrash == MaxTrashSize(payloadSize)
    {
      this.data := data;
      this.seg := seg;
      maxTrash := MaxTrashSize(payloadSize);
    }

    /** The topic's record and the segment as a value. */
    ghost function Abs(): World<P>
      reads this, data, seg
      requires data != null
    {
      World(data.State(), seg.payloads, seg.subs, seg.next)
    }

    ghost predicate Valid()
      reads this, data, seg
    {
      data != null && seg.Valid() && Inv(Abs(), maxTrash)
    }

    /** `doTimedLock_`: the loop over timed attempts; only `lastLockTime_`
        changes, and only when the lock is taken. */
    method DoTimedLock(attempts: seq<LockAttempt>) returns (ok: bool)
      requires data != null && Ends(attempts)
      modifies data`lastLockTime
      ensures ok == TimedLock(attempts, old(data.lastLockTime)).acquired
      ensures Abs() == Locked(old(Abs()), TimedLock(attempts, old(data.lastLockTime)).lockTime)
    {
      var at;
      ok, at := AwaitTimedLock(attempts, data.lastLockTime);
      if ok {
        data.lastLockTime := at;
      }
    }

    /** `doTryLock_`: one attempt, and one more after forcing a stale lock;
        `raised` says that a `try_lock()` threw and the exception leaves the
        call. */
    method DoTryLock(first: TryAttempt, retry: TryAttempt, now: int) returns (ok: bool, raised: bool)
      requires data != null
      modifies data`lastLockTime
      ensures ok == TryLock(first, retry, now, old(data.lastLockTime)).lock.acquired
      ensures raised == TryLock(first, retry, now, old(data.lastLockTime)).escaped
      ensures Abs() == Locked(old(Abs()), TryLock(first, retry, now, old(data.lastLockTime)).lock.lockTime)
    {
      if first == Took {
        data.lastLockTime := now;
        return true, false;
      }
      if first == Raised {
        return false, true;
      }
      ok, raised := false, false;
      if now - data.lastLockTime > LockTimeoutMs {
        if retry == Took {
          data.lastLockTime := now;
          ok := true;
        } else if retry == Raised {
          raised := true;
        }
      }
    }

    /** `retireFirstMessage_`. */
    method RetireFirstMessage()
      requires data != null && seg.Valid() && |data.messages| > 0
      modifies data`messages, data`recycleBin, seg`payloads
      ensures seg.Valid()
      ensures Abs() == RetireFirst(old(Abs()), maxTrash)
    {
      if |data.recycleBin| >= maxTrash {
        seg.DestroyPayload(data.messages[0].handle);
      } else {
        data.recycleBin := data.recycleBin + [data.messages[0].handle];
      }
      data.messages := data.messages[1..];
    }

    /** `retireMessages_`: the watermark is found by a pass over the
        subscriptions, then front entries at or below it are retired. */
    method RetireMessages()
      requires data != null && seg.Valid()
      modifies data`messages, data`recycleBin, seg`payloads
      ensures seg.Valid()
      ensures Abs() == TopicSpec.RetireMessages(old(Abs()), maxTrash)
    {
      var last := data.lastSeq;
      var subscriptions := data.subscriptions;
      var store := seg.subs;
      var mark := last;
      var rest := subscriptions;
      while rest != {}
        invariant rest <= subscriptions
        invariant mark <= last
        invariant forall h :: h in subscriptions - rest && h in store ==> mark <= store[h].latestMsgSeqNum
        invariant mark == last || exists h :: h in subscriptions - rest && h in store && mark == store[h].latestMsgSeqNum
        decreases rest
      {
        var h :| h in rest;
        rest := rest - {h};
        if h in store && store[h].latestMsgSeqNum < mark {
          mark := store[h].latestMsgSeqNum;
        }
      }
      WatermarkUnique(last, subscriptions, store, mark);
      ghost var w := Abs();
      while |data.messages| > 0 && mark >= data.messages[0].seqNum
        invariant seg.Valid()
        invariant RetireUpTo(Abs(), mark, maxTrash) == RetireUpTo(w, mark, maxTrash)
        decreases |data.messages|
      {
        RetireFirstMessage();
      }
    }

    /** The pass of `retireSubscriptions_` over the subscriber set: drops
        and destroys the expired subscriptions. A listed handle whose record
        was freed is dropped; the source's null test for that case never
        fires, and it reads a dangling record there instead. */
    method DropExpired(now: int) returns (removed: bool, ghost kept: set<Handle>, ghost gone: set<Handle>)
      requires data != null && seg.Valid()
      modifies data`subscriptions, seg`subs
      ensures seg.Valid()
      ensures forall h :: h in kept <==> h in old(data.subscriptions) && h in old(seg.subs) && !Expired(old(seg.subs)[h], now)
      ensures forall h :: h in gone <==> h in old(data.subscriptions) && h in old(seg.subs) && Expired(old(seg.subs)[h], now)
      ensures data.subscriptions == kept && seg.subs == old(seg.subs) - gone
      ensures removed <==> gone != {}
    {
      ghost var subscriptions := data.subscriptions;
      ghost var store := seg.subs;
      kept, gone := {}, {};
      removed := false;
      var rest := data.subscriptions;
      while rest != {}
        invariant rest <= subscriptions && rest !! kept && rest !! gone
        invariant forall h :: h in kept <==> h in subscriptions - rest && h in store && !Expired(store[h], now)
        invariant forall h :: h in gone <==> h in subscriptions - rest && h in store && Expired(store[h], now)
        invariant data.subscriptions == rest + kept
        invariant seg.subs == store - gone
        invariant removed <==> gone != {}
        invariant seg.Valid()
        decreases rest
      {
        var h :| h in rest;
        rest := rest - {h};
        if h !in seg.subs {
          data.subscriptions := data.subscriptions - {h};
        } else if Expired(seg.subs[h], now) {
          data.subscriptions := data.subscriptions - {h};
          seg.DestroySubscriptionData(h);
          gone := gone + {h};
          removed := true;
        } else {
          kept := kept + {h};
        }
      }
    }

    /** `retireSubscriptions_`: the pass above, then, on a Queue topic that
        lost a subscription, retirement. */
    method RetireSubscriptions(now: int)
      requires data != null && seg.Valid()
      modifies data`subscriptions, data`messages, data`recycleBin, seg`subs, seg`payloads
      ensures seg.Valid()
      ensures Abs() == Sweep(old(Abs()), now, maxTrash)
    {
      if data.subscriptions == {} {
        return;
      }
      ghost var w := Abs();
      var removed, kept, gone := DropExpired(now);
      SweepUnfold(w, now, maxTrash, kept, gone);
      assert Abs() == w.(topic := w.topic.(subscriptions := kept), subs := w.subs - gone);
      if removed && data.qos == MessageQueue {
        RetireMessages();
      }
    }

    /** The Singleton path of `doPublish_`: the one entry's slot and fields
        are rewritten in place. */
    method OverwriteFront(payload: P, seqNum: int, ts: int)
      requires data != null && seg.Valid() && |data.messages| > 0 && data.messages[0].handle in seg.payloads
      modifies data`messages, seg`payloads
      ensures seg.Valid()
      ensures Abs() == Overwrite(old(Abs()), payload, seqNum, ts)
    {
      var front := data.messages[0];
      seg.WritePayload(front.handle, payload);
      data.messages := [MessageEntry(front.handle, seqNum, ts)] + data.messages[1..];
    }

    /** The eviction loop of `doPublish_`. */
    method EvictFullLog()
      requires data != null && seg.Valid()
      modifies data`messages, data`recycleBin, seg`payloads
      ensures seg.Valid()
      ensures Abs() == EvictFull(old(Abs()), maxTrash)
    {
      ghost var w := Abs();
      while |data.messages| >= MaxMessageCount
        invariant seg.Valid()
        invariant EvictFull(Abs(), maxTrash) == EvictFull(w, maxTrash)
        decreases |data.messages|
      {
        RetireFirstMessage();
      }
    }

    /** The Queue path of `doPublish_` before the sweep: take a slot (from
        the recycle bin, or a fresh allocation that may fail), trim the log
        below `MaxMessageCount` and append the entry. */
    method AppendEntry(payload: P, seqNum: int, ts: int, allocOk: bool) returns (ok: bool)
      requires data != null && seg.Valid()
      requires |data.recycleBin| > 0 ==> data.recycleBin[|data.recycleBin| - 1] in seg.payloads
      modifies data`messages, data`recycleBin, seg`payloads, seg`next
      ensures seg.Valid()
      ensures ok <==> |old(data.recycleBin)| > 0 || allocOk
      ensures ok ==> Abs() == Append(EvictFull(TakeSlot(old(Abs()), payload).0, maxTrash),
                                     MessageEntry(TakeSlot(old(Abs()), payload).1, seqNum, ts))
      ensures !ok ==> Abs() == old(Abs())
    {
      var h;
      ok, h := TakeSlotFor(payload, allocOk);
      if !ok {
        return;
      }
      ghost var w1 := Abs();
      EvictFullLog();
      ghost var w2 := Abs();
      assert w2 == EvictFull(w1, maxTrash);
      AppendMessage(MessageEntry(h, seqNum, ts));
    }

    /** Write an entry at the end of the message log. */
    method AppendMessage(e: MessageEntry)
      requires data != null
      modifies data`messages
      ensures Abs() == Append(old(Abs()), e)
    {
      data.messages := data.messages + [e];
    }

    /** The slot a publish writes into: the last recycled one, or a newly
        allocated one; none when the bin is empty and allocation fails. */
    method TakeSlotFor(payload: P, allocOk: bool) returns (ok: bool, h: Handle)
      requires data != null && seg.Valid()
      requires |data.recycleBin| > 0 ==> data.recycleBin[|data.recycleBin| - 1] in seg.payloads
      modifies data`recycleBin, seg`payloads, seg`next
      ensures seg.Valid()
      ensures ok <==> |old(data.recycleBin)| > 0 || allocOk
      ensures ok ==> (Abs(), h) == TakeSlot(old(Abs()), payload)
      ensures !ok ==> Abs() == old(Abs())
    {
      if |data.recycleBin| == 0 {
        var slot := seg.CreatePayload(payload, allocOk);
        if slot.None? {
          return false, 0;
        }
        h := slot.value;
      } else {
        h := data.recycleBin[|data.recycleBin| - 1];
        data.recycleBin := data.recycleBin[..|data.recycleBin| - 1];
        seg.WritePayload(h, payload);
      }
      ok := true;
    }

    /** The Queue path of `doPublish_` including the sweep. */
    method AppendAndSweep(payload: P, seqNum: int, ts: int, now: int, allocOk: bool) returns (ok: bool)
      requires data != null && seg.Valid()
      requires |data.recycleBin| > 0 ==> data.recycleBin[|data.recycleBin| - 1] in seg.payloads
      modifies data`subscriptions, data`messages, data`recycleBin, seg`payloads, seg`subs, seg`next
      ensures seg.Valid()
      ensures ok <==> |old(data.recycleBin)| > 0 || allocOk
      ensures ok ==> Abs() == Sweep(Append(EvictFull(TakeSlot(old(Abs()), payload).0, maxTrash),
                                           MessageEntry(TakeSlot(old(Abs()), payload).1, seqNum, ts)), now, maxTrash)
      ensures !ok ==> Abs() == old(Abs())
    {
      ok := AppendEntry(payload, seqNum, ts, allocOk);
      if ok {
        RetireSubscriptions(now);
      }
    }

    /** `doPublish_` once the lock is held: bump the counter, write the
        entry, then sweep the subscriptions. */
    method PublishLocked(payload: P, msgTime: int, now: int, allocOk: bool) returns (ok: bool)
      requires data != null && seg.Valid()
      requires |data.messages| > 0 ==> data.messages[0].handle in seg.payloads
      requires |data.recycleBin| > 0 ==> data.recycleBin[|data.recycleBin| - 1] in seg.payloads
      modifies data`lastSeq, data`subscriptions, data`messages, data`recycleBin, seg`payloads, seg`subs, seg`next
      ensures seg.Valid()
      ensures (Abs(), ok) == TopicSpec.Publish(old(Abs()), payload, msgTime, now, allocOk, maxTrash)
    {
      if data.qos == MessageSingleton && |data.messages| > 0 {
        PublishOverwrite(payload, msgTime, now, allocOk);
        ok := true;
      } else {
        ok := PublishAppend(payload, msgTime, now, allocOk);
      }
    }

    /** `doPublish_` on a Singleton topic that holds an entry. */
    method PublishOverwrite(payload: P, msgTime: int, now: int, allocOk: bool)
      requires data != null && seg.Valid()
      requires data.qos == MessageSingleton && |data.messages| > 0 && data.messages[0].handle in seg.payloads
      modifies data`lastSeq, data`subscriptions, data`messages, data`recycleBin, seg`payloads, seg`subs
      ensures seg.Valid()
      ensures Abs() == OverwritePath(old(Abs()), payload, msgTime, now, maxTrash)
    {
      var ts := if msgTime == InvalidTimestamp then now else msgTime;
      data.lastSeq := data.lastSeq + 1;
      OverwriteFront(payload, data.lastSeq, ts);
      RetireSubscriptions(now);
    }

    /** `doPublish_` on a Queue topic, or a Singleton topic with an empty
        log. */
    method PublishAppend(payload: P, msgTime: int, now: int, allocOk: bool) returns (ok: bool)
      requires data != null && seg.Valid()
      requires |data.recycleBin| > 0 ==> data.recycleBin[|data.recycleBin| - 1] in seg.payloads
      modifies data`lastSeq, data`subscriptions, data`messages, data`recycleBin, seg`payloads, seg`subs, seg`next
      ensures seg.Valid()
      ensures (Abs(), ok) == AppendPath(old(Abs()), payload, msgTime, now, allocOk, maxTrash)
    {
      ghost var w := Abs();
      var ts := if msgTime == InvalidTimestamp then now else msgTime;
      BumpSeq();
      ok := AppendAndSweep(payload, data.lastSeq, ts, now, allocOk);
      if ok {
        AppendPathTaken(w, payload, msgTime, now, allocOk, maxTrash, ts);
      } else {
        AppendPathRefused(w, payload, msgTime, now, allocOk, maxTrash);
      }
    }

    /** The first step of `doPublish_`: the sequence counter goes up by one
        before anything else. */
    method BumpSeq()
      requires data != null
      modifies data`lastSeq
      ensures Abs() == Bumped(old(Abs())) && data.lastSeq == old(data.lastSeq) + 1
    {
      data.lastSeq := data.lastSeq + 1;
    }

    /** `doPublish_` once the lock is held, keeping the topic invariant. */
    method PublishHeld(payload: P, msgTime: int, now: int, allocOk: bool) returns (ok: bool)
      requires Valid()
      modifies data`lastSeq, data`subscriptions, data`messages, data`recycleBin, seg`payloads, seg`subs, seg`next
      ensures Valid()
      ensures (Abs(), ok) == TopicSpec.Publish(old(Abs()), payload, msgTime, now, allocOk, maxTrash)
    {
      ghost var w := Abs();
      SlotsInUseAreStored(w, maxTrash);
      ok := PublishLocked(payload, msgTime, now, allocOk);
      PublishedKeeps(w, Abs(), payload, msgTime, now, allocOk, maxTrash);
    }

    /** `doPublish_`: take the lock, then publish. */
    method DoPublish(attempts: seq<LockAttempt>, payload: P, msgTime: int, now: int, allocOk: bool) returns (ok: bool)
      requires Valid() && Ends(attempts)
      modifies data, seg`payloads, seg`subs, seg`next
      ensures Valid()
      ensures var o := TimedLock(attempts, old(data.lastLockTime));
              if o.acquired then (Abs(), ok) == TopicSpec.Publish(Locked(old(Abs()), o.lockTime), payload, msgTime, now, allocOk, maxTrash)
              else Abs() == old(Abs()) && !ok
    {
      ghost var w := Abs();
      ghost var t := TimedLock(attempts, data.lastLockTime).lockTime;
      var locked := DoTimedLock(attempts);
      if !locked {
        return false;
      }
      LockedKeeps(w, t, maxTrash);
      ok := PublishHeld(payload, msgTime, now, allocOk);
    }

    /** `publish(payload)`: stamped with the clock reading. */
    method Publish(attempts: seq<LockAttempt>, payload: P, now: int, allocOk: bool) returns (ok: bool)
      requires Valid() && Ends(attempts)
      modifies data, seg`payloads, seg`subs, seg`next
      ensures Valid()
      ensures var o := TimedLock(attempts, old(data.lastLockTime));
              if o.acquired then (Abs(), ok) == TopicSpec.Publish(Locked(old(Abs()), o.lockTime), payload, InvalidTimestamp, now, allocOk, maxTrash)
              else Abs() == old(Abs()) && !ok
    {
      ok := DoPublish(attempts, payload, InvalidTimestamp, now, allocOk);
    }

    /** `publish(msg)`: stamped with the message's own timestamp unless that
        is the invalid one. */
    method PublishMessage(attempts: seq<LockAttempt>, msg: Message<P>, now: int, allocOk: bool) returns (ok: bool)
      requires Valid() && Ends(attempts)
      modifies data, seg`payloads, seg`subs, seg`next
      ensures Valid()
      ensures var o := TimedLock(attempts, old(data.lastLockTime));
              if o.acquired then (Abs(), ok) == TopicSpec.Publish(Locked(old(Abs()), o.lockTime), msg.payload, msg.timestamp, now, allocOk, maxTrash)
              else Abs() == old(Abs()) && !ok
    {
      ok := DoPublish(attempts, msg.payload, msg.timestamp, now, allocOk);
    }

    /** `subscribe`: take the lock, then register a new subscription whose
        handle object refers back to this topic. */
    method Subscribe(attempts: seq<LockAttempt>, options: SubscriptionOptions, now: int, allocOk: bool)
      returns (sub: ShmSubscription?<P>)
      requires Valid() && Ends(attempts)
      modifies data, seg`subs, seg`next
      ensures Valid()
      ensures var o := TimedLock(attempts, old(data.lastLockTime));
              var r := TopicSpec.Subscribe(Locked(old(Abs()), o.lockTime), options, now, allocOk);
              && (o.acquired ==> Abs() == r.0 && (sub != null <==> r.1.Some?))
              && (!o.acquired ==> Abs() == old(Abs()) && sub == null)
              && (sub != null ==> fresh(sub) && r.1.Some? && sub.handle == r.1.value && sub.topic == this)
      ensures sub != null ==> sub.handle in data.subscriptions && sub.handle in seg.subs && sub.handle !in old(seg.subs)
    {
      ghost var w := Abs();
      ghost var t := TimedLock(attempts, data.lastLockTime).lockTime;
      var locked := DoTimedLock(attempts);
      if !locked {
        return null;
      }
      LockedKeeps(w, t, maxTrash);
      sub := SubscribeHeld(options, now, allocOk);
    }

    /** `subscribe` once the lock is held, keeping the topic invariant. */
    method SubscribeHeld(options: SubscriptionOptions, now: int, allocOk: bool) returns (sub: ShmSubscription?<P>)
      requires Valid()
      modifies data`subscriptions, seg`subs, seg`next
      ensures Valid()
      ensures var r := TopicSpec.Subscribe(old(Abs()), options, now, allocOk);
              && Abs() == r.0 && (sub != null <==> r.1.Some?)
              && (sub != null ==> fresh(sub) && sub.handle == r.1.value && sub.topic == this)
      ensures sub != null ==> sub.handle in data.subscriptions && sub.handle in seg.subs && sub.handle !in old(seg.subs)
    {
      SubscribeKeeps(Abs(), options, now, allocOk, maxTrash);
      if data.disposing {
        return null;
      }
      var h := seg.CreateSubscriptionData(SubscriptionData(options, data.lastSeq, now), allocOk);
      if h.None? {
        return null;
      }
      data.subscriptions := data.subscriptions + {h.value};
      sub := new ShmSubscription(h.value, this);
    }

    /** Every entry of the log names a live payload slot. */
    ghost predicate LogStored()
      reads this, data, seg
      requires data != null
    {
      forall i :: 0 <= i < |data.messages| ==> data.messages[i].handle in seg.payloads
    }

    lemma LogStoredWhenValid()
      requires Valid()
      ensures LogStored()
    {
      forall i | 0 <= i < |data.messages| ensures data.messages[i].handle in seg.payloads {
        InLogIsStored(Abs(), maxTrash, i);
      }
    }

    /** `read_`, under the lock: an unknown handle reads nothing; otherwise
        the entry the reader's quality of service selects is copied out, the
        cursor moves to it and a Queue topic runs retirement; the reader's
        activity time is refreshed in any case. */
    method ReadLocked(h: Handle, now: int) returns (res: Option<Message<P>>)
      requires data != null && seg.Valid() && LogStored()
      modifies data`messages, data`recycleBin, seg`payloads, seg`subs
      ensures seg.Valid()
      ensures var r := TopicSpec.Read(old(Abs()), h, now, maxTrash);
              && Abs() == r.0
              && (res.Some? <==> r.1.Some?)
              && (res.Some? ==> r.1.value.handle in old(seg.payloads)
                                && res.value == Message(old(seg.payloads)[r.1.value.handle], r.1.value.timestamp))
    {
      if h !in data.subscriptions || h !in seg.subs {
        return None;
      }
      ghost var w := Abs();
      var d := seg.subs[h];
      var msgs := data.messages;
      var payloads := seg.payloads;
      var e: Option<MessageEntry> := None;
      if d.options.qos == AtMostOnce {
        if |msgs| > 0 && d.latestMsgSeqNum != msgs[|msgs| - 1].seqNum {
          e := Some(msgs[|msgs| - 1]);
        }
        assert e == NewestUnseen(msgs, d.latestMsgSeqNum);
      } else {
        var i := LookupNext(msgs, d.latestMsgSeqNum);
        if i < |msgs| {
          e := Some(msgs[i]);
        }
        assert e == NextUnseen(msgs, d.latestMsgSeqNum);
      }
      var cursor := if e.Some? then e.value.seqNum else d.latestMsgSeqNum;
      res := if e.Some? then Some(Message(payloads[e.value.handle], e.value.timestamp)) else None;
      assert TopicSpec.Read(w, h, now, maxTrash) == (Consume(w, h, e.Some?, cursor, now, maxTrash), e);
      ConsumeLocked(h, e.Some?, cursor, now);
    }

    /** The bookkeeping shared by `read_` and `readAll_`. */
    method ConsumeLocked(h: Handle, moved: bool, cursor: int, now: int)
      requires data != null && seg.Valid() && h in seg.subs
      modifies data`messages, data`recycleBin, seg`payloads, seg`subs
      ensures seg.Valid()
      ensures Abs() == Consume(old(Abs()), h, moved, cursor, now, maxTrash)
    {
      ghost var w := Abs();
      var d := seg.subs[h];
      var d1 := if moved then d.(latestMsgSeqNum := cursor) else d;
      seg.WriteSubscription(h, d1);
      assert Abs() == w.(subs := w.subs[h := d1]);
      if moved && data.qos == MessageQueue {
        RetireMessages();
      }
      seg.WriteSubscription(h, d1.(lastUpdate := now));
    }

    /** `readAll_`, under the lock: every entry after the reader's cursor,
        copied out in log order. */
    method ReadAllLocked(h: Handle, now: int) returns (ok: bool, out: seq<Message<P>>)
      requires data != null && seg.Valid() && LogStored()
      modifies data`messages, data`recycleBin, seg`payloads, seg`subs
      ensures seg.Valid()
      ensures var r := TopicSpec.ReadAll(old(Abs()), h, now, maxTrash);
              && Abs() == r.0
              && ok == (|r.1| > 0)
              && |out| == |r.1|
              && forall k :: 0 <= k < |out| ==>
                   r.1[k].handle in old(seg.payloads) && out[k] == Message(old(seg.payloads)[r.1[k].handle], r.1[k].timestamp)
    {
      if h !in data.subscriptions || h !in seg.subs {
        return false, [];
      }
      ghost var w := Abs();
      var msgs := data.messages;
      var payloads := seg.payloads;
      var cursor := seg.subs[h].latestMsgSeqNum;
      var start := LookupNext(msgs, cursor);
      out := CopyOut(payloads, msgs[start..]);
      ok := |out| > 0;
      var newCursor := if ok then msgs[|msgs| - 1].seqNum else cursor;
      assert TopicSpec.ReadAll(w, h, now, maxTrash) == (Consume(w, h, ok, newCursor, now, maxTrash), msgs[start..]);
      ConsumeLocked(h, ok, newCursor, now);
    }

    /** `retireSubscription_`: remove and destroy a known subscription. */
    method RetireSubscription(h: Handle) returns (found: bool)
      requires data != null && seg.Valid()
      modifies data`subscriptions, seg`subs
      ensures seg.Valid()
      ensures found <==> h in old(data.subscriptions)
      ensures data.subscriptions == old(data.subscriptions) - {h}
      ensures seg.subs == if found then old(seg.subs) - {h} else old(seg.subs)
      ensures Abs() == if found then DropSubscriber(old(Abs()), h) else old(Abs())
    {
      if h !in data.subscriptions {
        return false;
      }
      data.subscriptions := data.subscriptions - {h};
      seg.DestroySubscriptionData(h);
      found := true;
    }

    /** `unsubscribe_`, under the lock. */
    method UnsubscribeLocked(h: Handle)
      requires data != null && seg.Valid()
      modifies data`subscriptions, data`messages, data`recycleBin, seg`subs, seg`payloads
      ensures seg.Valid()
      ensures Abs() == TopicSpec.Unsubscribe(old(Abs()), h, maxTrash)
    {
      var found := RetireSubscription(h);
      if found && data.qos == MessageQueue {
        RetireMessages();
      }
    }

    /** Free the slot of every handle in `hs`. */
    method DestroyPayloads(hs: seq<Handle>)
      requires seg.Valid()
      modifies seg`payloads
      ensures seg.Valid()
      ensures seg.payloads == old(seg.payloads) - set x | x in hs
    {
      ghost var p0 := seg.payloads;
      var i := 0;
      while i < |hs|
        invariant 0 <= i <= |hs| && seg.Valid()
        invariant seg.payloads == p0 - set x | x in hs[..i]
      {
        ghost var done, next := hs[..i], hs[..i + 1];
        assert next == done + [hs[i]];
        assert (set x | x in next) == (set x | x in done) + {hs[i]};
        seg.DestroyPayload(hs[i]);
        i := i + 1;
      }
      assert hs[..i] == hs;
    }

    /** `destroyMessages_`: free the slot of every entry and of every
        recycled slot, and empty both containers. */
    method DestroyMessages()
      requires data != null && seg.Valid()
      modifies data`messages, data`recycleBin, seg`payloads
      ensures seg.Valid()
      ensures data.messages == [] && data.recycleBin == []
      ensures seg.payloads == old(seg.payloads) - set x | x in Owned(old(data.State()))
    {
      ghost var owned := Owned(data.State());
      DestroyPayloads(Handles(data.messages));
      data.messages := [];
      DestroyPayloads(data.recycleBin);
      data.recycleBin := [];
    }

    /** The loop of `destroy` over the subscriber set. */
    method DestroySubscriptionRecords(hs: set<Handle>)
      requires seg.Valid()
      modifies seg`subs
      ensures seg.Valid()
      ensures seg.subs == old(seg.subs) - hs
    {
      var rest := hs;
      while rest != {}
        invariant rest <= hs && seg.Valid()
        invariant seg.subs == old(seg.subs) - (hs - rest)
        decreases rest
      {
        var h :| h in rest;
        seg.DestroySubscriptionData(h);
        rest := rest - {h};
      }
    }

    /** `destroy`: the disposing flag is raised before locking; when the
        lock cannot be taken nothing else happens. Otherwise every
        subscription record and every owned slot is freed, the handle lets
        go of the record and the record itself is freed. */
    method Destroy(attempts: seq<LockAttempt>)
      requires data != null && seg.Valid() && Ends(attempts)
      modifies this, data, seg`subs, seg`payloads, seg`records
      ensures seg.Valid()
      ensures var o := TimedLock(attempts, old(data.lastLockTime));
              && (!o.acquired ==> data == old(data) && Abs() == Disposing(old(Abs())) && seg.records == old(seg.records))
              && (o.acquired ==>
                    && data == null
                    && World(old(data).State(), seg.payloads, seg.subs, seg.next)
                       == DestroyContents(Locked(Disposing(old(Abs())), o.lockTime))
                    && seg.records == WithoutRecord(old(seg.records), old(data)))
    {
      var record := data;
      data.disposing := true;
      var locked := DoTimedLock(attempts);
      if !locked {
        return;
      }
      DestroySubscriptionRecords(data.subscriptions);
      data.subscriptions := {};
      DestroyMessages();
      data := null;
      seg.DestroyTopicRecord(record);
    }
  }

  class ShmSubscription<P> {
    const handle: Handle
    var topic: ShmTopic?<P>

    constructor (handle: Handle, topic: ShmTopic<P>)
      ensures this.handle == handle && this.topic == topic
    {
      this.handle := handle;
      this.topic := topic;
    }

    /** The objects a call through this subscription may change: the
        topic's record and the segment. */
    ghost function Footprint(): set<object>
      reads this, topic
    {
      if topic == null || topic.data == null then {} else {topic.data, topic.seg}
    }

    /** `read`: nothing without a topic or when the timed lock fails;
        otherwise `read_` under the lock. */
    method Read(attempts: seq<LockAttempt>, now: int) returns (res: Option<Message<P>>)
      requires Ends(attempts)
      requires topic != null ==> topic.Valid()
      modifies Footprint()
      ensures topic == old(topic)
      ensures topic == null ==> res.None?
      ensures topic != null ==> (topic.Valid() &&
              var o := TimedLock(attempts, old(topic.data.lastLockTime));
              var r := TopicSpec.Read(Locked(old(topic.Abs()), o.lockTime), handle, now, topic.maxTrash);
              && (o.acquired ==>
                    && topic.Abs() == r.0
                    && (res.Some? <==> r.1.Some?)
                    && (res.Some? ==> r.1.value.handle in old(topic.seg.payloads)
                                      && res.value == Message(old(topic.seg.payloads)[r.1.value.handle], r.1.value.timestamp)))
              && (!o.acquired ==> topic.Abs() == old(topic.Abs()) && res.None?))
    {
      if topic == null {
        return None;
      }
      ghost var w := topic.Abs();
      ghost var t := TimedLock(attempts, topic.data.lastLockTime).lockTime;
      var locked := topic.DoTimedLock(attempts);
      if !locked {
        return None;
      }
      LockedKeeps(w, t, topic.maxTrash);
      topic.LogStoredWhenValid();
      res := topic.ReadLocked(handle, now);
      ReadKeeps(Locked(w, t), handle, now, topic.maxTrash);
    }

    /** `tryRead`: as `read`, with the non-blocking lock; `raised` says that
        an exception from the lock attempt leaves the call, nothing read. */
    method TryRead(first: TryAttempt, retry: TryAttempt, now: int) returns (res: Option<Message<P>>, raised: bool)
      requires topic != null ==> topic.Valid()
      modifies Footprint()
      ensures topic == old(topic)
      ensures topic == null ==> res.None? && !raised
      ensures topic != null ==> (topic.Valid() &&
              var o := TryLock(first, retry, now, old(topic.data.lastLockTime));
              var r := TopicSpec.Read(Locked(old(topic.Abs()), o.lock.lockTime), handle, now, topic.maxTrash);
              && raised == o.escaped
              && (o.lock.acquired ==>
                    && topic.Abs() == r.0
                    && (res.Some? <==> r.1.Some?)
                    && (res.Some? ==> r.1.value.handle in old(topic.seg.payloads)
                                      && res.value == Message(old(topic.seg.payloads)[r.1.value.handle], r.1.value.timestamp)))
              && (!o.lock.acquired ==> topic.Abs() == old(topic.Abs()) && res.None?))
    {
      if topic == null {
        return None, false;
      }
      ghost var w := topic.Abs();
      ghost var t := TryLock(first, retry, now, topic.data.lastLockTime).lock.lockTime;
      var locked;
      locked, raised := topic.DoTryLock(first, retry, now);
      if !locked {
        return None, raised;
      }
      LockedKeeps(w, t, topic.maxTrash);
      topic.LogStoredWhenValid();
      res := topic.ReadLocked(handle, now);
      ReadKeeps(Locked(w, t), handle, now, topic.maxTrash);
    }

    /** `readAll`: the output starts empty; nothing more without a topic or
        when the lock fails; otherwise `readAll_` under the lock. */
    method ReadAll(attempts: seq<LockAttempt>, now: int) returns (ok: bool, out: seq<Message<P>>)
      requires Ends(attempts)
      requires topic != null ==> topic.Valid()
      modifies Footprint()
      ensures topic == old(topic)
      ensures topic == null ==> !ok && out == []
      ensures topic != null ==> (topic.Valid() &&
              var o := TimedLock(attempts, old(topic.data.lastLockTime));
              var r := TopicSpec.ReadAll(Locked(old(topic.Abs()), o.lockTime), handle, now, topic.maxTrash);
              && (o.acquired ==>
                    && topic.Abs() == r.0
                    && ok == (|r.1| > 0)
                    && |out| == |r.1|
                    && forall k :: 0 <= k < |out| ==>
                         r.1[k].handle in old(topic.seg.payloads)
                         && out[k] == Message(old(topic.seg.payloads)[r.1[k].handle], r.1[k].timestamp))
              && (!o.acquired ==> topic.Abs() == old(topic.Abs()) && !ok && out == []))
    {
      if topic == null {
        return false, [];
      }
      ghost var w := topic.Abs();
      ghost var t := TimedLock(attempts, topic.data.lastLockTime).lockTime;
      var locked := topic.DoTimedLock(attempts);
      if !locked {
        return false, [];
      }
      LockedKeeps(w, t, topic.maxTrash);
      topic.LogStoredWhenValid();
      ok, out := topic.ReadAllLocked(handle, now);
      ReadAllKeeps(Locked(w, t), handle, now, topic.maxTrash);
    }

    /** `unsubscribe` (also what the destructor does): under the lock the
        subscription is removed from the topic; the subscription lets go of
        the topic whether or not the lock was taken, so a second call does
        nothing. */
    method Unsubscribe(attempts: seq<LockAttempt>)
      requires Ends(attempts)
      requires topic != null ==> topic.Valid()
      modifies this, Footprint()
      ensures topic == null
      ensures old(topic) != null ==> (old(topic).Valid() &&
              var o := TimedLock(attempts, old(topic.data.lastLockTime));
              && (o.acquired ==>
                    old(topic).Abs() == TopicSpec.Unsubscribe(Locked(old(topic.Abs()), o.lockTime), handle, old(topic).maxTrash))
              && (!o.acquired ==> old(topic).Abs() == old(topic.Abs())))
    {
      if topic == null {
        return;
      }
      ghost var w := topic.Abs();
      ghost var t := TimedLock(attempts, topic.data.lastLockTime).lockTime;
      var locked := topic.DoTimedLock(attempts);
      if locked {
        LockedKeeps(w, t, topic.maxTrash);
        topic.UnsubscribeLocked(handle);
        UnsubscribeKeeps(Locked(w, t), handle, topic.maxTrash);
      }
      topic := null;
    }
  }
}
