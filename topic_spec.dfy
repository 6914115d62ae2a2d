/** The pub/sub engine of one topic as pure functions over a `World`: the
    topic's own state plus the parts of the segment it touches (payload
    slots, subscription records and the allocation counter). Every operation
    here is the state change the corresponding `ShmTopic` method makes once
    it holds the topic's lock; `Inv` is the invariant they all keep. */
module TopicSpec {
  import opened ShmDefs

  /** The fields of `ShmTopicData`. */
  datatype TopicState = TopicState(
    name: string,
    qos: TopicQos,
    disposing: bool,
    subscriptions: set<Handle>,
    messages: seq<MessageEntry>,
    lastSeq: int,
    lastLockTime: int,
    recycleBin: seq<Handle>)

  /** A topic together with the segment objects it works on. */
  datatype World<P> = World(
    topic: TopicState,
    payloads: map<Handle, P>,
    subs: map<Handle, SubscriptionData>,
    next: Handle)

  function Handles(msgs: seq<MessageEntry>): (hs: seq<Handle>)
    ensures |hs| == |msgs|
    ensures forall i :: 0 <= i < |msgs| ==> hs[i] == msgs[i].handle
  {
    seq(|msgs|, i requires 0 <= i < |msgs| => msgs[i].handle)
  }

  /** The payload slots a topic owns: those its log points to, then its
      recycle bin. */
  function Owned(t: TopicState): seq<Handle>
  {
    Handles(t.messages) + t.recycleBin
  }

  predicate Distinct(s: seq<Handle>)
  {
    forall i, j :: 0 <= i < j < |s| ==> s[i] != s[j]
  }

  predicate Increasing(msgs: seq<MessageEntry>)
  {
    forall i, j :: 0 <= i < j < |msgs| ==> msgs[i].seqNum < msgs[j].seqNum
  }

  /** Neighbouring entries of the log differ by exactly one. */
  predicate Consecutive(msgs: seq<MessageEntry>)
  {
    forall i :: 0 <= i < |msgs| - 1 ==> msgs[i + 1].seqNum == msgs[i].seqNum + 1
  }

  /** The log has no gaps and ends at the last generated sequence number:
      what `lookupNextMessage_` assumes. A publish whose allocation fails
      breaks it. */
  predicate Contiguous(t: TopicState)
  {
    Consecutive(t.messages) && (|t.messages| > 0 ==> t.messages[|t.messages| - 1].seqNum == t.lastSeq)
  }

  /** What every topic operation keeps: the log is bounded (one entry for a
      Singleton topic), strictly increasing and never ahead of the counter;
      the recycle bin is within its capacity; every payload slot the topic
      owns is live and owned once; and the segment's allocation counter is
      beyond every live handle. */
  predicate Inv<P>(w: World<P>, cap: nat)
  {
    var t := w.topic;
    && |t.messages| <= MaxMessageCount
    && (t.qos == MessageSingleton ==> |t.messages| <= 1)
    && Increasing(t.messages)
    && (forall i :: 0 <= i < |t.messages| ==> t.messages[i].seqNum <= t.lastSeq)
    && |t.recycleBin| <= cap
    && Distinct(Owned(t))
    && (forall h :: h in Owned(t) ==> h in w.payloads)
    && (forall h :: h in w.payloads ==> h < w.next)
    && (forall h :: h in w.subs ==> h < w.next)
  }

  /** Two topic states that differ at most in their log and recycle bin. */
  predicate SameExceptLog(t: TopicState, u: TopicState)
  {
    && t.name == u.name && t.qos == u.qos && t.disposing == u.disposing
    && t.subscriptions == u.subscriptions && t.lastSeq == u.lastSeq && t.lastLockTime == u.lastLockTime
  }

  /** `s` is what is left of `t` after entries were taken from its front. */
  predicate SuffixOf(s: seq<MessageEntry>, t: seq<MessageEntry>)
  {
    |s| <= |t| && s == t[|t| - |s|..]
  }

  // ---------------------------------------------------------------------
  // Retirement

  /** `retireFirstMessage_`: drop the front entry; its slot goes to the
      recycle bin unless the bin is full, in which case it is freed. */
  function RetireFirst<P>(w: World<P>, cap: nat): (r: World<P>)
    requires |w.topic.messages| > 0
    ensures r.topic.messages == w.topic.messages[1..] && SameExceptLog(r.topic, w.topic)
    ensures r.subs == w.subs && r.next == w.next
  {
    var h := w.topic.messages[0].handle;
    var t := w.topic.(messages := w.topic.messages[1..]);
    if |w.topic.recycleBin| >= cap then w.(topic := t, payloads := w.payloads - {h})
    else w.(topic := t.(recycleBin := w.topic.recycleBin + [h]))
  }

  /** The popping loop of `retireMessages_`: retire front entries while the
      front's sequence number is at most `mark`. */
  function RetireUpTo<P>(w: World<P>, mark: int, cap: nat): (r: World<P>)
    ensures |r.topic.messages| <= |w.topic.messages|
    ensures r.topic.messages == w.topic.messages[|w.topic.messages| - |r.topic.messages|..]
    ensures forall i :: 0 <= i < |w.topic.messages| - |r.topic.messages| ==> w.topic.messages[i].seqNum <= mark
    ensures |r.topic.messages| > 0 ==> r.topic.messages[0].seqNum > mark
    ensures SameExceptLog(r.topic, w.topic) && r.subs == w.subs && r.next == w.next
    decreases |w.topic.messages|
  {
    if |w.topic.messages| > 0 && w.topic.messages[0].seqNum <= mark then
      var w1 := RetireFirst(w, cap);
      var r := RetireUpTo(w1, mark, cap);
      PoppedWorld(w, w1, r, mark);
      r
    else w
  }

  /** One step of `RetireUpTo`: popping the front entry of `w` (giving
      `w1`) and then retiring `w1` up to `mark` (giving `r`) retires `w` up
      to `mark`. */
  lemma PoppedWorld<P>(w: World<P>, w1: World<P>, r: World<P>, mark: int)
    requires |w.topic.messages| > 0 && w.topic.messages[0].seqNum <= mark
    requires w1.topic.messages == w.topic.messages[1..] && SameExceptLog(w1.topic, w.topic)
    requires w1.subs == w.subs && w1.next == w.next
    requires |r.topic.messages| <= |w1.topic.messages|
    requires r.topic.messages == w1.topic.messages[|w1.topic.messages| - |r.topic.messages|..]
    requires forall i :: 0 <= i < |w1.topic.messages| - |r.topic.messages| ==> w1.topic.messages[i].seqNum <= mark
    requires |r.topic.messages| > 0 ==> r.topic.messages[0].seqNum > mark
    requires SameExceptLog(r.topic, w1.topic) && r.subs == w1.subs && r.next == w1.next
    ensures |r.topic.messages| <= |w.topic.messages|
    ensures r.topic.messages == w.topic.messages[|w.topic.messages| - |r.topic.messages|..]
    ensures forall i :: 0 <= i < |w.topic.messages| - |r.topic.messages| ==> w.topic.messages[i].seqNum <= mark
    ensures |r.topic.messages| > 0 ==> r.topic.messages[0].seqNum > mark
    ensures SameExceptLog(r.topic, w.topic) && r.subs == w.subs && r.next == w.next
  {
    PoppedFront(w.topic.messages, r.topic.messages, mark);
  }

  /** One more entry popped from the front keeps `r` a suffix of the log
      and everything before it at most `mark`. */
  lemma PoppedFront(log: seq<MessageEntry>, r: seq<MessageEntry>, mark: int)
    requires |log| > 0 && log[0].seqNum <= mark && |r| <= |log| - 1
    requires r == log[1..][|log| - 1 - |r|..]
    requires forall i :: 0 <= i < |log| - 1 - |r| ==> log[1..][i].seqNum <= mark
    ensures r == log[|log| - |r|..]
    ensures forall i :: 0 <= i < |log| - |r| ==> log[i].seqNum <= mark
  {
    assert forall i :: 1 <= i < |log| - |r| ==> log[i] == log[1..][i - 1];
  }

  /** The retirement watermark: the smallest cursor among the listed
      subscriptions that have a record, or the last generated sequence number
      when that is smaller (or there are none). A listed handle without a
      record is skipped, standing in for the source's read of a freed one. */
  ghost function Watermark(last: int, subscriptions: set<Handle>, store: map<Handle, SubscriptionData>): (r: int)
    ensures r <= last
    ensures forall h :: h in subscriptions && h in store ==> r <= store[h].latestMsgSeqNum
    ensures r == last || exists h :: h in subscriptions && h in store && r == store[h].latestMsgSeqNum
    decreases subscriptions
  {
    if subscriptions == {} then last
    else
      var h :| h in subscriptions;
      var m := Watermark(last, subscriptions - {h}, store);
      if h in store && store[h].latestMsgSeqNum < m then store[h].latestMsgSeqNum else m
  }

  /** `retireMessages_`. */
  ghost function RetireMessages<P>(w: World<P>, cap: nat): (r: World<P>)
    ensures SuffixOf(r.topic.messages, w.topic.messages)
    ensures SameExceptLog(r.topic, w.topic) && r.subs == w.subs && r.next == w.next
  {
    RetireUpTo(w, Watermark(w.topic.lastSeq, w.topic.subscriptions, w.subs), cap)
  }

  /** The eviction loop of `doPublish_`: retire front entries while the log
      holds `MaxMessageCount` or more. */
  function EvictFull<P>(w: World<P>, cap: nat): (r: World<P>)
    ensures |r.topic.messages| == if |w.topic.messages| >= MaxMessageCount then MaxMessageCount - 1 else |w.topic.messages|
    ensures r.topic.messages == w.topic.messages[|w.topic.messages| - |r.topic.messages|..]
    ensures SameExceptLog(r.topic, w.topic) && r.subs == w.subs && r.next == w.next
    decreases |w.topic.messages|
  {
    if |w.topic.messages| >= MaxMessageCount then
      var w1 := RetireFirst(w, cap);
      EvictFull(w1, cap)
    else w
  }

  // ---------------------------------------------------------------------
  // Subscription timeout sweep

  /** A subscription with a finite timeout that has been inactive for longer
      than it. */
  predicate Expired(d: SubscriptionData, now: int)
  {
    d.options.timeoutInSeconds != SubscriptionTimeoutInfinite
    && now - d.lastUpdate > d.options.timeoutInSeconds * 1000
  }

  /** `retireSubscriptions_`: drop and destroy expired subscriptions, and
      for a Queue topic re-run retirement when an expired one was removed.
      A listed handle with no record is dropped, standing in for the
      source's read of a freed record. */
  ghost function Sweep<P>(w: World<P>, now: int, cap: nat): (r: World<P>)
    ensures forall h :: h in r.topic.subscriptions <==>
              h in w.topic.subscriptions && h in w.subs && !Expired(w.subs[h], now)
    ensures forall h :: h in r.subs <==> h in w.subs && !(h in w.topic.subscriptions && Expired(w.subs[h], now))
    ensures forall h :: h in r.subs ==> r.subs[h] == w.subs[h]
    ensures SuffixOf(r.topic.messages, w.topic.messages)
    ensures (w.topic.qos == MessageSingleton || forall h :: h in w.topic.subscriptions && h in w.subs ==> !Expired(w.subs[h], now))
            ==> r.topic.messages == w.topic.messages && r.payloads == w.payloads && r.topic.recycleBin == w.topic.recycleBin
    ensures r.topic.name == w.topic.name && r.topic.qos == w.topic.qos && r.topic.disposing == w.topic.disposing
    ensures r.topic.lastSeq == w.topic.lastSeq && r.topic.lastLockTime == w.topic.lastLockTime && r.next == w.next
  {
    var t := w.topic;
    if t.subscriptions == {} then w
    else
      var expired := ExpiredSubscriptions(w, now);
      var w1 := w.(topic := t.(subscriptions := LiveSubscriptions(w, now)), subs := w.subs - expired);
      if expired != {} && t.qos == MessageQueue then RetireMessages(w1, cap) else w1
  }

  /** The listed subscriptions whose record exists and has expired. */
  function ExpiredSubscriptions<P>(w: World<P>, now: int): (s: set<Handle>)
    ensures forall h :: h in s <==> h in w.topic.subscriptions && h in w.subs && Expired(w.subs[h], now)
  {
    set h | h in w.topic.subscriptions && h in w.subs && Expired(w.subs[h], now)
  }

  /** The listed subscriptions whose record exists and has not expired. */
  function LiveSubscriptions<P>(w: World<P>, now: int): (s: set<Handle>)
    ensures forall h :: h in s <==> h in w.topic.subscriptions && h in w.subs && !Expired(w.subs[h], now)
  {
    set h | h in w.topic.subscriptions && h in w.subs && !Expired(w.subs[h], now)
  }

  // ---------------------------------------------------------------------
  // Operations under the topic's lock

  /** The Singleton fast path of `doPublish_`: the one entry is rewritten in
      place, keeping its payload slot. */
  function Overwrite<P>(w: World<P>, payload: P, seqNum: int, ts: int): World<P>
    requires |w.topic.messages| > 0
  {
    var front := w.topic.messages[0];
    w.(topic := w.topic.(messages := [MessageEntry(front.handle, seqNum, ts)] + w.topic.messages[1..]),
       payloads := w.payloads[front.handle := payload])
  }

  /** The slot a publish writes into: the most recently recycled one, or a
      fresh allocation when the recycle bin is empty. */
  function TakeSlot<P>(w: World<P>, payload: P): (r: (World<P>, Handle))
    ensures r.0.topic.messages == w.topic.messages && SameExceptLog(r.0.topic, w.topic) && r.0.subs == w.subs
  {
    var bin := w.topic.recycleBin;
    if |bin| == 0 then (w.(payloads := w.payloads[w.next := payload], next := w.next + 1), w.next)
    else (w.(topic := w.topic.(recycleBin := bin[..|bin| - 1]), payloads := w.payloads[bin[|bin| - 1] := payload]),
          bin[|bin| - 1])
  }

  /** Append an entry at the end of the log. */
  function Append<P>(w: World<P>, e: MessageEntry): World<P>
  {
    w.(topic := w.topic.(messages := w.topic.messages + [e]))
  }

  /** The world once `doPublish_` has bumped the sequence counter. */
  function Bumped<P>(w: World<P>): (r: World<P>)
    ensures r.topic.lastSeq == w.topic.lastSeq + 1
    ensures r.topic.(lastSeq := w.topic.lastSeq) == w.topic
    ensures r.payloads == w.payloads && r.subs == w.subs && r.next == w.next
  {
    w.(topic := w.topic.(lastSeq := w.topic.lastSeq + 1))
  }

  /** `doPublish_` after the lock is held. The counter is bumped first; a
      Singleton topic with an entry overwrites it in place; otherwise a slot
      is taken from the recycle bin or freshly allocated (which may fail),
      the log is trimmed below `MaxMessageCount` and the entry appended; the
      timeout sweep runs last. */
  ghost function Publish<P>(w: World<P>, payload: P, msgTime: int, now: int, allocOk: bool, cap: nat): (World<P>, bool)
  {
    if w.topic.qos == MessageSingleton && |w.topic.messages| > 0 then
      (OverwritePath(w, payload, msgTime, now, cap), true)
    else
      AppendPath(w, payload, msgTime, now, allocOk, cap)
  }

  /** The Singleton branch of `Publish`. */
  ghost function OverwritePath<P>(w: World<P>, payload: P, msgTime: int, now: int, cap: nat): World<P>
    requires |w.topic.messages| > 0
  {
    var ts := if msgTime == InvalidTimestamp then now else msgTime;
    Sweep(Overwrite(Bumped(w), payload, w.topic.lastSeq + 1, ts), now, cap)
  }

  /** The appending branch of `Publish`. */
  ghost function AppendPath<P>(w: World<P>, payload: P, msgTime: int, now: int, allocOk: bool, cap: nat): (World<P>, bool)
  {
    var ts := if msgTime == InvalidTimestamp then now else msgTime;
    if |w.topic.recycleBin| == 0 && !allocOk then
      (Bumped(w), false)
    else
      var slot := TakeSlot(Bumped(w), payload);
      (Sweep(Append(EvictFull(slot.0, cap), MessageEntry(slot.1, w.topic.lastSeq + 1, ts)), now, cap), true)
  }

  /** `AppendPath` when no slot is to be had. */
  lemma AppendPathRefused<P>(w: World<P>, payload: P, msgTime: int, now: int, allocOk: bool, cap: nat)
    requires |w.topic.recycleBin| == 0 && !allocOk
    ensures AppendPath(w, payload, msgTime, now, allocOk, cap) == (Bumped(w), false)
  {
  }

  /** `AppendPath` when a slot is recycled or allocated, stamped `ts`. */
  lemma AppendPathTaken<P>(w: World<P>, payload: P, msgTime: int, now: int, allocOk: bool, cap: nat, ts: int)
    requires ts == if msgTime == InvalidTimestamp then now else msgTime
    requires |w.topic.recycleBin| > 0 || allocOk
    ensures var slot := TakeSlot(Bumped(w), payload);
            AppendPath(w, payload, msgTime, now, allocOk, cap)
            == (Sweep(Append(EvictFull(slot.0, cap), MessageEntry(slot.1, w.topic.lastSeq + 1, ts)), now, cap), true)
  {
  }

  /** `Publish` when the entry is appended (Queue topic, or empty log). */
  lemma PublishAppendUnfold<P>(w: World<P>, payload: P, msgTime: int, now: int, allocOk: bool, cap: nat)
    requires !(w.topic.qos == MessageSingleton && |w.topic.messages| > 0)
    ensures var seqNum := w.topic.lastSeq + 1;
            var ts := if msgTime == InvalidTimestamp then now else msgTime;
            var slot := TakeSlot(Bumped(w), payload);
            Publish(w, payload, msgTime, now, allocOk, cap)
            == if |w.topic.recycleBin| == 0 && !allocOk then (Bumped(w), false)
               else (Sweep(Append(EvictFull(slot.0, cap), MessageEntry(slot.1, seqNum, ts)), now, cap), true)
  {
  }

  /** `Publish` when a Singleton entry is overwritten. */
  lemma PublishOverwriteUnfold<P>(w: World<P>, payload: P, msgTime: int, now: int, allocOk: bool, cap: nat)
    requires w.topic.qos == MessageSingleton && |w.topic.messages| > 0
    ensures var seqNum := w.topic.lastSeq + 1;
            var ts := if msgTime == InvalidTimestamp then now else msgTime;
            Publish(w, payload, msgTime, now, allocOk, cap)
            == (Sweep(Overwrite(Bumped(w), payload, seqNum, ts), now, cap), true)
  {
  }

  /** `subscribe` after the lock is held: refused while disposing or when the
      record cannot be allocated; otherwise a record whose cursor is the
      current counter is created and its handle joins the subscriber set. */
  function Subscribe<P>(w: World<P>, options: SubscriptionOptions, now: int, allocOk: bool): (World<P>, Option<Handle>)
  {
    if w.topic.disposing || !allocOk then (w, None)
    else
      var h := w.next;
      (w.(topic := w.topic.(subscriptions := w.topic.subscriptions + {h}),
          subs := w.subs[h := SubscriptionData(options, w.topic.lastSeq, now)],
          next := w.next + 1),
       Some(h))
  }

  /** `lookupNextMessage_`: the index of the entry following `cursor`,
      found by arithmetic on the first sequence number. An index the
      arithmetic puts past the end (possible only with gaps, where the source
      asserts) is taken as the end. */
  function LookupNext(msgs: seq<MessageEntry>, cursor: int): (i: nat)
    ensures i <= |msgs|
  {
    var start := cursor + 1;
    if |msgs| < 1 then |msgs|
    else if start <= msgs[0].seqNum then 0
    else if start > msgs[|msgs| - 1].seqNum then |msgs|
    else
      var d := start - msgs[0].seqNum;
      if d < |msgs| then d else |msgs|
  }

  /** What `read_` hands an AtMostOnce reader: the newest entry, unless the
      cursor already names it. */
  function NewestUnseen(msgs: seq<MessageEntry>, cursor: int): (r: Option<MessageEntry>)
    ensures r.Some? <==> |msgs| > 0 && msgs[|msgs| - 1].seqNum != cursor
    ensures r.Some? ==> r.value == msgs[|msgs| - 1]
  {
    if |msgs| > 0 && msgs[|msgs| - 1].seqNum != cursor then Some(msgs[|msgs| - 1]) else None
  }

  /** What `read_` hands an All reader: the entry after the cursor. */
  function NextUnseen(msgs: seq<MessageEntry>, cursor: int): (r: Option<MessageEntry>)
  {
    var i := LookupNext(msgs, cursor);
    if i < |msgs| then Some(msgs[i]) else None
  }

  /** The bookkeeping after a read: when something was consumed, the
      reader's cursor moves to `cursor` and a Queue topic runs retirement;
      the reader's activity time is refreshed either way. */
  ghost function Consume<P>(w: World<P>, h: Handle, moved: bool, cursor: int, now: int, cap: nat): (r: World<P>)
    requires h in w.subs
    ensures h in r.subs && r.subs[h].options == w.subs[h].options && r.subs[h].lastUpdate == now
    ensures r.subs[h].latestMsgSeqNum == if moved then cursor else w.subs[h].latestMsgSeqNum
    ensures r.subs.Keys == w.subs.Keys && forall k :: k in w.subs && k != h ==> r.subs[k] == w.subs[k]
    ensures SuffixOf(r.topic.messages, w.topic.messages) && SameExceptLog(r.topic, w.topic) && r.next == w.next
    ensures !moved || w.topic.qos == MessageSingleton ==> r.topic == w.topic && r.payloads == w.payloads
  {
    var d := w.subs[h];
    var d1 := if moved then d.(latestMsgSeqNum := cursor) else d;
    var w1 := w.(subs := w.subs[h := d1]);
    var w2 := if moved && w.topic.qos == MessageQueue then RetireMessages(w1, cap) else w1;
    w2.(subs := w2.subs[h := d1.(lastUpdate := now)])
  }

  /** `read_`: an unknown handle reads nothing and changes nothing. An
      AtMostOnce reader gets the newest entry if its cursor differs from it;
      an All reader gets the entry after its cursor. */
  ghost function Read<P>(w: World<P>, h: Handle, now: int, cap: nat): (World<P>, Option<MessageEntry>)
  {
    if h !in w.topic.subscriptions || h !in w.subs then (w, None)
    else
      var d := w.subs[h];
      var res := if d.options.qos == AtMostOnce then NewestUnseen(w.topic.messages, d.latestMsgSeqNum)
                 else NextUnseen(w.topic.messages, d.latestMsgSeqNum);
      (Consume(w, h, res.Some?, if res.Some? then res.value.seqNum else d.latestMsgSeqNum, now, cap), res)
  }

  /** `readAll_`: every entry from the one after the cursor to the end, in
      log order; when there is any, the cursor moves to the newest entry. */
  ghost function ReadAll<P>(w: World<P>, h: Handle, now: int, cap: nat): (World<P>, seq<MessageEntry>)
  {
    if h !in w.topic.subscriptions || h !in w.subs then (w, [])
    else
      var m := w.topic.messages;
      var out := m[LookupNext(m, w.subs[h].latestMsgSeqNum)..];
      (Consume(w, h, |out| > 0, if |out| > 0 then m[|m| - 1].seqNum else w.subs[h].latestMsgSeqNum, now, cap), out)
  }

  /** `unsubscribe_`: remove and destroy a known subscription, then on a
      Queue topic run retirement; an unknown handle changes nothing. */
  ghost function Unsubscribe<P>(w: World<P>, h: Handle, cap: nat): (r: World<P>)
    ensures r.topic.subscriptions == w.topic.subscriptions - {h}
    ensures r.subs == if h in w.topic.subscriptions then w.subs - {h} else w.subs
    ensures SuffixOf(r.topic.messages, w.topic.messages) && r.next == w.next
    ensures r.topic.name == w.topic.name && r.topic.qos == w.topic.qos && r.topic.disposing == w.topic.disposing
    ensures r.topic.lastSeq == w.topic.lastSeq && r.topic.lastLockTime == w.topic.lastLockTime
    ensures h !in w.topic.subscriptions || w.topic.qos == MessageSingleton ==> r.topic.messages == w.topic.messages && r.payloads == w.payloads
  {
    if h !in w.topic.subscriptions then w
    else
      var w1 := DropSubscriber(w, h);
      if w.topic.qos == MessageQueue then RetireMessages(w1, cap) else w1
  }

  /** `retireSubscription_` on a listed subscriber: it leaves the set and
      its record is freed. */
  function DropSubscriber<P>(w: World<P>, h: Handle): (r: World<P>)
    ensures r.topic.subscriptions == w.topic.subscriptions - {h} && r.subs == w.subs - {h}
    ensures r.topic.(subscriptions := w.topic.subscriptions) == w.topic
    ensures r.payloads == w.payloads && r.next == w.next
  {
    w.(topic := w.topic.(subscriptions := w.topic.subscriptions - {h}), subs := w.subs - {h})
  }

  /** The locked part of `destroy`: destroy every subscription record and
      every payload slot the topic owns, and empty its containers. */
  function DestroyContents<P>(w: World<P>): World<P>
  {
    var t := w.topic;
    w.(topic := t.(subscriptions := {}, messages := [], recycleBin := []),
       subs := w.subs - t.subscriptions,
       payloads := w.payloads - (set x | x in Owned(t)))
  }

  // ---------------------------------------------------------------------
  // Preservation of the invariant

  lemma DistinctConcat(a: seq<Handle>, b: seq<Handle>)
    ensures Distinct(a + b) <==> Distinct(a) && Distinct(b) && (forall x :: x in a ==> x !in b)
  {
    var s := a + b;
    if Distinct(s) {
      forall i, j | 0 <= i < j < |a| ensures a[i] != a[j] {
        assert s[i] == a[i] && s[j] == a[j];
      }
      forall i, j | 0 <= i < j < |b| ensures b[i] != b[j] {
        assert s[|a| + i] == b[i] && s[|a| + j] == b[j];
      }
      forall x | x in a ensures x !in b {
        var i :| 0 <= i < |a| && a[i] == x;
        forall j | 0 <= j < |b| ensures b[j] != x {
          assert s[i] == a[i] && s[|a| + j] == b[j];
        }
      }
    }
    if Distinct(a) && Distinct(b) && (forall x :: x in a ==> x !in b) {
      forall i, j | 0 <= i < j < |s| ensures s[i] != s[j] {
        if j < |a| {
          assert s[i] == a[i] && s[j] == a[j];
        } else if i >= |a| {
          assert s[i] == b[i - |a|] && s[j] == b[j - |a|];
        } else {
          var x := a[i];
          assert x in a;
          assert x !in b;
          assert s[j] == b[j - |a|] && s[j] in b;
        }
      }
    }
  }

  lemma HandlesTail(msgs: seq<MessageEntry>)
    requires |msgs| > 0
    ensures Handles(msgs) == [msgs[0].handle] + Handles(msgs[1..])
  {
  }

  lemma HandlesSnoc(msgs: seq<MessageEntry>, e: MessageEntry)
    ensures Handles(msgs + [e]) == Handles(msgs) + [e.handle]
  {
  }

  /** Where the retired front entry's slot goes: the log no longer holds
      it; it joins the recycle bin while the bin has room, and is otherwise
      freed, owned by nothing. */
  lemma RetireFirstRecycles<P>(w: World<P>, cap: nat)
    requires Inv(w, cap) && |w.topic.messages| > 0
    ensures var h0 := w.topic.messages[0].handle;
            var r := RetireFirst(w, cap);
            && h0 !in Handles(r.topic.messages)
            && (|w.topic.recycleBin| < cap ==>
                  r.topic.recycleBin == w.topic.recycleBin + [h0] && r.payloads == w.payloads)
            && (|w.topic.recycleBin| >= cap ==>
                  h0 !in Owned(r.topic) && h0 in w.payloads && r.payloads.Keys == w.payloads.Keys - {h0})
  {
    var t := w.topic;
    var h0 := t.messages[0].handle;
    var rest := Handles(t.messages[1..]) + t.recycleBin;
    HandlesTail(t.messages);
    assert Owned(t) == [h0] + rest;
    DistinctConcat([h0], rest);
    assert h0 !in rest;
    assert h0 in Owned(t);
  }

  /** Retiring the front entry keeps the invariant, and a live slot the topic
      does not own (one a publish holds in hand) stays live and unowned. */
  lemma RetireFirstKeeps<P>(w: World<P>, cap: nat, x: Handle)
    requires Inv(w, cap) && |w.topic.messages| > 0
    ensures Inv(RetireFirst(w, cap), cap)
    ensures x in w.payloads && x !in Owned(w.topic) ==>
              x in RetireFirst(w, cap).payloads && x !in Owned(RetireFirst(w, cap).topic)
  {
    var t := w.topic;
    var r := RetireFirst(w, cap);
    var h0 := t.messages[0].handle;
    var rest := Handles(t.messages[1..]) + t.recycleBin;
    HandlesTail(t.messages);
    assert Owned(t) == [h0] + rest;
    DistinctConcat([h0], rest);
    if |t.recycleBin| >= cap {
      assert Owned(r.topic) == rest;
    } else {
      assert Owned(r.topic) == rest + [h0];
      DistinctConcat(rest, [h0]);
    }
    assert Increasing(r.topic.messages) by {
      forall i, j | 0 <= i < j < |r.topic.messages|
        ensures r.topic.messages[i].seqNum < r.topic.messages[j].seqNum
      {
        assert r.topic.messages[i] == t.messages[i + 1] && r.topic.messages[j] == t.messages[j + 1];
      }
    }
  }

  lemma {:induction false} RetireUpToKeeps<P>(w: World<P>, mark: int, cap: nat)
    requires Inv(w, cap)
    ensures Inv(RetireUpTo(w, mark, cap), cap)
    decreases |w.topic.messages|
  {
    if |w.topic.messages| > 0 && w.topic.messages[0].seqNum <= mark {
      RetireFirstKeeps(w, cap, 0);
      RetireUpToKeeps(RetireFirst(w, cap), mark, cap);
    }
  }

  lemma RetireMessagesKeeps<P>(w: World<P>, cap: nat)
    requires Inv(w, cap)
    ensures Inv(RetireMessages(w, cap), cap)
  {
    RetireUpToKeeps(w, Watermark(w.topic.lastSeq, w.topic.subscriptions, w.subs), cap);
  }

  lemma {:induction false} EvictFullKeeps<P>(w: World<P>, cap: nat, x: Handle)
    requires Inv(w, cap)
    ensures Inv(EvictFull(w, cap), cap)
    ensures x in w.payloads && x !in Owned(w.topic) ==>
              x in EvictFull(w, cap).payloads && x !in Owned(EvictFull(w, cap).topic)
    decreases |w.topic.messages|
  {
    if |w.topic.messages| >= MaxMessageCount {
      RetireFirstKeeps(w, cap, x);
      EvictFullKeeps(RetireFirst(w, cap), cap, x);
    }
  }

  lemma SweepKeeps<P>(w: World<P>, now: int, cap: nat)
    requires Inv(w, cap)
    ensures Inv(Sweep(w, now, cap), cap)
  {
    var t := w.topic;
    if t.subscriptions != {} {
      var expired := set h | h in t.subscriptions && h in w.subs && Expired(w.subs[h], now);
      var kept := set h | h in t.subscriptions && h in w.subs && !Expired(w.subs[h], now);
      var w1 := w.(topic := t.(subscriptions := kept), subs := w.subs - expired);
      assert Owned(w1.topic) == Owned(t);
      assert Inv(w1, cap);
      if expired != {} && t.qos == MessageQueue {
        RetireMessagesKeeps(w1, cap);
      }
    }
  }

  lemma OverwriteKeeps<P>(w: World<P>, payload: P, seqNum: int, ts: int, cap: nat)
    requires Inv(w, cap) && w.topic.qos == MessageSingleton && |w.topic.messages| > 0
    requires seqNum <= w.topic.lastSeq
    ensures Inv(Overwrite(w, payload, seqNum, ts), cap)
  {
    var r := Overwrite(w, payload, seqNum, ts);
    assert Owned(w.topic)[0] == w.topic.messages[0].handle;
    assert w.topic.messages[0].handle in Owned(w.topic);
    assert r.topic.messages == [MessageEntry(w.topic.messages[0].handle, seqNum, ts)];
    assert Handles(r.topic.messages) == Handles(w.topic.messages);
    assert Owned(r.topic) == Owned(w.topic);
  }

  /** The slot taken is live and not owned by the topic. */
  lemma TakeSlotKeeps<P>(w: World<P>, payload: P, cap: nat)
    requires Inv(w, cap)
    ensures var (r, h) := TakeSlot(w, payload);
            Inv(r, cap) && h in r.payloads && h !in Owned(r.topic)
  {
    var (r, h) := TakeSlot(w, payload);
    var bin := w.topic.recycleBin;
    if |bin| == 0 {
      assert Owned(r.topic) == Owned(w.topic);
    } else {
      assert Owned(w.topic) == Owned(r.topic) + [h];
      assert Owned(w.topic)[|Owned(w.topic)| - 1] == h;
      assert h in Owned(w.topic);
      DistinctConcat(Owned(r.topic), [h]);
    }
  }

  lemma AppendKeeps<P>(w: World<P>, e: MessageEntry, cap: nat)
    requires Inv(w, cap) && e.handle in w.payloads && e.handle !in Owned(w.topic)
    requires |w.topic.messages| < MaxMessageCount
    requires w.topic.qos == MessageSingleton ==> |w.topic.messages| == 0
    requires forall i :: 0 <= i < |w.topic.messages| ==> w.topic.messages[i].seqNum < e.seqNum
    requires e.seqNum <= w.topic.lastSeq
    ensures Inv(Append(w, e), cap)
  {
    var m := w.topic.messages;
    var bin := w.topic.recycleBin;
    var r := Append(w, e);
    HandlesSnoc(m, e);
    assert Owned(r.topic) == Handles(m) + ([e.handle] + bin);
    DistinctConcat(Handles(m), bin);
    DistinctConcat([e.handle], bin);
    DistinctConcat(Handles(m), [e.handle] + bin);
  }

  /** The appending path of a publish, from the bumped state on. */
  lemma AppendPathKeeps<P>(w0: World<P>, payload: P, seqNum: int, ts: int, now: int, cap: nat)
    requires Inv(w0, cap) && seqNum == w0.topic.lastSeq
    requires forall i :: 0 <= i < |w0.topic.messages| ==> w0.topic.messages[i].seqNum < seqNum
    requires w0.topic.qos == MessageSingleton ==> |w0.topic.messages| == 0
    ensures var (w1, h) := TakeSlot(w0, payload);
            Inv(Append(EvictFull(w1, cap), MessageEntry(h, seqNum, ts)), cap)
  {
    var r := TakeSlot(w0, payload);
    TakeSlotKeeps(w0, payload, cap);
    AppendAfterEvictKeeps(r.0, MessageEntry(r.1, seqNum, ts), cap);
  }

  /** Trimming a log whose entries all precede `e`, then appending `e` (whose
      slot is live and not the topic's), keeps the invariant. */
  lemma AppendAfterEvictKeeps<P>(w1: World<P>, e: MessageEntry, cap: nat)
    requires Inv(w1, cap) && e.handle in w1.payloads && e.handle !in Owned(w1.topic)
    requires forall i :: 0 <= i < |w1.topic.messages| ==> w1.topic.messages[i].seqNum < e.seqNum
    requires e.seqNum <= w1.topic.lastSeq
    requires w1.topic.qos == MessageSingleton ==> |w1.topic.messages| == 0
    ensures Inv(Append(EvictFull(w1, cap), e), cap)
  {
    var w2 := EvictFull(w1, cap);
    EvictFullKeeps(w1, cap, e.handle);
    SuffixBelow(w1.topic.messages, w2.topic.messages, e.seqNum);
    AppendKeeps(w2, e, cap);
  }

  /** Every entry of a suffix of a log whose entries are below `bound` is
      below `bound`. */
  lemma SuffixBelow(m: seq<MessageEntry>, s: seq<MessageEntry>, bound: int)
    requires SuffixOf(s, m) && forall i :: 0 <= i < |m| ==> m[i].seqNum < bound
    ensures forall i :: 0 <= i < |s| ==> s[i].seqNum < bound
  {
    forall i | 0 <= i < |s| ensures s[i].seqNum < bound {
      assert s[i] == m[|m| - |s| + i];
    }
  }

  lemma BumpedKeeps<P>(w: World<P>, cap: nat)
    requires Inv(w, cap)
    ensures Inv(Bumped(w), cap)
  {
    assert Owned(Bumped(w).topic) == Owned(w.topic);
  }

  lemma PublishKeeps<P>(w: World<P>, payload: P, msgTime: int, now: int, allocOk: bool, cap: nat)
    requires Inv(w, cap)
    ensures Inv(Publish(w, payload, msgTime, now, allocOk, cap).0, cap)
  {
    var t := w.topic;
    var ts := if msgTime == InvalidTimestamp then now else msgTime;
    var seqNum := t.lastSeq + 1;
    var w0 := Bumped(w);
    BumpedKeeps(w, cap);
    if t.qos == MessageSingleton && |t.messages| > 0 {
      PublishOverwriteUnfold(w, payload, msgTime, now, allocOk, cap);
      OverwriteKeeps(w0, payload, seqNum, ts, cap);
      SweepKeeps(Overwrite(w0, payload, seqNum, ts), now, cap);
    } else {
      PublishAppendUnfold(w, payload, msgTime, now, allocOk, cap);
      if |t.recycleBin| > 0 || allocOk {
        AppendPathKeeps(w0, payload, seqNum, ts, now, cap);
        var slot := TakeSlot(w0, payload);
        SweepKeeps(Append(EvictFull(slot.0, cap), MessageEntry(slot.1, seqNum, ts)), now, cap);
      }
    }
  }

  lemma SubscribeKeeps<P>(w: World<P>, options: SubscriptionOptions, now: int, allocOk: bool, cap: nat)
    requires Inv(w, cap)
    ensures Inv(Subscribe(w, options, now, allocOk).0, cap)
  {
  }

  lemma ConsumeKeeps<P>(w: World<P>, h: Handle, moved: bool, cursor: int, now: int, cap: nat)
    requires Inv(w, cap) && h in w.subs
    ensures Inv(Consume(w, h, moved, cursor, now, cap), cap)
  {
    var d := w.subs[h];
    var d1 := if moved then d.(latestMsgSeqNum := cursor) else d;
    var w1 := w.(subs := w.subs[h := d1]);
    if moved && w.topic.qos == MessageQueue {
      RetireMessagesKeeps(w1, cap);
    }
  }

  lemma ReadKeeps<P>(w: World<P>, h: Handle, now: int, cap: nat)
    requires Inv(w, cap)
    ensures Inv(Read(w, h, now, cap).0, cap)
  {
    if h in w.topic.subscriptions && h in w.subs {
      var d := w.subs[h];
      var res := if d.options.qos == AtMostOnce then NewestUnseen(w.topic.messages, d.latestMsgSeqNum)
                 else NextUnseen(w.topic.messages, d.latestMsgSeqNum);
      ConsumeKeeps(w, h, res.Some?, if res.Some? then res.value.seqNum else d.latestMsgSeqNum, now, cap);
    }
  }

  lemma ReadAllKeeps<P>(w: World<P>, h: Handle, now: int, cap: nat)
    requires Inv(w, cap)
    ensures Inv(ReadAll(w, h, now, cap).0, cap)
  {
    if h in w.topic.subscriptions && h in w.subs {
      var m := w.topic.messages;
      var out := m[LookupNext(m, w.subs[h].latestMsgSeqNum)..];
      ConsumeKeeps(w, h, |out| > 0, if |out| > 0 then m[|m| - 1].seqNum else w.subs[h].latestMsgSeqNum, now, cap);
    }
  }

  lemma UnsubscribeKeeps<P>(w: World<P>, h: Handle, cap: nat)
    requires Inv(w, cap)
    ensures Inv(Unsubscribe(w, h, cap), cap)
  {
    if h in w.topic.subscriptions {
      var w1 := DropSubscriber(w, h);
      assert Owned(w1.topic) == Owned(w.topic);
      assert Inv(w1, cap);
      if w.topic.qos == MessageQueue {
        RetireMessagesKeeps(w1, cap);
      }
    }
  }

  lemma DestroyContentsKeeps<P>(w: World<P>, cap: nat)
    requires Inv(w, cap)
    ensures Inv(DestroyContents(w), cap)
  {
    assert Owned(DestroyContents(w).topic) == [];
  }
}
