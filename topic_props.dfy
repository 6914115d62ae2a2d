/** What a topic's operations promise their callers, stated over the
    functions of `TopicSpec`: the effect of each publish mode, what each read
    mode returns, what retirement keeps and drops, the timeout sweep, and the
    sequence gap a failed publish leaves behind. */
module TopicProps {
  import opened ShmDefs
  import opened TopicSpec

  // ---------------------------------------------------------------------
  // Sequence numbers of a contiguous log

  /** In a log without gaps, entry `j` is numbered `j` past the first. */
  lemma {:induction false} ConsecutiveOffset(msgs: seq<MessageEntry>, j: nat)
    requires Consecutive(msgs) && j < |msgs|
    ensures msgs[j].seqNum == msgs[0].seqNum + j
  {
    if j > 0 {
      ConsecutiveOffset(msgs, j - 1);
    }
  }

  lemma ConsecutiveIncreasing(msgs: seq<MessageEntry>)
    requires Consecutive(msgs)
    ensures Increasing(msgs)
  {
    forall i, j | 0 <= i < j < |msgs| ensures msgs[i].seqNum < msgs[j].seqNum {
      ConsecutiveOffset(msgs, i);
      ConsecutiveOffset(msgs, j);
    }
  }

  lemma SuffixConsecutive(s: seq<MessageEntry>, t: seq<MessageEntry>)
    requires Consecutive(t) && SuffixOf(s, t)
    ensures Consecutive(s)
  {
    var d := |t| - |s|;
    forall i | 0 <= i < |s| - 1 ensures s[i + 1].seqNum == s[i].seqNum + 1 {
      assert s[i] == t[d + i] && s[i + 1] == t[d + i + 1];
    }
  }

  /** Any change that only takes entries from the front of the log and keeps
      the counter keeps the log contiguous. */
  lemma SuffixContiguous(u: TopicState, t: TopicState)
    requires Contiguous(t) && SuffixOf(u.messages, t.messages) && u.lastSeq == t.lastSeq
    ensures Contiguous(u)
  {
    SuffixConsecutive(u.messages, t.messages);
    if |u.messages| > 0 {
      assert u.messages[|u.messages| - 1] == t.messages[|t.messages| - 1];
    }
  }

  // ---------------------------------------------------------------------
  // lookupNextMessage_

  /** The reference definition: the index of the first entry newer than the
      cursor, found by scanning from the front. */
  function FirstAfter(msgs: seq<MessageEntry>, cursor: int): (i: nat)
    ensures i <= |msgs|
    ensures forall j :: 0 <= j < i ==> msgs[j].seqNum <= cursor
    ensures i < |msgs| ==> msgs[i].seqNum > cursor
    decreases |msgs|
  {
    if |msgs| == 0 || msgs[0].seqNum > cursor then 0
    else 1 + FirstAfter(msgs[1..], cursor)
  }

  /** On a log without gaps, the arithmetic of `lookupNextMessage_` finds the
      first entry newer than the cursor. */
  lemma LookupNextContiguous(msgs: seq<MessageEntry>, cursor: int)
    requires Consecutive(msgs)
    ensures LookupNext(msgs, cursor) == FirstAfter(msgs, cursor)
  {
    var i := LookupNext(msgs, cursor);
    var k := FirstAfter(msgs, cursor);
    ConsecutiveIncreasing(msgs);
    if |msgs| > 0 {
      ConsecutiveOffset(msgs, |msgs| - 1);
      if i < |msgs| {
        ConsecutiveOffset(msgs, i);
        if i > 0 {
          ConsecutiveOffset(msgs, i - 1);
        }
      }
      if k < |msgs| {
        ConsecutiveOffset(msgs, k);
      }
      if k > 0 {
        ConsecutiveOffset(msgs, k - 1);
      }
    }
  }

  /** With a gap in the log the arithmetic overshoots: after the entries
      numbered 1, 3, 4, 5, a reader whose cursor is 3 is handed entry 5 and
      entry 4 is skipped. */
  lemma GapMakesLookupSkip()
    ensures var msgs := [MessageEntry(10, 1, 0), MessageEntry(11, 3, 0), MessageEntry(12, 4, 0), MessageEntry(13, 5, 0)];
            LookupNext(msgs, 3) == 3 && FirstAfter(msgs, 3) == 2 && msgs[LookupNext(msgs, 3)].seqNum == 5
  {
    var msgs := [MessageEntry(10, 1, 0), MessageEntry(11, 3, 0), MessageEntry(12, 4, 0), MessageEntry(13, 5, 0)];
    assert msgs[1..][1..] == [MessageEntry(12, 4, 0), MessageEntry(13, 5, 0)];
  }

  // ---------------------------------------------------------------------
  // Retirement

  /** Retirement drops only entries every live subscriber has consumed (and
      that are not ahead of the counter), and keeps every entry some live
      subscriber has not yet read. */
  lemma RetireMessagesKeepsUnread<P>(w: World<P>, cap: nat)
    ensures var r := RetireMessages(w, cap);
            var m := w.topic.messages;
            var dropped := |m| - |r.topic.messages|;
            && (forall i :: 0 <= i < dropped ==> m[i].seqNum <= w.topic.lastSeq)
            && (forall i, h :: 0 <= i < dropped && h in w.topic.subscriptions && h in w.subs
                  ==> m[i].seqNum <= w.subs[h].latestMsgSeqNum)
            && (forall i, h :: (0 <= i < |m| && h in w.topic.subscriptions && h in w.subs
                                 && m[i].seqNum > w.subs[h].latestMsgSeqNum) ==> m[i] in r.topic.messages)
  {
    var mark := Watermark(w.topic.lastSeq, w.topic.subscriptions, w.subs);
    var r := RetireMessages(w, cap);
    var m := w.topic.messages;
    var dropped := |m| - |r.topic.messages|;
    forall i, h | 0 <= i < |m| && h in w.topic.subscriptions && h in w.subs && m[i].seqNum > w.subs[h].latestMsgSeqNum
      ensures m[i] in r.topic.messages
    {
      assert r.topic.messages[i - dropped] == m[i];
    }
  }

  /** Retirement empties the log exactly when no subscriber is behind the
      newest entry; in particular a topic with no subscribers ends with an
      empty log. */
  lemma RetireWithoutSubscribersEmpties<P>(w: World<P>, cap: nat)
    requires Inv(w, cap) && w.topic.subscriptions == {}
    ensures RetireMessages(w, cap).topic.messages == []
  {
  }

  /** The front entry left by retirement is newer than the counter or than
      some live subscriber's cursor: nothing every reader has consumed stays. */
  lemma RetireMessagesFront<P>(w: World<P>, cap: nat)
    ensures var r := RetireMessages(w, cap);
            |r.topic.messages| > 0 ==>
              r.topic.messages[0].seqNum > w.topic.lastSeq
              || exists h :: h in w.topic.subscriptions && h in w.subs
                   && r.topic.messages[0].seqNum > w.subs[h].latestMsgSeqNum
  {
  }

  // ---------------------------------------------------------------------
  // Publish

  /** The timestamp a publish stamps. */
  function Stamp(msgTime: int, now: int): (ts: int)
    ensures msgTime != InvalidTimestamp ==> ts == msgTime
    ensures msgTime == InvalidTimestamp ==> ts == now
  {
    if msgTime == InvalidTimestamp then now else msgTime
  }

  /** The overwrite on its own: the one entry keeps its slot and takes the
      given number and time, the slot holds the new payload, and the sweep
      leaves the log, the bin and the payloads of a Singleton topic alone. */
  lemma OverwriteSingleton<P>(w: World<P>, payload: P, seqNum: int, ts: int, now: int, cap: nat)
    requires w.topic.qos == MessageSingleton && |w.topic.messages| == 1
    ensures var r := Sweep(Overwrite(w, payload, seqNum, ts), now, cap);
            var h := w.topic.messages[0].handle;
            && r.topic.messages == [MessageEntry(h, seqNum, ts)]
            && r.payloads == w.payloads[h := payload]
            && r.topic.lastSeq == w.topic.lastSeq
            && r.topic.recycleBin == w.topic.recycleBin && r.next == w.next
  {
    var w1 := Overwrite(w, payload, seqNum, ts);
    assert w1.topic.messages == [MessageEntry(w.topic.messages[0].handle, seqNum, ts)];
  }

  /** A Singleton topic with an entry rewrites that entry in place: same slot,
      the next sequence number, the stamped time, the new payload; the log
      still holds exactly one entry and the counter rises by one. */
  lemma SingletonPublishOverwrites<P>(w: World<P>, payload: P, msgTime: int, now: int, allocOk: bool, cap: nat)
    requires w.topic.qos == MessageSingleton && |w.topic.messages| == 1
    ensures var (r, ok) := Publish(w, payload, msgTime, now, allocOk, cap);
            var h := w.topic.messages[0].handle;
            && ok
            && r.topic.lastSeq == w.topic.lastSeq + 1
            && r.topic.messages == [MessageEntry(h, w.topic.lastSeq + 1, Stamp(msgTime, now))]
            && h in r.payloads && r.payloads[h] == payload
            && r.topic.recycleBin == w.topic.recycleBin && r.next == w.next
  {
    PublishOverwriteUnfold(w, payload, msgTime, now, allocOk, cap);
    OverwriteSingleton(Bumped(w), payload, w.topic.lastSeq + 1, Stamp(msgTime, now), now, cap);
  }

  /** A publish whose slot cannot be allocated (empty recycle bin) fails
      after bumping the counter; nothing else changes. */
  lemma PublishAllocFailure<P>(w: World<P>, payload: P, msgTime: int, now: int, cap: nat)
    requires !(w.topic.qos == MessageSingleton && |w.topic.messages| > 0) && w.topic.recycleBin == []
    ensures var (r, ok) := Publish(w, payload, msgTime, now, false, cap);
            && !ok
            && r == w.(topic := w.topic.(lastSeq := w.topic.lastSeq + 1))
  {
  }

  /** So the failed publish leaves a gap: a contiguous non-empty log no
      longer ends at the counter. */
  lemma PublishAllocFailureLeavesGap<P>(w: World<P>, payload: P, msgTime: int, now: int, cap: nat)
    requires !(w.topic.qos == MessageSingleton && |w.topic.messages| > 0) && w.topic.recycleBin == []
    requires Contiguous(w.topic) && |w.topic.messages| > 0
    ensures !Contiguous(Publish(w, payload, msgTime, now, false, cap).0.topic)
  {
    PublishAllocFailure(w, payload, msgTime, now, cap);
  }

  /** No subscriber of `w` has timed out at `now`. */
  predicate NoneExpired<P>(w: World<P>, now: int)
  {
    forall h :: h in w.topic.subscriptions && h in w.subs ==> !Expired(w.subs[h], now)
  }

  /** A sweep in which no subscriber has timed out leaves the log, the
      recycle bin, the payload slots and the counters alone. */
  lemma SweepQuiet<P>(w: World<P>, now: int, cap: nat)
    requires NoneExpired(w, now)
    ensures var r := Sweep(w, now, cap);
            && r.topic.messages == w.topic.messages && r.topic.recycleBin == w.topic.recycleBin
            && r.payloads == w.payloads && r.topic.lastSeq == w.topic.lastSeq && r.next == w.next
  {
  }

  /** The world the appending path of a publish builds before its sweep:
      the slot taken, the trimmed log with the new entry, the counters. */
  lemma AppendPathShape<P>(w0: World<P>, payload: P, seqNum: int, ts: int, cap: nat)
    ensures var bin := w0.topic.recycleBin;
            var slot := TakeSlot(w0, payload);
            var w3 := Append(EvictFull(slot.0, cap), MessageEntry(slot.1, seqNum, ts));
            var m := w0.topic.messages;
            var kept := if |m| >= MaxMessageCount then MaxMessageCount - 1 else |m|;
            && slot.1 == (if bin == [] then w0.next else bin[|bin| - 1])
            && w3.topic.messages == m[|m| - kept..] + [MessageEntry(slot.1, seqNum, ts)]
            && w3.topic.lastSeq == w0.topic.lastSeq && w3.next == (if bin == [] then w0.next + 1 else w0.next)
            && w3.topic.subscriptions == w0.topic.subscriptions && w3.subs == w0.subs
  {
  }

  /** A Queue publish that can get a slot takes the most recently recycled
      one, or allocates a fresh one when the bin is empty; it drops the
      oldest entries so that at most 9999 remain and appends the new entry.
      (When no subscriber times out in the same call, nothing else touches
      the log.) */
  lemma QueuePublishAppends<P>(w: World<P>, payload: P, msgTime: int, now: int, allocOk: bool, cap: nat)
    requires w.topic.qos == MessageQueue && NoneExpired(w, now)
    requires w.topic.recycleBin != [] || allocOk
    ensures var (r, ok) := Publish(w, payload, msgTime, now, allocOk, cap);
            var bin := w.topic.recycleBin;
            var h := if bin == [] then w.next else bin[|bin| - 1];
            var m := w.topic.messages;
            var kept := if |m| >= MaxMessageCount then MaxMessageCount - 1 else |m|;
            && ok
            && r.topic.lastSeq == w.topic.lastSeq + 1
            && r.topic.messages == m[|m| - kept..] + [MessageEntry(h, w.topic.lastSeq + 1, Stamp(msgTime, now))]
            && |r.topic.messages| <= MaxMessageCount
            && r.next == (if bin == [] then w.next + 1 else w.next)
  {
    var seqNum := w.topic.lastSeq + 1;
    var slot := TakeSlot(Bumped(w), payload);
    var w3 := Append(EvictFull(slot.0, cap), MessageEntry(slot.1, seqNum, Stamp(msgTime, now)));
    PublishAppendUnfold(w, payload, msgTime, now, allocOk, cap);
    AppendPathShape(Bumped(w), payload, seqNum, Stamp(msgTime, now), cap);
    assert NoneExpired(w3, now);
    SweepQuiet(w3, now, cap);
  }

  /** ... and the slot it appends holds the published payload. */
  lemma QueuePublishStores<P>(w: World<P>, payload: P, msgTime: int, now: int, allocOk: bool, cap: nat)
    requires Inv(w, cap) && w.topic.qos == MessageQueue && NoneExpired(w, now)
    requires w.topic.recycleBin != [] || allocOk
    ensures var (r, ok) := Publish(w, payload, msgTime, now, allocOk, cap);
            var bin := w.topic.recycleBin;
            var h := if bin == [] then w.next else bin[|bin| - 1];
            h in r.payloads && r.payloads[h] == payload
  {
    var seqNum := w.topic.lastSeq + 1;
    var w0 := Bumped(w);
    BumpedKeeps(w, cap);
    var slot := TakeSlot(w0, payload);
    var w3 := Append(EvictFull(slot.0, cap), MessageEntry(slot.1, seqNum, Stamp(msgTime, now)));
    AppendPathStores(w0, payload, seqNum, Stamp(msgTime, now), cap);
    PublishAppendUnfold(w, payload, msgTime, now, allocOk, cap);
    AppendPathShape(w0, payload, seqNum, Stamp(msgTime, now), cap);
    assert NoneExpired(w3, now);
    SweepQuiet(w3, now, cap);
  }

  /** On the appending path the slot taken ends up holding the payload. */
  lemma AppendPathStores<P>(w0: World<P>, payload: P, seqNum: int, ts: int, cap: nat)
    requires Inv(w0, cap)
    ensures var slot := TakeSlot(w0, payload);
            var w3 := Append(EvictFull(slot.0, cap), MessageEntry(slot.1, seqNum, ts));
            slot.1 in w3.payloads && w3.payloads[slot.1] == payload
  {
    var slot := TakeSlot(w0, payload);
    TakeSlotKeeps(w0, payload, cap);
    PayloadsKeptByEvict(slot.0, cap, slot.1);
  }

  /** Trimming the log never touches a slot the topic does not own. */
  lemma {:induction false} PayloadsKeptByEvict<P>(w: World<P>, cap: nat, x: Handle)
    requires Inv(w, cap) && x in w.payloads && x !in Owned(w.topic)
    ensures x in EvictFull(w, cap).payloads && EvictFull(w, cap).payloads[x] == w.payloads[x]
    decreases |w.topic.messages|
  {
    if |w.topic.messages| >= MaxMessageCount {
      RetireFirstKeeps(w, cap, x);
      PayloadsKeptByEvict(RetireFirst(w, cap), cap, x);
    }
  }

  lemma ConsecutiveSnoc(m: seq<MessageEntry>, e: MessageEntry)
    requires Consecutive(m) && (|m| > 0 ==> e.seqNum == m[|m| - 1].seqNum + 1)
    ensures Consecutive(m + [e])
  {
    var s := m + [e];
    forall i | 0 <= i < |s| - 1 ensures s[i + 1].seqNum == s[i].seqNum + 1 {
      assert s[i] == m[i];
    }
  }

  /** The appending path of a publish keeps the log contiguous. */
  lemma AppendPathContiguous<P>(w0: World<P>, payload: P, seqNum: int, ts: int, cap: nat)
    requires Consecutive(w0.topic.messages) && seqNum == w0.topic.lastSeq
    requires |w0.topic.messages| > 0 ==> w0.topic.messages[|w0.topic.messages| - 1].seqNum + 1 == seqNum
    ensures var (w1, h) := TakeSlot(w0, payload);
            Contiguous(Append(EvictFull(w1, cap), MessageEntry(h, seqNum, ts)).topic)
  {
    var slot := TakeSlot(w0, payload);
    var e := MessageEntry(slot.1, seqNum, ts);
    var w2 := EvictFull(slot.0, cap);
    SuffixSnocConsecutive(w0.topic.messages, w2.topic.messages, e);
    assert Append(w2, e).topic.messages == w2.topic.messages + [e];
  }

  /** Keeping a suffix of a consecutive log and appending the entry that
      follows its last one yields a consecutive log. */
  lemma SuffixSnocConsecutive(m: seq<MessageEntry>, s: seq<MessageEntry>, e: MessageEntry)
    requires Consecutive(m) && SuffixOf(s, m)
    requires |m| > 0 ==> e.seqNum == m[|m| - 1].seqNum + 1
    ensures Consecutive(s + [e])
  {
    SuffixConsecutive(s, m);
    if |s| > 0 {
      assert s[|s| - 1] == m[|m| - 1];
    }
    ConsecutiveSnoc(s, e);
  }

  /** A successful publish keeps the log contiguous. */
  lemma PublishKeepsContiguous<P>(w: World<P>, payload: P, msgTime: int, now: int, allocOk: bool, cap: nat)
    requires Contiguous(w.topic) && (w.topic.qos == MessageSingleton ==> |w.topic.messages| <= 1)
    requires Publish(w, payload, msgTime, now, allocOk, cap).1
    ensures Contiguous(Publish(w, payload, msgTime, now, allocOk, cap).0.topic)
  {
    var t := w.topic;
    var seqNum := t.lastSeq + 1;
    var ts := Stamp(msgTime, now);
    if t.qos == MessageSingleton && |t.messages| > 0 {
      PublishOverwriteUnfold(w, payload, msgTime, now, allocOk, cap);
      OverwritePathContiguous(w, payload, ts, now, cap);
    } else {
      PublishAppendUnfold(w, payload, msgTime, now, allocOk, cap);
      var slot := TakeSlot(Bumped(w), payload);
      var w3 := Append(EvictFull(slot.0, cap), MessageEntry(slot.1, seqNum, ts));
      AppendPathContiguous(Bumped(w), payload, seqNum, ts, cap);
      SuffixContiguous(Sweep(w3, now, cap).topic, w3.topic);
    }
  }

  /** Overwriting the single entry of a Singleton log with the next sequence
      number, then sweeping, leaves a contiguous log. */
  lemma OverwritePathContiguous<P>(w: World<P>, payload: P, ts: int, now: int, cap: nat)
    requires w.topic.qos == MessageSingleton && |w.topic.messages| == 1
    ensures Contiguous(Sweep(Overwrite(Bumped(w), payload, w.topic.lastSeq + 1, ts), now, cap).topic)
  {
    var w1 := Overwrite(Bumped(w), payload, w.topic.lastSeq + 1, ts);
    assert w1.topic.messages == [MessageEntry(w.topic.messages[0].handle, w.topic.lastSeq + 1, ts)];
    SuffixContiguous(Sweep(w1, now, cap).topic, w1.topic);
  }

  // ---------------------------------------------------------------------
  // Subscribe

  /** `subscribe` refuses while disposing or when the record cannot be
      allocated; otherwise the new record's cursor is the counter, its
      activity time is now, and only its handle joins the subscriber set. */
  lemma SubscribeEffect<P>(w: World<P>, options: SubscriptionOptions, now: int, allocOk: bool, cap: nat)
    requires Inv(w, cap)
    ensures var (r, res) := Subscribe(w, options, now, allocOk);
            && (res.None? <==> w.topic.disposing || !allocOk)
            && (res.None? ==> r == w)
            && (res.Some? ==>
                  && res.value == w.next && res.value !in w.subs && res.value !in w.payloads && r.next == w.next + 1
                  && r.topic.subscriptions == w.topic.subscriptions + {res.value}
                  && r.subs == w.subs[res.value := SubscriptionData(options, w.topic.lastSeq, now)]
                  && r.topic.messages == w.topic.messages && r.topic.lastSeq == w.topic.lastSeq)
  {
  }

  /** A new subscriber sees no history: an All reader's first read finds
      nothing; so does an AtMostOnce reader's while the log ends at the
      counter. */
  lemma NewSubscriberSeesNoHistory<P>(w: World<P>, options: SubscriptionOptions, now: int, later: int, cap: nat)
    requires Inv(w, cap) && !w.topic.disposing
    requires options.qos == All || Contiguous(w.topic)
    ensures var (r, res) := Subscribe(w, options, now, true);
            Read(r, res.value, later, cap).1.None?
  {
    var (r, res) := Subscribe(w, options, now, true);
    var h := res.value;
    var m := w.topic.messages;
    assert r.topic.messages == m && h in r.topic.subscriptions && r.subs[h] == SubscriptionData(options, w.topic.lastSeq, now);
    if options.qos == All {
      if |m| > 0 {
        assert m[|m| - 1].seqNum <= w.topic.lastSeq;
      }
      assert NextUnseen(m, w.topic.lastSeq).None?;
    } else {
      assert NewestUnseen(m, w.topic.lastSeq).None?;
    }
  }

  /** After a failed publish a new AtMostOnce subscriber is handed the newest
      entry, published before it subscribed. */
  lemma GapShowsOldMessageToNewSubscriber<P>(w: World<P>, payload: P, msgTime: int, now: int, later: int, cap: nat)
    requires Inv(w, cap) && !w.topic.disposing && Contiguous(w.topic) && |w.topic.messages| > 0
    requires w.topic.qos == MessageQueue && w.topic.recycleBin == []
    ensures var w1 := Publish(w, payload, msgTime, now, false, cap).0;
            var (w2, res) := Subscribe(w1, DefaultSubscriptionOptions, now, true);
            Read(w2, res.value, later, cap).1 == Some(w.topic.messages[|w.topic.messages| - 1])
  {
    PublishAllocFailure(w, payload, msgTime, now, cap);
  }

  // ---------------------------------------------------------------------
  // Reads

  /** `read_` on a handle the topic does not know returns nothing and
      changes nothing. */
  lemma ReadUnknown<P>(w: World<P>, h: Handle, now: int, cap: nat)
    requires h !in w.topic.subscriptions || h !in w.subs
    ensures Read(w, h, now, cap) == (w, None)
  {
  }

  /** An AtMostOnce reader is handed the newest entry exactly when its
      cursor is not that entry's number, and its cursor then moves there. */
  lemma AtMostOnceReadsNewest<P>(w: World<P>, h: Handle, now: int, cap: nat)
    requires h in w.topic.subscriptions && h in w.subs && w.subs[h].options.qos == AtMostOnce
    ensures var (r, res) := Read(w, h, now, cap);
            var m := w.topic.messages;
            && (res.Some? <==> |m| > 0 && m[|m| - 1].seqNum != w.subs[h].latestMsgSeqNum)
            && (res.Some? ==> res.value == m[|m| - 1] && r.subs[h].latestMsgSeqNum == res.value.seqNum)
            && (res.None? ==> r.subs[h].latestMsgSeqNum == w.subs[h].latestMsgSeqNum)
            && r.subs[h].lastUpdate == now
  {
  }

  /** A second AtMostOnce read with no publish in between finds nothing. */
  lemma AtMostOnceSecondReadFails<P>(w: World<P>, h: Handle, now: int, later: int, cap: nat)
    requires h in w.topic.subscriptions && h in w.subs && w.subs[h].options.qos == AtMostOnce
    ensures var w1 := Read(w, h, now, cap).0;
            Read(w1, h, later, cap).1.None?
  {
    var (w1, res) := Read(w, h, now, cap);
    var m := w.topic.messages;
    var m1 := w1.topic.messages;
    if |m1| > 0 {
      assert m1[|m1| - 1] == m[|m| - 1];
    }
  }

  /** On a contiguous log an All reader is handed the entry after its cursor
      (the oldest entry if the cursor is older than the whole log), or
      nothing when it is up to date; its cursor moves to what it got. */
  lemma AllReadReturnsNext<P>(w: World<P>, h: Handle, now: int, cap: nat)
    requires h in w.topic.subscriptions && h in w.subs && w.subs[h].options.qos == All
    requires Consecutive(w.topic.messages)
    ensures var (r, res) := Read(w, h, now, cap);
            var m := w.topic.messages;
            var c := w.subs[h].latestMsgSeqNum;
            && (res.Some? <==> |m| > 0 && m[|m| - 1].seqNum > c)
            && (res.Some? && c < m[0].seqNum ==> res.value == m[0])
            && (res.Some? && c >= m[0].seqNum ==> res.value.seqNum == c + 1 && res.value in m)
            && (res.Some? ==> r.subs[h].latestMsgSeqNum == res.value.seqNum)
  {
    NextUnseenContiguous(w.topic.messages, w.subs[h].latestMsgSeqNum);
  }

  /** On a contiguous log the entry after the cursor is the oldest one when
      the cursor is older than the log, the one numbered `cursor + 1`
      otherwise, and there is one exactly when the newest entry is newer
      than the cursor. */
  lemma NextUnseenContiguous(m: seq<MessageEntry>, c: int)
    requires Consecutive(m)
    ensures var res := NextUnseen(m, c);
            && (res.Some? <==> |m| > 0 && m[|m| - 1].seqNum > c)
            && (res.Some? && c < m[0].seqNum ==> res.value == m[0])
            && (res.Some? && c >= m[0].seqNum ==> res.value.seqNum == c + 1 && res.value in m)
  {
    LookupNextContiguous(m, c);
    ConsecutiveIncreasing(m);
    var i := FirstAfter(m, c);
    if i < |m| {
      assert m[|m| - 1].seqNum >= m[i].seqNum;
      if c >= m[0].seqNum {
        assert i > 0;
        ConsecutiveOffset(m, i);
        ConsecutiveOffset(m, i - 1);
      }
    }
    if |m| > 0 && m[|m| - 1].seqNum > c {
      assert i < |m|;
    }
  }

  /** On an increasing log, the entries from `FirstAfter` on are exactly the
      entries newer than the cursor. */
  lemma FirstAfterSplits(m: seq<MessageEntry>, c: int)
    requires Increasing(m)
    ensures forall e :: e in m[FirstAfter(m, c)..] ==> e.seqNum > c
    ensures forall i :: 0 <= i < |m| && m[i].seqNum > c ==> m[i] in m[FirstAfter(m, c)..]
  {
    var k := FirstAfter(m, c);
    var out := m[k..];
    forall e | e in out ensures e.seqNum > c {
      var j :| 0 <= j < |out| && out[j] == e;
      assert out[j] == m[k + j];
    }
    forall i | 0 <= i < |m| && m[i].seqNum > c ensures m[i] in out {
      assert out[i - k] == m[i];
    }
  }

  /** On a contiguous log `readAll_` hands over the log from the first entry
      newer than the cursor to the end (so, by `FirstAfterSplits`, exactly
      the entries newer than the cursor, in log order), and moves the cursor
      to the newest. */
  lemma ReadAllReturnsUnread<P>(w: World<P>, h: Handle, now: int, cap: nat)
    requires h in w.topic.subscriptions && h in w.subs && Consecutive(w.topic.messages)
    ensures var (r, out) := ReadAll(w, h, now, cap);
            var m := w.topic.messages;
            var c := w.subs[h].latestMsgSeqNum;
            && out == m[FirstAfter(m, c)..]
            && (|out| > 0 ==> r.subs[h].latestMsgSeqNum == m[|m| - 1].seqNum)
            && (|out| == 0 ==> r.subs[h].latestMsgSeqNum == c)
  {
    var m := w.topic.messages;
    var c := w.subs[h].latestMsgSeqNum;
    LookupNextContiguous(m, c);
    var out := m[FirstAfter(m, c)..];
    assert ReadAll(w, h, now, cap) == (Consume(w, h, |out| > 0, if |out| > 0 then m[|m| - 1].seqNum else c, now, cap), out);
  }

  /** One `readAll_` by a known reader: what it hands over, where the cursor
      ends, and that the log keeps a suffix of itself. */
  lemma ReadAllStep<P>(w: World<P>, h: Handle, now: int, cap: nat)
    requires h in w.topic.subscriptions && h in w.subs
    ensures var (r, out) := ReadAll(w, h, now, cap);
            var m := w.topic.messages;
            var c := w.subs[h].latestMsgSeqNum;
            && out == m[LookupNext(m, c)..]
            && h in r.topic.subscriptions && h in r.subs
            && r.subs[h].latestMsgSeqNum == (if |out| > 0 then m[|m| - 1].seqNum else c)
            && SuffixOf(r.topic.messages, m)
            && (|out| == 0 ==> r.topic.messages == m)
  {
    var m := w.topic.messages;
    var c := w.subs[h].latestMsgSeqNum;
    var out := m[LookupNext(m, c)..];
    assert ReadAll(w, h, now, cap) == (Consume(w, h, |out| > 0, if |out| > 0 then m[|m| - 1].seqNum else c, now, cap), out);
  }

  /** A suffix of an increasing log holds nothing after its newest entry. */
  lemma NothingAfterNewest(m: seq<MessageEntry>, s: seq<MessageEntry>)
    requires Increasing(m) && SuffixOf(s, m) && |m| > 0
    ensures LookupNext(s, m[|m| - 1].seqNum) == |s|
  {
    if |s| > 0 {
      assert s[|s| - 1] == m[|m| - 1] && s[0] == m[|m| - |s|];
    }
  }

  /** A second `readAll_` with no publish in between hands over nothing. */
  lemma ReadAllDrains<P>(w: World<P>, h: Handle, now: int, later: int, cap: nat)
    requires h in w.topic.subscriptions && h in w.subs && Increasing(w.topic.messages)
    ensures var w1 := ReadAll(w, h, now, cap).0;
            ReadAll(w1, h, later, cap).1 == []
  {
    ReadAllStep(w, h, now, cap);
    var w1 := ReadAll(w, h, now, cap).0;
    ReadAllStep(w1, h, later, cap);
    if |ReadAll(w, h, now, cap).1| > 0 {
      NothingAfterNewest(w.topic.messages, w1.topic.messages);
    }
  }

  /** Reads, retirement, the sweep and unsubscribing only ever take entries
      from the front of the log, so they keep it contiguous. */
  lemma ReadsKeepContiguous<P>(w: World<P>, h: Handle, now: int, cap: nat)
    requires Contiguous(w.topic)
    ensures Contiguous(Read(w, h, now, cap).0.topic)
    ensures Contiguous(ReadAll(w, h, now, cap).0.topic)
    ensures Contiguous(Unsubscribe(w, h, cap).topic)
    ensures Contiguous(Sweep(w, now, cap).topic)
  {
    SuffixContiguous(Read(w, h, now, cap).0.topic, w.topic);
    SuffixContiguous(ReadAll(w, h, now, cap).0.topic, w.topic);
    SuffixContiguous(Unsubscribe(w, h, cap).topic, w.topic);
    SuffixContiguous(Sweep(w, now, cap).topic, w.topic);
  }

  // ---------------------------------------------------------------------
  // Timeout sweep and unsubscribe

  /** A subscription the sweep removed can no longer read. */
  lemma SweptSubscriptionCannotRead<P>(w: World<P>, h: Handle, now: int, later: int, cap: nat)
    requires h in w.topic.subscriptions && h in w.subs && Expired(w.subs[h], now)
    ensures var w1 := Sweep(w, now, cap);
            h !in w1.topic.subscriptions && h !in w1.subs && Read(w1, h, later, cap) == (w1, None)
  {
  }

  /** Unsubscribing twice is the same as unsubscribing once. */
  lemma UnsubscribeIdempotent<P>(w: World<P>, h: Handle, cap: nat)
    ensures var w1 := Unsubscribe(w, h, cap);
            Unsubscribe(w1, h, cap) == w1
  {
  }

  // ---------------------------------------------------------------------
  // A run of Queue publishes read back in one drain

  /** The world after `pubs` (payload and message time each) are published
      in order at `now`, every allocation succeeding. */
  ghost function PublishAll<P>(w: World<P>, pubs: seq<(P, int)>, now: int, cap: nat): World<P>
    decreases |pubs|
  {
    if pubs == [] then w
    else
      var n := |pubs| - 1;
      Publish(PublishAll(w, pubs[..n], now, cap), pubs[n].0, pubs[n].1, now, true, cap).0
  }

  /** The slot the next append takes: the last recycled one, else a fresh
      handle. */
  function NextSlot<P>(w: World<P>): Handle
  {
    if w.topic.recycleBin == [] then w.next else w.topic.recycleBin[|w.topic.recycleBin| - 1]
  }

  /** The slot the next append takes is not one the log uses. */
  lemma NextSlotUnlogged<P>(w: World<P>, cap: nat)
    requires Inv(w, cap)
    ensures NextSlot(w) !in Handles(w.topic.messages)
  {
    var t := w.topic;
    if t.recycleBin == [] {
      assert forall x :: x in Handles(t.messages) ==> x in Owned(t);
    } else {
      DistinctConcat(Handles(t.messages), t.recycleBin);
      assert t.recycleBin[|t.recycleBin| - 1] in t.recycleBin;
    }
  }

  /** A Queue publish into a log that is not full, with no subscriber timed
      out: the entry is appended with nothing evicted and only its slot is
      written; the subscribers are left alone. */
  lemma QueuePublishFits<P>(w: World<P>, r: World<P>, payload: P, msgTime: int, now: int, cap: nat)
    requires w.topic.qos == MessageQueue && NoneExpired(w, now) && |w.topic.messages| < MaxMessageCount
    requires r == Publish(w, payload, msgTime, now, true, cap).0
    ensures r.topic.messages == w.topic.messages + [MessageEntry(NextSlot(w), w.topic.lastSeq + 1, Stamp(msgTime, now))]
    ensures r.payloads == w.payloads[NextSlot(w) := payload]
    ensures r.topic.lastSeq == w.topic.lastSeq + 1 && r.topic.qos == MessageQueue && r.subs == w.subs
    ensures forall x :: x in r.topic.subscriptions <==> x in w.topic.subscriptions && x in w.subs
  {
    var slot := TakeSlot(Bumped(w), payload);
    var w3 := Append(EvictFull(slot.0, cap), MessageEntry(slot.1, w.topic.lastSeq + 1, Stamp(msgTime, now)));
    PublishAppendUnfold(w, payload, msgTime, now, true, cap);
    assert EvictFull(slot.0, cap) == slot.0;
    assert NoneExpired(w3, now);
    SweepQuiet(w3, now, cap);
  }

  /** Entry `e` of world `r` is the publish `pub` (payload, message time)
      numbered `seqNum`: its slot holds the payload. */
  ghost predicate Holds<P>(r: World<P>, e: MessageEntry, seqNum: int, pub: (P, int), now: int)
  {
    && e.seqNum == seqNum && e.timestamp == Stamp(pub.1, now)
    && e.handle in r.payloads && r.payloads[e.handle] == pub.0
  }

  /** Writing a slot the log does not use leaves every logged entry
      holding what it held. */
  lemma HoldsAfterWrite<P>(rp: World<P>, r: World<P>, j: nat, seqNum: int, pub: (P, int), now: int, x: Handle, p: P)
    requires j < |rp.topic.messages| && x !in Handles(rp.topic.messages)
    requires r.payloads == rp.payloads[x := p]
    requires Holds(rp, rp.topic.messages[j], seqNum, pub, now)
    ensures Holds(r, rp.topic.messages[j], seqNum, pub, now)
  {
    assert rp.topic.messages[j].handle in Handles(rp.topic.messages);
  }

  /** What a run of `k` Queue publishes keeps of `w`: the invariant, no
      subscriber timed out, the subscribers, and one more entry and one more
      sequence number per publish. */
  ghost predicate RunKept<P>(w: World<P>, r: World<P>, k: nat, now: int, cap: nat)
  {
    && Inv(r, cap) && NoneExpired(r, now) && r.topic.qos == MessageQueue && r.subs == w.subs
    && (forall x :: x in w.topic.subscriptions && x in w.subs ==> x in r.topic.subscriptions)
    && r.topic.lastSeq == w.topic.lastSeq + k
    && |r.topic.messages| == |w.topic.messages| + k
  }

  /** The log of `r` is `m` followed by one entry per publish of `pubs`,
      numbered on from `seq0`, each slot holding its payload. */
  ghost predicate RunLogged<P>(m: seq<MessageEntry>, seq0: int, r: World<P>, pubs: seq<(P, int)>, now: int)
  {
    && |r.topic.messages| == |m| + |pubs| && r.topic.messages[..|m|] == m
    && forall i :: 0 <= i < |pubs| ==> Holds(r, r.topic.messages[|m| + i], seq0 + 1 + i, pubs[i], now)
  }

  /** One more publish of a run, at the level of worlds. */
  lemma RunKeptStep<P>(w: World<P>, rp: World<P>, r: World<P>, k: nat, pub: (P, int), now: int, cap: nat)
    requires Inv(w, cap) && RunKept(w, rp, k, now, cap) && |w.topic.messages| + k < MaxMessageCount
    requires r == Publish(rp, pub.0, pub.1, now, true, cap).0
    ensures RunKept(w, r, k + 1, now, cap)
    ensures NextSlot(rp) !in Handles(rp.topic.messages)
    ensures r.topic.messages == rp.topic.messages + [MessageEntry(NextSlot(rp), rp.topic.lastSeq + 1, Stamp(pub.1, now))]
    ensures r.payloads == rp.payloads[NextSlot(rp) := pub.0]
  {
    QueuePublishFits(rp, r, pub.0, pub.1, now, cap);
    PublishKeeps(rp, pub.0, pub.1, now, true, cap);
    NextSlotUnlogged(rp, cap);
  }

  /** One more publish of a run, at the level of the log. */
  lemma RunLoggedStep<P>(m: seq<MessageEntry>, seq0: int, rp: World<P>, r: World<P>, pre: seq<(P, int)>, pub: (P, int), now: int)
    requires RunLogged(m, seq0, rp, pre, now) && rp.topic.lastSeq == seq0 + |pre|
    requires NextSlot(rp) !in Handles(rp.topic.messages)
    requires r.topic.messages == rp.topic.messages + [MessageEntry(NextSlot(rp), rp.topic.lastSeq + 1, Stamp(pub.1, now))]
    requires r.payloads == rp.payloads[NextSlot(rp) := pub.0]
    ensures RunLogged(m, seq0, r, pre + [pub], now)
  {
    var pubs := pre + [pub];
    assert r.topic.messages[..|m|] == rp.topic.messages[..|m|];
    forall i | 0 <= i < |pubs|
      ensures Holds(r, r.topic.messages[|m| + i], seq0 + 1 + i, pubs[i], now)
    {
      if i < |pre| {
        HoldsAfterWrite(rp, r, |m| + i, seq0 + 1 + i, pre[i], now, NextSlot(rp), pub.0);
      }
    }
  }

  /** After a run of Queue publishes that never fills the log, with no
      subscriber timed out, the old log is followed by one entry per
      publish, in order, numbered on from the counter, each slot holding
      its payload; the invariant and the subscribers are kept. */
  lemma {:induction false} QueuePublishesAppend<P>(w: World<P>, pubs: seq<(P, int)>, now: int, cap: nat)
    requires Inv(w, cap) && w.topic.qos == MessageQueue && NoneExpired(w, now)
    requires |w.topic.messages| + |pubs| <= MaxMessageCount
    ensures RunKept(w, PublishAll(w, pubs, now, cap), |pubs|, now, cap)
    ensures RunLogged(w.topic.messages, w.topic.lastSeq, PublishAll(w, pubs, now, cap), pubs, now)
    decreases |pubs|
  {
    if pubs == [] {
      assert w.topic.messages[..|w.topic.messages|] == w.topic.messages;
    } else {
      var n := |pubs| - 1;
      assert pubs[..n] + [pubs[n]] == pubs;
      var rp := PublishAll(w, pubs[..n], now, cap);
      QueuePublishesAppend(w, pubs[..n], now, cap);
      var r := PublishAll(w, pubs, now, cap);
      RunKeptStep(w, rp, r, n, pubs[n], now, cap);
      RunLoggedStep(w.topic.messages, w.topic.lastSeq, rp, r, pubs[..n], pubs[n], now);
    }
  }

  /** A gap-free log ending at `c`, followed by a run numbered on from `c`,
      is gap-free, and the entries after cursor `c` are exactly the run. */
  lemma RunIsUnread<P>(m: seq<MessageEntry>, c: int, r: World<P>, pubs: seq<(P, int)>, now: int)
    requires RunLogged(m, c, r, pubs, now)
    requires Consecutive(m) && (|m| > 0 ==> m[|m| - 1].seqNum == c)
    requires forall j :: 0 <= j < |m| ==> m[j].seqNum <= c
    ensures Consecutive(r.topic.messages) && FirstAfter(r.topic.messages, c) == |m|
  {
    var rm := r.topic.messages;
    assert forall j :: 0 <= j < |m| ==> rm[j] == rm[..|m|][j];
    forall j | 0 <= j < |rm| - 1
      ensures rm[j + 1].seqNum == rm[j].seqNum + 1
    {
      if j + 1 < |m| {
        assert rm[j] == m[j] && rm[j + 1] == m[j + 1];
      } else if j + 1 == |m| {
        assert rm[j] == m[j];
        assert Holds(r, rm[|m| + 0], c + 1 + 0, pubs[0], now);
      } else {
        assert Holds(r, rm[|m| + (j - |m|)], c + 1 + (j - |m|), pubs[j - |m|], now);
        assert Holds(r, rm[|m| + (j + 1 - |m|)], c + 1 + (j + 1 - |m|), pubs[j + 1 - |m|], now);
      }
    }
    if |pubs| > 0 {
      assert Holds(r, rm[|m| + 0], c + 1 + 0, pubs[0], now);
    }
    assert forall j :: 0 <= j < |m| ==> rm[j].seqNum <= c;
  }

  /** All-mode completeness: a subscriber whose cursor stands at the
      counter, after a run of Queue publishes that never fills the gap-free
      log and with no subscriber timed out, drains exactly the published
      payloads, in publish order, with their sequence numbers and
      timestamps. */
  lemma QueuePublishesReadBack<P>(w: World<P>, h: Handle, pubs: seq<(P, int)>, now: int, cap: nat)
    requires Inv(w, cap) && w.topic.qos == MessageQueue && NoneExpired(w, now) && Contiguous(w.topic)
    requires h in w.topic.subscriptions && h in w.subs && w.subs[h].latestMsgSeqNum == w.topic.lastSeq
    requires |w.topic.messages| + |pubs| <= MaxMessageCount
    ensures var r := PublishAll(w, pubs, now, cap);
            var out := ReadAll(r, h, now, cap).1;
            && |out| == |pubs|
            && forall i :: 0 <= i < |pubs| ==>
                 && out[i].handle in r.payloads && r.payloads[out[i].handle] == pubs[i].0
                 && out[i].seqNum == w.topic.lastSeq + 1 + i
                 && out[i].timestamp == Stamp(pubs[i].1, now)
  {
    QueuePublishesAppend(w, pubs, now, cap);
    ReadBackAt(w, PublishAll(w, pubs, now, cap), h, pubs, now, cap);
  }

  /** The drain of `QueuePublishesReadBack`, for any world `r` the run
      leaves behind. */
  lemma ReadBackAt<P>(w: World<P>, r: World<P>, h: Handle, pubs: seq<(P, int)>, now: int, cap: nat)
    requires Inv(w, cap) && Contiguous(w.topic)
    requires h in w.topic.subscriptions && h in w.subs && w.subs[h].latestMsgSeqNum == w.topic.lastSeq
    requires RunKept(w, r, |pubs|, now, cap) && RunLogged(w.topic.messages, w.topic.lastSeq, r, pubs, now)
    ensures var out := ReadAll(r, h, now, cap).1;
            && |out| == |pubs|
            && forall i :: 0 <= i < |pubs| ==>
                 && out[i].handle in r.payloads && r.payloads[out[i].handle] == pubs[i].0
                 && out[i].seqNum == w.topic.lastSeq + 1 + i
                 && out[i].timestamp == Stamp(pubs[i].1, now)
  {
    var m := w.topic.messages;
    RunIsUnread(m, w.topic.lastSeq, r, pubs, now);
    assert h in r.topic.subscriptions && r.subs[h] == w.subs[h];
    ReadAllReturnsUnread(r, h, now, cap);
    RunReadBack(m, w.topic.lastSeq, r, pubs, now, ReadAll(r, h, now, cap).1);
  }

  /** The entries after the old log are the run, read back entry by entry. */
  lemma RunReadBack<P>(m: seq<MessageEntry>, c: int, r: World<P>, pubs: seq<(P, int)>, now: int, out: seq<MessageEntry>)
    requires RunLogged(m, c, r, pubs, now) && out == r.topic.messages[|m|..]
    ensures |out| == |pubs|
    ensures forall i :: 0 <= i < |pubs| ==>
              && out[i].handle in r.payloads && r.payloads[out[i].handle] == pubs[i].0
              && out[i].seqNum == c + 1 + i
              && out[i].timestamp == Stamp(pubs[i].1, now)
  {
    forall i | 0 <= i < |pubs|
      ensures Holds(r, out[i], c + 1 + i, pubs[i], now)
    {
      assert out[i] == r.topic.messages[|m| + i];
    }
  }
}
