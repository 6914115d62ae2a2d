/** `ShmTopicData`: the record of one topic as it lives in the segment. Its
    name and quality of service are fixed at construction; everything else is
    updated in place by the topic's operations. The interprocess mutex is not
    a field here: locking is decided by `ShmLock` from lock traces. */
module TopicRecord {
  import opened ShmDefs
  import TopicSpec

  class TopicData {
    const name: string
    const qos: TopicQos
    var disposing: bool
    var subscriptions: set<Handle>
    var messages: seq<MessageEntry>
    var lastSeq: int
    var lastLockTime: int
    var recycleBin: seq<Handle>

    /** A new record: not disposing, no subscriptions, an empty log, an
        empty recycle bin and both counters at zero. */
    constructor (name: string, qos: TopicQos)
      ensures this.name == name && this.qos == qos
      ensures State() == TopicSpec.TopicState(name, qos, false, {}, [], 0, 0, [])
    {
      this.name := name;
      this.qos := qos;
      disposing := false;
      subscriptions := {};
      messages := [];
      lastSeq := 0;
      lastLockTime := 0;
      recycleBin := [];
    }

    /** The record's fields as a value. */
    function State(): TopicSpec.TopicState
      reads this
    {
      TopicSpec.TopicState(name, qos, disposing, subscriptions, messages, lastSeq, lastLockTime, recycleBin)
    }
  }
}
