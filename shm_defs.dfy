/** Types and constants shared by the shared-memory broker: handles, message
    entries, the quality-of-service enums, subscription records and the
    segment's access modes and status codes. */
module ShmDefs {

  /** A portable reference to an object inside the segment. */
  type Handle = nat

  /** `c_lockTimeoutInMS`: a lock held longer than this is taken as stale. */
  const LockTimeoutMs: int := 10000
  /** A message published with this timestamp is stamped with the current time. */
  const InvalidTimestamp: int := 0
  /** `c_maxMessageCount`: the bound on a Queue topic's log. */
  const MaxMessageCount: nat := 10000
  /** `SUBSCRIPTION_TIMEOUT_INFINITE`: a subscription that never times out. */
  const SubscriptionTimeoutInfinite: int := -1
  /** The recycle bin holds at most this many bytes worth of payload slots ... */
  const RecycleBinBytes: nat := 100 * 1024
  /** ... and never fewer than this many slots. */
  const MinRecycleBinSlots: nat := 10

  datatype Option<T> = None | Some(value: T)

  /** One entry of a topic's log: where the payload lives, its sequence
      number and its timestamp. */
  datatype MessageEntry = MessageEntry(handle: Handle, seqNum: int, timestamp: int)

  /** What a reader gets back: a copy of the payload and its timestamp. */
  datatype Message<P> = Message(payload: P, timestamp: int)

  datatype AccessRight = User | Owner | VolatileOwner
  datatype MemoryStatus = Success | NotOpened | Mismatch | Reopened

  datatype TopicQos = MessageSingleton | MessageQueue
  datatype SubscriptionQos = AtMostOnce | All

  datatype SubscriptionOptions = SubscriptionOptions(qos: SubscriptionQos, timeoutInSeconds: int)

  /** The options a default-constructed `ShmSubscriptionOptions` holds. */
  const DefaultSubscriptionOptions: SubscriptionOptions := SubscriptionOptions(AtMostOnce, 30)

  /** The per-subscriber record kept in the segment: its options, the last
      sequence number it consumed (its cursor) and its last activity time. */
  datatype SubscriptionData = SubscriptionData(options: SubscriptionOptions, latestMsgSeqNum: int, lastUpdate: int)

  /** `maxMessageTrashSize_`: the recycle-bin capacity of a topic whose
      payload occupies `payloadSize` bytes. */
  function MaxTrashSize(payloadSize: nat): (r: nat)
    requires payloadSize > 0
    ensures r >= MinRecycleBinSlots && r >= RecycleBinBytes / payloadSize
    ensures r == MinRecycleBinSlots || r == RecycleBinBytes / payloadSize
  {
    if RecycleBinBytes / payloadSize > MinRecycleBinSlots then RecycleBinBytes / payloadSize else MinRecycleBinSlots
  }
}
