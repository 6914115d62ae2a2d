/** `SharedMemory`: the segment as an arena. Objects live in maps keyed by
    handle, one map per kind of object the broker stores (payload slots,
    subscription records, topic records); a new object takes the next unused
    handle, and whether an allocation succeeds is an input. Also the
    directory record `ShmTopicMgrData`. */
module SharedMemory {
  import opened ShmDefs
  import opened TopicRecord
  import TopicSpec

  /** `isOwner`: the modes that create (or re-create) the segment. */
  predicate IsOwnerAccess(access: AccessRight)
  {
    access == Owner || access == VolatileOwner
  }

  /** Only the plain user mode is not an owner. */
  lemma OwnerIffNotUser(access: AccessRight)
    ensures IsOwnerAccess(access) <==> access != User
  {
  }

  class Segment<P> {
    const access: AccessRight
    var status: MemoryStatus
    var heartbeatActive: bool
    var payloads: map<Handle, P>
    var subs: map<Handle, SubscriptionData>
    var records: map<Handle, TopicData>
    var next: Handle

    /** Every live object's handle is below the allocation counter, and no
        handle names objects of two kinds. */
    ghost predicate Valid()
      reads this
    {
      && (forall h :: h in payloads ==> h < next && h !in subs && h !in records)
      && (forall h :: h in subs ==> h < next && h !in records)
      && (forall h :: h in records ==> h < next)
    }

    constructor (access: AccessRight, status: MemoryStatus, heartbeatActive: bool)
      ensures Valid()
      ensures this.access == access && this.status == status && this.heartbeatActive == heartbeatActive
      ensures payloads == map[] && subs == map[] && records == map[] && next == 0
    {
      this.access := access;
      this.status := status;
      this.heartbeatActive := heartbeatActive;
      payloads := map[];
      subs := map[];
      records := map[];
      next := 0;
    }

    /** `isValid`: the segment opened successfully and its heartbeat runs.
        Every failed or re-opened status, and a stopped heartbeat, make the
        segment unusable. */
    predicate IsValid()
      reads this
      ensures status in {NotOpened, Mismatch, Reopened} ==> !IsValid()
      ensures !heartbeatActive ==> !IsValid()
      ensures status == Success && heartbeatActive ==> IsValid()
    {
      status == Success && heartbeatActive
    }

    /** `isOwner`: only a segment opened in plain user mode is not its owner. */
    predicate IsOwner()
      reads this
      ensures IsOwner() <==> access != User
    {
      OwnerIffNotUser(access);
      IsOwnerAccess(access)
    }

    /** `getAddressFromHandle` for a payload slot. The source adds the
        handle's offset to the segment's base address, which never fails; a
        handle whose slot was freed yields a dangling address. The model
        answers nothing for such a handle in place of that undefined read. */
    function PayloadAt(h: Handle): (r: Option<P>)
      reads this
      ensures r.Some? <==> h in payloads
      ensures r.Some? ==> r.value == payloads[h]
    {
      if h in payloads then Some(payloads[h]) else None
    }

    /** `createAnonymousObject` for a payload slot, followed by the write of
        the value into it: nothing when allocation fails; otherwise a fresh
        handle through which the value is read back. */
    method CreatePayload(v: P, allocOk: bool) returns (h: Option<Handle>)
      requires Valid()
      modifies this`payloads, this`next
      ensures Valid()
      ensures h.Some? <==> allocOk
      ensures h.Some? ==> && h.value == old(next) && h.value !in old(payloads)
                          && payloads == old(payloads)[h.value := v] && next == old(next) + 1
                          && PayloadAt(h.value) == Some(v)
      ensures h.None? ==> payloads == old(payloads) && next == old(next)
    {
      if !allocOk {
        return None;
      }
      h := Some(next);
      payloads := payloads[next := v];
      next := next + 1;
    }

    /** `createAnonymousObject` for a subscription record. */
    method CreateSubscriptionData(d: SubscriptionData, allocOk: bool) returns (h: Option<Handle>)
      requires Valid()
      modifies this`subs, this`next
      ensures Valid()
      ensures h.Some? <==> allocOk
      ensures h.Some? ==> && h.value == old(next) && h.value !in old(subs)
                          && subs == old(subs)[h.value := d] && next == old(next) + 1
      ensures h.None? ==> subs == old(subs) && next == old(next)
    {
      if !allocOk {
        return None;
      }
      h := Some(next);
      subs := subs[next := d];
      next := next + 1;
    }

    /** `construct<ShmTopicData>`: a fresh topic record under a fresh handle,
        or nothing when allocation fails. */
    method ConstructTopicRecord(name: string, qos: TopicQos, allocOk: bool) returns (h: Handle, d: TopicData?)
      requires Valid()
      modifies this`records, this`next
      ensures Valid()
      ensures d != null <==> allocOk
      ensures d != null ==> && fresh(d) && d.name == name && d.qos == qos
                            && d.State() == TopicSpec.TopicState(name, qos, false, {}, [], 0, 0, [])
                            && h == old(next) && records == old(records)[h := d] && next == old(next) + 1
      ensures d == null ==> records == old(records) && next == old(next)
    {
      if !allocOk {
        return 0, null;
      }
      d := new TopicData(name, qos);
      h := next;
      records := records[next := d];
      next := next + 1;
    }

    /** A write into a live payload slot. */
    method WritePayload(h: Handle, v: P)
      requires Valid() && h in payloads
      modifies this`payloads
      ensures Valid()
      ensures payloads == old(payloads)[h := v]
    {
      payloads := payloads[h := v];
    }

    /** A write into a live subscription record. */
    method WriteSubscription(h: Handle, d: SubscriptionData)
      requires Valid() && h in subs
      modifies this`subs
      ensures Valid()
      ensures subs == old(subs)[h := d]
    {
      subs := subs[h := d];
    }

    /** `destroyAnonymousObject` for a payload slot: frees the slot the
        handle names. Its null test never fires, since an address computed
        from a handle is never null; the model removes nothing for a handle
        naming no live slot, where the source would free a dangling address. */
    method DestroyPayload(h: Handle)
      requires Valid()
      modifies this`payloads
      ensures Valid()
      ensures payloads == old(payloads) - {h}
    {
      payloads := payloads - {h};
    }

    /** `destroyAnonymousObject` / `destroyPtr` for a subscription record. */
    method DestroySubscriptionData(h: Handle)
      requires Valid()
      modifies this`subs
      ensures Valid()
      ensures subs == old(subs) - {h}
    {
      subs := subs - {h};
    }

    /** `destroyPtr<ShmTopicData>`: frees the record `d`, whatever handle
        names it. */
    method DestroyTopicRecord(d: TopicData)
      requires Valid()
      modifies this`records
      ensures Valid()
      ensures records == WithoutRecord(old(records), d)
      ensures forall h :: h in records <==> h in old(records) && old(records)[h] != d
    {
      records := map h | h in records && records[h] != d :: records[h];
    }
  }

  /** The record table once the record `d` is freed: every entry naming
      another record stays as it was. */
  function WithoutRecord(records: map<Handle, TopicData>, d: TopicData): (r: map<Handle, TopicData>)
    ensures forall h :: h in r <==> h in records && records[h] != d
    ensures forall h :: h in r ==> r[h] == records[h]
  {
    map h | h in records && records[h] != d :: records[h]
  }

  /** `ShmTopicMgrData`: the topic directory, a map from topic name to the
      handle of its record, and the directory lock's last locking time. */
  class TopicMgrData {
    var topics: map<string, Handle>
    var lastLockTime: int

    constructor ()
      ensures topics == map[] && lastLockTime == 0
    {
      topics := map[];
      lastLockTime := 0;
    }
  }
}
