/** What the lease broker decides from the records it has loaded. */
module LeaseDecisions {
  import opened Wrappers
  import opened LeasePorts

  type Id = string

  /** One recorded lease. Times are in microseconds. */
  datatype Lease = Lease(profile: Profile, version: string, slot: int, expiresAt: Option<int>, releasing: bool)

  type Leases = map<Id, Lease>

  datatype Request = Request(id: Option<Id>, profile: Profile, version: string, slot: Option<int>, ttl: Option<nat>)

  datatype Refusal =
    | DifferentCluster
    | DifferentSlot
    | ExpiredOrReleasing
    | SlotHeld(holder: Id)
    | AllSlotsInUse
    | NoFreePorts

  datatype Plan = Extend(id: Id) | Allocate(slot: int)

  predicate Expired(lease: Lease, now: int) {
    lease.expiresAt.Some? && lease.expiresAt.value <= now
  }

  /** Expiry times are written in whole seconds. No TTL, or one of zero, never expires. */
  function ExpiryAt(now: int, ttl: Option<nat>): (at: Option<int>)
    ensures at.None? <==> ttl == None || ttl == Some(0)
    ensures at.Some? ==> at.value % 1_000_000 == 0 && now + ttl.value - 1_000_000 < at.value <= now + ttl.value
  {
    if ttl.Some? && ttl.value > 0 then
      var t := now + ttl.value;
      Some(t - t % 1_000_000)
    else None
  }

  /** The ports of a slot that a profile needs can all be bound. */
  ghost predicate Fits(slot: int, profile: Profile, free: int -> bool) {
    forall name :: Names(Stores(profile), name) ==> free(PortOf(slot, name))
  }

  predicate Taken(leases: Leases, slot: int) {
    exists id :: id in leases && leases[id].slot == slot
  }

  /** How many records count against the cap: all but those on the classic slot. */
  function Counted(leases: Leases): set<Id> {
    set id | id in leases && leases[id].slot != 0
  }

  /** An answer to a request, given the records, that the code may give. */
  ghost predicate Allows(seen: Leases, req: Request, now: int, max: int, free: int -> bool, plan: Plan) {
    match plan
    case Extend(id) =>
      && req.id == Some(id) && id in seen
      && seen[id].profile == req.profile && seen[id].version == req.version
      && (req.slot.Some? ==> seen[id].slot == req.slot.value)
      && !Expired(seen[id], now) && !seen[id].releasing
    case Allocate(slot) =>
      && (req.id.Some? ==> req.id.value !in seen)
      && !Taken(seen, slot) && Fits(slot, req.profile, free)
      && (req.slot.Some? ==> slot == req.slot.value)
      && (req.slot.None? ==>
            && |Counted(seen)| < max && 1 <= slot <= max
            && forall s :: 1 <= s < slot ==> Taken(seen, s) || !Fits(s, req.profile, free))
  }

  /** What a refusal says of the records. */
  ghost predicate Explains(seen: Leases, req: Request, now: int, max: int, free: int -> bool, refusal: Refusal) {
    var known := req.id.Some? && req.id.value in seen;
    match refusal
    case DifferentCluster =>
      known && !(seen[req.id.value].profile == req.profile && seen[req.id.value].version == req.version)
    case DifferentSlot => known && req.slot.Some? && seen[req.id.value].slot != req.slot.value
    case ExpiredOrReleasing => known && (Expired(seen[req.id.value], now) || seen[req.id.value].releasing)
    case SlotHeld(holder) => !known && req.slot.Some? && holder in seen && seen[holder].slot == req.slot.value
    case AllSlotsInUse => !known && req.slot.None? && |Counted(seen)| >= max
    case NoFreePorts =>
      !known && forall s :: (if req.slot.Some? then s == req.slot.value else 1 <= s <= max) ==>
                  Taken(seen, s) || !Fits(s, req.profile, free)
  }

  method AllFree(ports: PortMap, free: int -> bool) returns (ok: bool)
    ensures ok <==> forall name :: name in ports ==> free(ports[name])
  {
    var left := ports.Keys;
    while left != {}
      invariant left <= ports.Keys
      invariant forall name :: name in ports && name !in left ==> free(ports[name])
      decreases |left|
    {
      var name :| name in left;
      if !free(ports[name]) {
        return false;
      }
      left := left - {name};
    }
    ok := true;
  }

  method SlotFits(slot: int, profile: Profile, free: int -> bool) returns (ok: bool)
    ensures ok <==> Fits(slot, profile, free)
  {
    var ports := Ports(slot, Stores(profile));
    ok := AllFree(ports, free);
    if ok {
      forall name | Names(Stores(profile), name)
        ensures free(PortOf(slot, name))
      {
        assert name in ports && free(ports[name]);
      }
    } else {
      var name :| name in ports && !free(ports[name]);
      assert Names(Stores(profile), name);
    }
  }

  /** The lowest slot of `1..max` that no record holds and whose ports are free. */
  method FirstFree(seen: Leases, profile: Profile, max: int, free: int -> bool) returns (slot: Option<int>)
    ensures slot.Some? ==>
              && 1 <= slot.value <= max && !Taken(seen, slot.value) && Fits(slot.value, profile, free)
              && forall s :: 1 <= s < slot.value ==> Taken(seen, s) || !Fits(s, profile, free)
    ensures slot.None? ==> forall s :: 1 <= s <= max ==> Taken(seen, s) || !Fits(s, profile, free)
  {
    var s := 1;
    while s <= max
      invariant 1 <= s
      invariant forall k :: 1 <= k < s ==> Taken(seen, k) || !Fits(k, profile, free)
    {
      var fits := SlotFits(s, profile, free);
      if !Taken(seen, s) && fits {
        return Some(s);
      }
      s := s + 1;
    }
    slot := None;
  }

  /** The decision taken under the lock. A plan is one the records allow; a refusal means that
      none is, and says which rule is in the way. */
  method Decide(seen: Leases, req: Request, now: int, max: int, free: int -> bool) returns (r: Result<Plan, Refusal>)
    ensures r.Ok? ==> Allows(seen, req, now, max, free, r.value)
    ensures r.Err? ==> forall plan :: !Allows(seen, req, now, max, free, plan)
    ensures r.Err? ==> Explains(seen, req, now, max, free, r.error)
  {
    if req.id.Some? && req.id.value in seen {
      var lease := seen[req.id.value];
      if lease.profile != req.profile || lease.version != req.version {
        return Err(DifferentCluster);
      }
      if req.slot.Some? && lease.slot != req.slot.value {
        return Err(DifferentSlot);
      }
      if Expired(lease, now) || lease.releasing {
        return Err(ExpiredOrReleasing);
      }
      return Ok(Extend(req.id.value));
    }
    var slot: Option<int>;
    if req.slot.Some? {
      if Taken(seen, req.slot.value) {
        var holder :| holder in seen && seen[holder].slot == req.slot.value;
        return Err(SlotHeld(holder));
      }
      var fits := SlotFits(req.slot.value, req.profile, free);
      slot := if fits then Some(req.slot.value) else None;
    } else {
      if |Counted(seen)| >= max {
        return Err(AllSlotsInUse);
      }
      slot := FirstFree(seen, req.profile, max, free);
    }
    r := if slot.Some? then Ok(Allocate(slot.value)) else Err(NoFreePorts);
  }

  // ---- The cap ----

  /** A new lease counts against the cap exactly when it is not on the classic slot. */
  lemma ClassicLeasesDoNotCount(leases: Leases, id: Id, lease: Lease)
    requires id !in leases
    ensures |Counted(map[])| == 0
    ensures |Counted(leases[id := lease])| == |Counted(leases)| + if lease.slot == 0 then 0 else 1
  {
    var more := Counted(leases[id := lease]);
    assert more == if lease.slot == 0 then Counted(leases) else Counted(leases) + {id};
  }

  /** Below the cap some slot of `1..max` is not taken, so an automatic lease is refused there
      only when something else holds the ports. */
  lemma BelowTheCapASlotIsFree(seen: Leases, max: int) returns (slot: int)
    requires |Counted(seen)| < max
    ensures 1 <= slot <= max && !Taken(seen, slot)
  {
    var slots := set id | id in Counted(seen) :: seen[id].slot;
    ImageIsSmaller(seen, Counted(seen));
    slot := FreeAmong(slots, max);
    forall id | id in seen
      ensures seen[id].slot != slot
    {
      if id in Counted(seen) {
        assert seen[id].slot in slots;
      }
    }
  }

  lemma {:induction false} ImageIsSmaller(seen: Leases, ids: set<Id>)
    requires ids <= seen.Keys
    ensures |set id | id in ids :: seen[id].slot| <= |ids|
    decreases |ids|
  {
    var image := set id | id in ids :: seen[id].slot;
    if ids == {} {
      assert image == {};
    } else {
      var x :| x in ids;
      var rest := ids - {x};
      var smaller := set id | id in rest :: seen[id].slot;
      ImageIsSmaller(seen, rest);
      assert image == smaller + {seen[x].slot};
    }
  }

  lemma {:induction false} FreeAmong(slots: set<int>, max: int) returns (slot: int)
    requires |slots| < max
    ensures 1 <= slot <= max && slot !in slots
    decreases max
  {
    if max !in slots {
      slot := max;
    } else {
      slot := FreeAmong(slots - {max}, max - 1);
    }
  }
}
