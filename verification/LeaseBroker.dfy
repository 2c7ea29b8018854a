/** The broker's records under any interleaving. Decisions run under a lock; a teardown and the
    unlinking of its record run outside it, and may fall between any two actions of a locked
    section. */
module LeaseBroker {
  import opened Wrappers
  import opened LeasePorts
  import opened LeaseDecisions

  datatype Op =
    | LeaseOp(req: Request)
    | LookupOp                       // `release`, `env`, `list`, `logs`: they only read
    | RenewOp(id: Id, ttl: Option<nat>)
    | GcOp

  /** A locked section: the records when the lock was taken, what was loaded since, and when. */
  datatype Section =
    | Idle
    | Held(op: Op, start: Leases, since: int, seen: Option<Leases>, claimed: set<Id>)

  /** `todo` are the leases that `gc` has claimed and still has to tear down. */
  datatype State = State(now: int, files: Leases, section: Section, todo: multiset<Id>)

  datatype Step =
    | Tick(to: int)
    | Acquire(op: Op)
    | Load(seen: Leases)
    | Abort                          // a refusal, or a crash: the lock is dropped
    | WriteExtend(id: Id)
    | WriteAllocate(id: Id, slot: int, max: int, free: int -> bool)
    | WriteRenew(id: Id)
    | Claim(id: Id)
    | EndGc
    | GcUnlink(id: Id)               // the teardown worked: the record goes
    | GcDownFailed(id: Id)           // it did not: the record stays
    | Unlink(id: Id)                 // by a `release`, or by a `lease` that did not come up

  /** The record's time is over at `e`. */
  ghost predicate ExpiredBy(lease: Lease, e: int) {
    lease.expiresAt.Some? && lease.expiresAt.value <= e
  }

  ghost predicate Within(a: Leases, b: Leases) {
    forall id :: id in a ==> id in b && a[id] == b[id]
  }

  ghost predicate Loaded(s: State) {
    s.section.Held? && s.section.seen.Some?
  }

  ghost function Seen(s: State): Leases
    requires Loaded(s)
  {
    s.section.seen.value
  }

  ghost predicate Enabled(s: State, step: Step) {
    match step
    case Tick(to) => s.now <= to
    case Acquire(_) => s.section.Idle?
    case Load(seen) =>
      // Files may vanish while they are being read, one by one.
      s.section.Held? && s.section.seen.None? && Within(s.files, seen) && Within(seen, s.section.start)
    case Abort => s.section.Held?
    case WriteExtend(id) =>
      Loaded(s) && s.section.op.LeaseOp?
      && Allows(Seen(s), s.section.op.req, s.now, 0, _ => false, Extend(id))
    case WriteAllocate(id, slot, max, free) =>
      Loaded(s) && s.section.op.LeaseOp? && (s.section.op.req.id.Some? ==> id == s.section.op.req.id.value)
      && Allows(Seen(s), s.section.op.req, s.now, max, free, Allocate(slot))
    case WriteRenew(id) =>
      Loaded(s) && s.section.op.RenewOp? && s.section.op.id == id && id in Seen(s) && !Seen(s)[id].releasing
    case Claim(id) =>
      Loaded(s) && s.section.op.GcOp? && id in Seen(s) && id !in s.section.claimed
      && (Expired(Seen(s)[id], s.now) || Seen(s)[id].releasing)
    case EndGc =>
      // The loop has been through all records: those marked, or expired when it began, are claimed.
      Loaded(s) && s.section.op.GcOp?
      && forall id :: id in Seen(s) && (Seen(s)[id].releasing || ExpiredBy(Seen(s)[id], s.section.since)) ==>
           id in s.section.claimed
    case GcUnlink(id) => id in s.todo
    case GcDownFailed(id) => id in s.todo
    case Unlink(_) => true
  }

  ghost function Do(s: State, step: Step): State
    requires Enabled(s, step)
  {
    match step
    case Tick(to) => s.(now := to)
    case Acquire(op) => s.(section := Held(op, s.files, s.now, None, {}))
    case Load(seen) => s.(section := s.section.(seen := Some(seen), since := s.now))
    case Abort => s.(section := Idle)
    case WriteExtend(id) =>
      s.(files := s.files[id := Seen(s)[id].(expiresAt := ExpiryAt(s.now, s.section.op.req.ttl))], section := Idle)
    case WriteAllocate(id, slot, _, _) =>
      var req := s.section.op.req;
      s.(files := s.files[id := Lease(req.profile, req.version, slot, ExpiryAt(s.now, req.ttl), false)], section := Idle)
    case WriteRenew(id) =>
      s.(files := s.files[id := Seen(s)[id].(expiresAt := ExpiryAt(s.now, s.section.op.ttl))], section := Idle)
    case Claim(id) =>
      s.(files := s.files[id := Seen(s)[id].(releasing := true)],
         section := s.section.(claimed := s.section.claimed + {id}))
    case EndGc => s.(section := Idle, todo := s.todo + multiset(s.section.claimed))
    case GcUnlink(id) => s.(files := s.files - {id}, todo := s.todo - multiset{id})
    case GcDownFailed(id) => s.(todo := s.todo - multiset{id})
    case Unlink(id) => s.(files := s.files - {id})
  }

  ghost predicate IsRun(s: State, steps: seq<Step>)
    decreases |steps|
  {
    steps == [] || (Enabled(s, steps[0]) && IsRun(Do(s, steps[0]), steps[1..]))
  }

  ghost function After(s: State, steps: seq<Step>): State
    requires IsRun(s, steps)
    decreases |steps|
  {
    if steps == [] then s else After(Do(s, steps[0]), steps[1..])
  }

  // ---- Slots ----

  ghost predicate SlotsDistinct(leases: Leases) {
    forall i, j :: i in leases && j in leases && leases[i].slot == leases[j].slot ==> i == j
  }

  /** Every file that is there was loaded, on the same slot. */
  ghost predicate Covers(seen: Leases, files: Leases) {
    forall id :: id in files ==> id in seen && seen[id].slot == files[id].slot
  }

  ghost predicate SlotInv(s: State) {
    && SlotsDistinct(s.files)
    && (s.section.Held? && s.section.seen.None? ==> SlotsDistinct(s.section.start) && Within(s.files, s.section.start))
    && (Loaded(s) ==> SlotsDistinct(Seen(s)) && Covers(Seen(s), s.files))
  }

  lemma StepKeepsSlots(s: State, step: Step)
    requires SlotInv(s) && Enabled(s, step)
    ensures SlotInv(Do(s, step))
  {
    match step
    case WriteAllocate(id, slot, _, _) =>
      forall i | i in s.files
        ensures s.files[i].slot != slot
      {
        assert !Taken(Seen(s), slot);
      }
    case _ =>
  }

  /** Main theorem: whatever leases, releases, renewals and collections run at once, and wherever
      their unlinks fall, all recorded leases hold different slots. */
  lemma {:induction false} SlotsStayDistinct(s: State, steps: seq<Step>)
    requires SlotInv(s) && IsRun(s, steps)
    ensures SlotInv(After(s, steps)) && SlotsDistinct(After(s, steps).files)
    decreases |steps|
  {
    if steps == [] {
    } else {
      StepKeepsSlots(s, steps[0]);
      SlotsStayDistinct(Do(s, steps[0]), steps[1..]);
    }
  }

  /** So the clusters of any two recorded leases share no port. */
  lemma RecordedLeasesShareNoPort(steps: seq<Step>, i: Id, j: Id, a: PortName, b: PortName)
    requires IsRun(State(0, map[], Idle, multiset{}), steps)
    requires var files := After(State(0, map[], Idle, multiset{}), steps).files;
             && i in files && j in files && i != j
             && Names(Stores(files[i].profile), a) && Names(Stores(files[j].profile), b)
    ensures var files := After(State(0, map[], Idle, multiset{}), steps).files;
            PortOf(files[i].slot, a) != PortOf(files[j].slot, b)
  {
    var s := State(0, map[], Idle, multiset{});
    SlotsStayDistinct(s, steps);
    var files := After(s, steps).files;
    SlotsHaveDisjointPorts(files[i].slot, files[i].profile, a, files[j].slot, files[j].profile, b);
  }

  /** A lease that the broker places itself gets a slot of `1..max` that no other record holds,
      never the classic one. */
  lemma AutomaticLeaseGetsAFreeSlot(s: State, id: Id, slot: int, max: int, free: int -> bool)
    requires SlotInv(s) && Enabled(s, WriteAllocate(id, slot, max, free)) && s.section.op.req.slot.None?
    ensures 1 <= slot <= max
    ensures forall other :: other in s.files ==> s.files[other].slot != slot
    ensures var files := Do(s, WriteAllocate(id, slot, max, free)).files;
            id in files && files[id].slot == slot && SlotsDistinct(files)
  {
    StepKeepsSlots(s, WriteAllocate(id, slot, max, free));
    assert !Taken(Seen(s), slot);
  }

  // ---- Collection and renewal ----

  /** An id that the broker makes up is no recorded one. */
  ghost predicate TokenIsFresh(s: State, step: Step) {
    step.WriteAllocate? && Loaded(s) && s.section.op.LeaseOp? && s.section.op.req.id.None? ==> step.id !in Seen(s)
  }

  ghost predicate TokensAreFresh(s: State, steps: seq<Step>)
    requires IsRun(s, steps)
    decreases |steps|
  {
    steps == [] || (TokenIsFresh(s, steps[0]) && TokensAreFresh(Do(s, steps[0]), steps[1..]))
  }

  /** One `gc` at a time, and no other unlink of a lease that it has in hand. Releases and failed
      leases of other ids are as free as everything else. */
  ghost predicate Quiet(s: State, step: Step) {
    && (step.Unlink? ==> step.id !in s.todo && (s.section.Held? ==> step.id !in s.section.claimed))
    && (step == Acquire(GcOp) ==> s.todo == multiset{})
    && TokenIsFresh(s, step)
  }

  ghost predicate IsQuiet(s: State, steps: seq<Step>)
    requires IsRun(s, steps)
    decreases |steps|
  {
    steps == [] || (Quiet(s, steps[0]) && IsQuiet(Do(s, steps[0]), steps[1..]))
  }

  ghost predicate Releasing(leases: Leases, id: Id) {
    id in leases && leases[id].releasing
  }

  /** A claimed lease is claimed once, its record is there and says `releasing`, and so does
      every copy of it that a locked section works from. */
  ghost predicate ClaimInv(s: State) {
    && (forall id :: id in s.todo ==> s.todo[id] == 1 && Releasing(s.files, id))
    && (s.section.Held? && s.section.op.GcOp? ==> s.todo == multiset{})
    && (s.section.Held? && s.section.op.GcOp? ==> forall id :: id in s.section.claimed ==> Releasing(s.files, id))
    && (s.section.Held? && s.section.seen.None? ==>
          s.section.claimed == {} && forall id :: id in s.todo ==> Releasing(s.section.start, id))
    && (Loaded(s) ==> forall id :: id in s.todo ==> Releasing(Seen(s), id))
  }

  ghost predicate IsWrite(step: Step) {
    step.WriteExtend? || step.WriteAllocate? || step.WriteRenew?
  }

  ghost predicate IsGcStep(step: Step) {
    step.Claim? || step.EndGc? || step.GcUnlink? || step.GcDownFailed?
  }

  lemma WriteKeepsClaims(s: State, step: Step)
    requires ClaimInv(s) && Enabled(s, step) && Quiet(s, step) && IsWrite(step)
    ensures ClaimInv(Do(s, step))
  {
  }

  lemma ClaimStepKeepsClaims(s: State, step: Step)
    requires ClaimInv(s) && Enabled(s, step) && Quiet(s, step) && (step.Claim? || step.EndGc?)
    ensures ClaimInv(Do(s, step))
  {
  }

  lemma TeardownKeepsClaims(s: State, step: Step)
    requires ClaimInv(s) && Enabled(s, step) && Quiet(s, step) && (step.GcUnlink? || step.GcDownFailed?)
    ensures ClaimInv(Do(s, step))
  {
  }

  lemma LockStepKeepsClaims(s: State, step: Step)
    requires ClaimInv(s) && Enabled(s, step) && Quiet(s, step) && !IsWrite(step) && !IsGcStep(step)
    ensures ClaimInv(Do(s, step))
  {
  }

  lemma StepKeepsClaims(s: State, step: Step)
    requires ClaimInv(s) && Enabled(s, step) && Quiet(s, step)
    ensures ClaimInv(Do(s, step))
  {
    if IsWrite(step) {
      WriteKeepsClaims(s, step);
    } else if step.Claim? || step.EndGc? {
      ClaimStepKeepsClaims(s, step);
    } else if IsGcStep(step) {
      TeardownKeepsClaims(s, step);
    } else {
      LockStepKeepsClaims(s, step);
    }
  }

  lemma {:induction false} ClaimsStay(s: State, steps: seq<Step>)
    requires ClaimInv(s) && IsRun(s, steps) && IsQuiet(s, steps)
    ensures ClaimInv(After(s, steps))
    decreases |steps|
  {
    if steps == [] {
    } else {
      StepKeepsClaims(s, steps[0]);
      ClaimsStay(Do(s, steps[0]), steps[1..]);
    }
  }

  // ---- Marked leases ----

  /** The lease is marked, in its record and in every copy in use but that of a `gc` which has just
      marked it. */
  ghost predicate Marked(s: State, id: Id) {
    && Releasing(s.files, id)
    && (s.section.Held? && s.section.seen.None? ==> Releasing(s.section.start, id))
    && (Loaded(s) ==> Releasing(Seen(s), id) || (s.section.op.GcOp? && id in s.section.claimed))
  }

  /** The step does not remove the lease's record. */
  ghost predicate Leaves(step: Step, id: Id) {
    step != GcUnlink(id) && step != Unlink(id)
  }

  ghost predicate AllLeave(steps: seq<Step>, id: Id) {
    forall i :: 0 <= i < |steps| ==> Leaves(steps[i], id)
  }

  /** The step neither renews the lease nor leases its id again, by extension or anew. */
  ghost predicate Refuses(step: Step, id: Id) {
    step != WriteRenew(id) && step != WriteExtend(id) && !(step.WriteAllocate? && step.id == id)
  }

  lemma MarkedIsRefused(s: State, id: Id, step: Step)
    requires Marked(s, id) && Enabled(s, step) && TokenIsFresh(s, step)
    ensures Refuses(step, id)
  {
  }

  lemma StepKeepsMark(s: State, step: Step, id: Id)
    requires Marked(s, id) && Enabled(s, step) && TokenIsFresh(s, step) && Leaves(step, id)
    ensures Marked(Do(s, step), id)
  {
  }

  /** Main theorem: along every run, with any number of `gc` runs, releases and failed leases in
      it, a marked lease stays marked and refuses every renewal and every re-lease of its id, until
      its record is gone. */
  lemma {:induction false} MarkedLeasesAreRefused(s: State, steps: seq<Step>, id: Id)
    requires Marked(s, id) && IsRun(s, steps) && TokensAreFresh(s, steps) && AllLeave(steps, id)
    ensures Marked(After(s, steps), id)
    ensures forall i :: 0 <= i < |steps| ==> Refuses(steps[i], id)
    decreases |steps|
  {
    if steps == [] {
    } else {
      assert Leaves(steps[0], id);
      assert forall i :: 0 <= i < |steps[1..]| ==> steps[1..][i] == steps[i + 1];
      MarkedIsRefused(s, id, steps[0]);
      StepKeepsMark(s, steps[0], id);
      MarkedLeasesAreRefused(Do(s, steps[0]), steps[1..], id);
      assert forall i :: 0 < i < |steps| ==> steps[i] == steps[1..][i - 1];
    }
  }

  lemma ClaimedIsMarked(s: State, id: Id)
    requires ClaimInv(s) && id in s.todo
    ensures Marked(s, id)
  {
  }

  lemma ClaimMarks(s: State, id: Id)
    requires Enabled(s, Claim(id))
    ensures Marked(Do(s, Claim(id)), id)
  {
  }

  /** So a lease that `gc` has claimed refuses every renewal and every re-lease until its record is
      gone: from the claim on, while it waits for its teardown, after a teardown that failed, and
      after a `gc` that died between the two. */
  lemma ClaimedLeasesAreRefused(s: State, steps: seq<Step>, id: Id)
    requires ClaimInv(s) && IsRun(s, steps) && TokensAreFresh(s, steps) && AllLeave(steps, id)
    requires id in s.todo || (steps != [] && steps[0] == Claim(id))
    ensures Marked(After(s, steps), id)
    ensures forall i :: 0 <= i < |steps| ==> Refuses(steps[i], id)
  {
    if id in s.todo {
      ClaimedIsMarked(s, id);
      MarkedLeasesAreRefused(s, steps, id);
    } else {
      ClaimMarks(s, id);
      assert forall i :: 0 <= i < |steps[1..]| ==> steps[1..][i] == steps[i + 1];
      assert AllLeave(steps[1..], id);
      MarkedLeasesAreRefused(Do(s, steps[0]), steps[1..], id);
      assert forall i :: 0 < i < |steps| ==> steps[i] == steps[1..][i - 1];
    }
  }

  /** And the next `gc` to make its claims has the lease in hand again. */
  lemma MarkedLeasesAreRetried(s: State, steps: seq<Step>, id: Id)
    requires Marked(s, id) && IsRun(s, steps) && TokensAreFresh(s, steps) && AllLeave(steps, id)
    ensures Enabled(After(s, steps), EndGc) ==> id in Do(After(s, steps), EndGc).todo
  {
    MarkedLeasesAreRefused(s, steps, id);
    var s' := After(s, steps);
    if Enabled(s', EndGc) {
      assert id in multiset(s'.section.claimed);
    }
  }

  /** A failed teardown keeps the record, marked, for as long as no teardown of it works; and
      the next `gc` to make its claims has the lease in hand again. */
  lemma FailedTeardownIsRetried(s: State, id: Id, steps: seq<Step>)
    requires ClaimInv(s) && id in s.todo
    requires IsRun(Do(s, GcDownFailed(id)), steps) && TokensAreFresh(Do(s, GcDownFailed(id)), steps) && AllLeave(steps, id)
    ensures var s' := After(Do(s, GcDownFailed(id)), steps);
            && Releasing(s'.files, id)
            && (Enabled(s', EndGc) ==> id in Do(s', EndGc).todo)
  {
    MarkedLeasesAreRefused(Do(s, GcDownFailed(id)), steps, id);
    MarkedLeasesAreRetried(Do(s, GcDownFailed(id)), steps, id);
  }

  /** The same goes for a `gc` that died between the claim and the teardown: its lock is dropped
      and the mark is all that is left of it. */
  lemma AbandonedClaimIsRetried(s: State, id: Id, steps: seq<Step>)
    requires Enabled(s, Claim(id)) && var s1 := Do(Do(s, Claim(id)), Abort);
             IsRun(s1, steps) && TokensAreFresh(s1, steps) && AllLeave(steps, id)
    ensures var s' := After(Do(Do(s, Claim(id)), Abort), steps);
            && Releasing(s'.files, id)
            && (Enabled(s', EndGc) ==> id in Do(s', EndGc).todo)
  {
    var s1 := Do(Do(s, Claim(id)), Abort);
    ClaimMarks(s, id);
    MarkedLeasesAreRefused(s1, steps, id);
    MarkedLeasesAreRetried(s1, steps, id);
  }

  /** The lease runs until `e` and no `gc` has it in hand; the copies in use agree. */
  ghost predicate Alive(s: State, id: Id, e: int) {
    && AliveIn(s.files, id, e) && id !in s.todo
    && (s.section.Held? && s.section.seen.None? ==> AliveIn(s.section.start, id, e))
    && (Loaded(s) ==> AliveIn(Seen(s), id, e))
    && (s.section.Held? ==> id !in s.section.claimed)
  }

  ghost predicate AliveIn(leases: Leases, id: Id, e: int) {
    id in leases && !leases[id].releasing && (leases[id].expiresAt.Some? ==> leases[id].expiresAt.value >= e)
  }

  /** The step neither releases the lease nor writes another expiry for it. */
  ghost predicate Spares(step: Step, id: Id) {
    step != Unlink(id) && step != WriteRenew(id) && step != WriteExtend(id) && !(step.WriteAllocate? && step.id == id)
  }

  ghost predicate AllSpare(steps: seq<Step>, id: Id) {
    forall i :: 0 <= i < |steps| ==> Spares(steps[i], id)
  }

  lemma StepKeepsAlive(s: State, step: Step, id: Id, e: int)
    requires Alive(s, id, e) && Enabled(s, step) && Spares(step, id) && Do(s, step).now < e
    ensures Alive(Do(s, step), id, e)
  {
  }

  lemma {:induction false} TimeMovesOn(s: State, steps: seq<Step>)
    requires IsRun(s, steps)
    ensures s.now <= After(s, steps).now
    decreases |steps|
  {
    if steps == [] {
    } else {
      TimeMovesOn(Do(s, steps[0]), steps[1..]);
    }
  }

  /** Until its expiry, a live lease that is not released keeps its record, and no `gc`, however
      many of them run, takes it in hand. */
  lemma {:induction false} LiveLeasesAreNotCollected(s: State, steps: seq<Step>, id: Id, e: int)
    requires Alive(s, id, e) && IsRun(s, steps) && AllSpare(steps, id) && After(s, steps).now < e
    ensures Alive(After(s, steps), id, e)
    decreases |steps|
  {
    if steps == [] {
    } else {
      assert Spares(steps[0], id);
      TimeMovesOn(Do(s, steps[0]), steps[1..]);
      StepKeepsAlive(s, steps[0], id, e);
      assert forall i :: 0 <= i < |steps[1..]| ==> steps[1..][i] == steps[i + 1];
      LiveLeasesAreNotCollected(Do(s, steps[0]), steps[1..], id, e);
    }
  }

  /** Main theorem: a renewal that gets the lock before `gc` claims the lease protects it until
      the new expiry. */
  lemma RenewalBeatsCollection(s: State, id: Id, steps: seq<Step>, e: int)
    requires ClaimInv(s) && Enabled(s, WriteRenew(id))
    requires ExpiryAt(s.now, s.section.op.ttl).Some? ==> e <= ExpiryAt(s.now, s.section.op.ttl).value
    requires IsRun(Do(s, WriteRenew(id)), steps) && AllSpare(steps, id)
    requires After(Do(s, WriteRenew(id)), steps).now < e
    ensures var s' := After(Do(s, WriteRenew(id)), steps);
            AliveIn(s'.files, id, e) && id !in s'.todo
  {
    assert Alive(Do(s, WriteRenew(id)), id, e);
    LiveLeasesAreNotCollected(Do(s, WriteRenew(id)), steps, id, e);
  }

  // ---- Expired leases are collected ----

  /** The lease has run out by `e`, in its record and in every copy in use. */
  ghost predicate Due(s: State, id: Id, e: int) {
    && id in s.files && ExpiredBy(s.files[id], e)
    && (s.section.Held? && s.section.seen.None? ==> id in s.section.start && ExpiredBy(s.section.start[id], e))
    && (Loaded(s) ==> id in Seen(s) && ExpiredBy(Seen(s)[id], e))
  }

  lemma StepKeepsDue(s: State, step: Step, id: Id, e: int)
    requires Due(s, id, e) && Enabled(s, step) && Spares(step, id) && Leaves(step, id)
    ensures Due(Do(s, step), id, e)
  {
  }

  lemma {:induction false} RunKeepsDue(s: State, steps: seq<Step>, id: Id, e: int)
    requires Due(s, id, e) && IsRun(s, steps) && AllSpare(steps, id) && AllLeave(steps, id)
    ensures Due(After(s, steps), id, e)
    decreases |steps|
  {
    if steps == [] {
    } else {
      assert Spares(steps[0], id) && Leaves(steps[0], id);
      StepKeepsDue(s, steps[0], id, e);
      assert forall i :: 0 <= i < |steps[1..]| ==> steps[1..][i] == steps[i + 1];
      RunKeepsDue(Do(s, steps[0]), steps[1..], id, e);
    }
  }

  /** The step writes an expiry for the lease, this long from now. */
  ghost predicate WritesTtl(s: State, step: Step, id: Id, ttl: nat) {
    && Enabled(s, step)
    && match step
       case WriteRenew(i) => i == id && s.section.op.ttl == Some(ttl)
       case WriteExtend(i) => i == id && s.section.op.req.ttl == Some(ttl)
       case WriteAllocate(i, _, _, _) => i == id && s.section.op.req.ttl == Some(ttl)
       case _ => false
  }

  /** Main theorem, the converse of `LiveLeasesAreNotCollected`: a lease that was given some time,
      and neither renewed nor leased again nor removed since, is in hand after every `gc` that reads
      the records when that time is over; and from then on no request for its id gets a plan. */
  lemma ExpiredLeasesAreCollected(s: State, write: Step, id: Id, ttl: nat, steps: seq<Step>)
    requires ttl > 0 && WritesTtl(s, write, id, ttl)
    requires IsRun(Do(s, write), steps) && AllSpare(steps, id) && AllLeave(steps, id)
    ensures var s' := After(Do(s, write), steps);
            && (Enabled(s', EndGc) && s'.section.since >= s.now + ttl ==> id in Do(s', EndGc).todo)
            && (Loaded(s') && s'.now >= s.now + ttl ==> IsRefused(Seen(s'), id, s'.now))
  {
    var s1 := Do(s, write);
    assert Due(s1, id, s.now + ttl);
    RunKeepsDue(s1, steps, id, s.now + ttl);
    var s' := After(s1, steps);
    if Enabled(s', EndGc) && s'.section.since >= s.now + ttl {
      assert id in multiset(s'.section.claimed);
    }
    if Loaded(s') && s'.now >= s.now + ttl {
      ExpiredIsRefused(Seen(s'), id, s'.now);
    }
  }

  /** No request for the id gets a plan. */
  ghost predicate IsRefused(seen: Leases, id: Id, now: int) {
    forall req: Request, max, free, plan :: req.id == Some(id) ==> !Allows(seen, req, now, max, free, plan)
  }

  lemma ExpiredIsRefused(seen: Leases, id: Id, now: int)
    requires id in seen && ExpiredBy(seen[id], now)
    ensures IsRefused(seen, id, now)
  {
  }

  // ---- The commands, one at a time ----

  lemma {:induction false} RunThenStep(s: State, steps: seq<Step>, step: Step)
    requires IsRun(s, steps) && Enabled(After(s, steps), step)
    ensures IsRun(s, steps + [step]) && After(s, steps + [step]) == Do(After(s, steps), step)
    decreases |steps|
  {
    var longer := steps + [step];
    if steps == [] {
      assert longer[1..] == [];
    } else {
      assert longer[1..] == steps[1..] + [step];
      RunThenStep(Do(s, steps[0]), steps[1..], step);
    }
  }

  /** A locked section that loads the records undisturbed. */
  ghost function Opened(op: Op, files: Leases): seq<Step> {
    [Acquire(op), Load(files)]
  }

  lemma OpenedIsARun(s: State, op: Op)
    requires s.section.Idle?
    ensures IsRun(s, Opened(op, s.files))
    ensures After(s, Opened(op, s.files)) == s.(section := Held(op, s.files, s.now, Some(s.files), {}))
  {
    var s1 := Do(s, Acquire(op));
    var s2 := Do(s1, Load(s.files));
    var steps := Opened(op, s.files);
    assert steps[1..] == [Load(s.files)] && steps[1..][1..] == [];
    assert IsRun(s2, []) && After(s2, []) == s2;
  }

  /** The records a broker holds are those of an idle state of the step system. */
  ghost predicate Mirrors(leases: Leases, now: int, s: State) {
    s.section.Idle? && s.files == leases && s.now == now
  }

  /** A run of the step system from `s` ends idle with these records and this much to tear down. */
  ghost predicate Leads(s: State, steps: seq<Step>, leases: Leases, todo: multiset<Id>) {
    IsRun(s, steps) && After(s, steps) == s.(files := leases, todo := todo)
  }

  /** The records with these marked. */
  ghost function WithClaims(recs: Leases, gone: set<Id>): Leases {
    map id | id in recs :: if id in gone then recs[id].(releasing := true) else recs[id]
  }

  lemma OneMoreClaim(recs: Leases, gone: set<Id>, id: Id)
    requires id in recs
    ensures WithClaims(recs, gone)[id := recs[id].(releasing := true)] == WithClaims(recs, gone + {id})
  {
  }

  /** A `gc` that read these records has made these claims, and is still at it. */
  ghost predicate IsCollecting(s: State, steps: seq<Step>, recs: Leases, files: Leases, gone: set<Id>) {
    IsRun(s, steps) && After(s, steps) == s.(files := files, section := Held(GcOp, recs, s.now, Some(recs), gone))
  }

  lemma ClaimGoesOn(s: State, steps: seq<Step>, recs: Leases, files: Leases, gone: set<Id>, id: Id)
    requires IsCollecting(s, steps, recs, files, gone) && id in recs && id !in gone
    requires ExpiredBy(recs[id], s.now) || recs[id].releasing
    ensures IsCollecting(s, steps + [Claim(id)], recs, files[id := recs[id].(releasing := true)], gone + {id})
  {
    RunThenStep(s, steps, Claim(id));
  }

  /** The records directory, changed by one command at a time. Each command is a run of the step
      system from any idle state with the same records. */
  class Broker {
    var leases: Leases

    constructor ()
      ensures leases == map[]
    {
      leases := map[];
    }

    /** A lease command under the lock. A refusal changes nothing, and the records allow no plan;
        otherwise the command is the one write step that the plan names. */
    method Lease(req: Request, token: Id, now: int, max: int, free: int -> bool, ghost s: State)
      returns (r: Result<Id, Refusal>, fresh': bool, ghost write: Step)
      requires SlotsDistinct(leases) && Mirrors(leases, now, s)
      modifies this
      ensures SlotsDistinct(leases)
      ensures r.Err? ==> leases == old(leases) && forall plan :: !Allows(leases, req, now, max, free, plan)
      ensures r.Err? ==> Explains(leases, req, now, max, free, r.error) && write == Abort
      ensures r.Ok? ==> r.value in leases
      ensures r.Ok? && !fresh' ==> write == WriteExtend(r.value)
      ensures r.Ok? && fresh' ==>
                && r.value == (if req.id.Some? then req.id.value else token)
                && write == WriteAllocate(r.value, leases[r.value].slot, max, free)
      ensures Leads(s, Opened(LeaseOp(req), old(leases)) + [write], leases, s.todo)
    {
      OpenedIsARun(s, LeaseOp(req));
      fresh', write := false, Abort;
      var plan := Decide(leases, req, now, max, free);
      match plan {
        case Err(e) =>
          r := Err(e);
        case Ok(Extend(id)) =>
          leases := leases[id := leases[id].(expiresAt := ExpiryAt(now, req.ttl))];
          r, write := Ok(id), WriteExtend(id);
        case Ok(Allocate(slot)) =>
          assert !Taken(leases, slot);
          var id := if req.id.Some? then req.id.value else token;
          leases := leases[id := LeaseDecisions.Lease(req.profile, req.version, slot, ExpiryAt(now, req.ttl), false)];
          r, fresh', write := Ok(id), true, WriteAllocate(id, slot, max, free);
      }
      RunThenStep(s, Opened(LeaseOp(req), s.files), write);
    }

    /** A renewal is refused exactly when there is no record or it is being released; it may
        revive a lease that has expired but that no `gc` has claimed. */
    method Renew(id: Id, ttl: Option<nat>, now: int, ghost s: State) returns (ok: bool)
      requires Mirrors(leases, now, s)
      modifies this
      ensures ok <==> id in old(leases) && !old(leases)[id].releasing
      ensures Leads(s, Opened(RenewOp(id, ttl), old(leases)) + [if ok then WriteRenew(id) else Abort], leases, s.todo)
    {
      OpenedIsARun(s, RenewOp(id, ttl));
      ok := id in leases && !leases[id].releasing;
      RunThenStep(s, Opened(RenewOp(id, ttl), s.files), if ok then WriteRenew(id) else Abort);
      if ok {
        leases := leases[id := leases[id].(expiresAt := ExpiryAt(now, ttl))];
      }
    }

    /** The claims of one `gc`: every record that has expired or is already marked gets marked and
        is to be torn down, and no other record changes. */
    method ClaimExpired(now: int, ghost s: State) returns (gone: set<Id>, ghost steps: seq<Step>)
      requires Mirrors(leases, now, s)
      modifies this
      ensures gone == set id | id in old(leases) && (ExpiredBy(old(leases)[id], now) || old(leases)[id].releasing)
      ensures leases == WithClaims(old(leases), gone)
      ensures Leads(s, steps, leases, s.todo + multiset(gone))
    {
      var recs := leases;
      var left := recs.Keys;
      gone := {};
      OpenedIsARun(s, GcOp);
      steps := Opened(GcOp, s.files);
      while left != {}
        invariant left <= recs.Keys && gone <= recs.Keys - left
        invariant forall id :: id in recs.Keys - left ==> (id in gone <==> ExpiredBy(recs[id], now) || recs[id].releasing)
        invariant leases == WithClaims(recs, gone)
        invariant IsCollecting(s, steps, recs, leases, gone)
        decreases |left|
      {
        var id :| id in left;
        left := left - {id};
        if Expired(recs[id], now) || recs[id].releasing {
          OneMoreClaim(recs, gone, id);
          ClaimGoesOn(s, steps, recs, leases, gone, id);
          steps := steps + [Claim(id)];
          leases := leases[id := recs[id].(releasing := true)];
          gone := gone + {id};
        }
      }
      RunThenStep(s, steps, EndGc);
      steps := steps + [EndGc];
    }

    /** A release: the record is looked up under the lock and forgotten outside it, and only if the
        cluster went down. Without a record there is nothing to do, which only some callers allow. */
    method Release(id: Id, missingOk: bool, down: Id -> bool, ghost s: State)
      returns (ok: bool, ghost steps: seq<Step>)
      requires s.section.Idle? && s.files == leases
      modifies this
      ensures ok <==> if id in old(leases) then down(id) else missingOk
      ensures steps == Opened(LookupOp, old(leases)) + [Abort] + (if id in old(leases) && down(id) then [Unlink(id)] else [])
      ensures Leads(s, steps, leases, s.todo)
    {
      OpenedIsARun(s, LookupOp);
      steps := Opened(LookupOp, s.files);
      RunThenStep(s, steps, Abort);
      steps := steps + [Abort];
      if id !in leases {
        return missingOk, steps;
      }
      ok := down(id);
      if ok {
        RunThenStep(s, steps, Unlink(id));
        steps := steps + [Unlink(id)];
        leases := leases - {id};
      }
    }
  }
}
