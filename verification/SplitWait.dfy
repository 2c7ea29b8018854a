/** The wait for a freshly written range to split, on a clock that only awaits move. */
module SplitWait {
  import opened Wrappers

  type Duration = r: real | r >= 0.0 witness 0.0

  datatype Wait = Wait(limit: Duration, rewriteEvery: Duration, poll: Duration)

  /** What the outside does, at each event of the wait: how long a commit would take, if it ever
      returns; how late a timer fires; what a probe says and how long it takes; how much longer
      than asked a sleep takes; what a region count says and how long it takes. */
  datatype World = World(
    commit: nat -> Option<Duration>,
    lag: nat -> Duration,
    probe: nat -> bool,
    probeTakes: nat -> Duration,
    oversleep: nat -> Duration,
    count: nat -> nat,
    countTakes: nat -> Duration)

  datatype Event = Commit(returned: bool) | Probe(split: bool) | Slept | Counted

  datatype Outcome =
    | Split(rewrites: nat)
    | CommitLimit(seed: bool, rewrites: nat, running: real)
    | NoSplit(rewrites: nat, before: nat, after: nat)

  /** An instant, and everything that was awaited to get there. */
  class Clock {
    const world: World
    var now: real
    var log: seq<Event>

    constructor (world: World, start: real)
      ensures this.world == world && now == start && log == []
    {
      this.world, now, log := world, start, [];
    }

    method AwaitProbe() returns (split: bool)
      modifies this
      ensures split == world.probe(|old(log)|) && log == old(log) + [Probe(split)]
      ensures now == old(now) + world.probeTakes(|old(log)|)
    {
      split := world.probe(|log|);
      now := now + world.probeTakes(|log|);
      log := log + [Probe(split)];
    }

    method Sleep(poll: Duration)
      modifies this
      ensures log == old(log) + [Slept] && now == old(now) + poll + world.oversleep(|old(log)|)
    {
      now := now + poll + world.oversleep(|log|);
      log := log + [Slept];
    }

    method CountRegions() returns (n: nat)
      modifies this
      ensures n == world.count(|old(log)|) && log == old(log) + [Counted]
      ensures now == old(now) + world.countTakes(|old(log)|)
    {
      n := world.count(|log|);
      now := now + world.countTakes(|log|);
      log := log + [Counted];
    }

    /** `timeout_at` around a commit: the commit is polled before the clock, so one that is ready
        when the late timer fires still counts as returned. */
    method TimeoutAt(deadline: real) returns (ready: bool)
      modifies this`now
      ensures now >= old(now)
      ensures ready <==> ReadyBy(world, |log|, old(now), WakeUp(world, |log|, old(now), deadline))
      ensures now == if ready then old(now) + world.commit(|log|).value else WakeUp(world, |log|, old(now), deadline)
    {
      var wake := WakeUp(world, |log|, now, deadline);
      ready := world.commit(|log|).Some? && now + world.commit(|log|).value <= wake;
      now := if ready then now + world.commit(|log|).value else wake;
    }

    /** A commit under the deadline succeeds exactly when it would have returned before it. One
        that fails ends at the deadline or later: at most a timer's lag after it, or after its
        own start if that was later still. */
    method LimitedCommit(deadline: real) returns (ok: bool, running: real)
      modifies this
      ensures ok <==> InTime(world, |old(log)|, old(now), deadline)
      ensures log == old(log) + [Commit(ok)]
      ensures ok ==> old(now) <= now < deadline && now == old(now) + world.commit(|old(log)|).value
      ensures !ok ==> deadline <= now <= WakeUp(world, |old(log)|, old(now), deadline)
      ensures running == now - old(now)
    {
      var started := now;
      var ready := TimeoutAt(deadline);
      ok := ready && now < deadline;
      running := now - started;
      log := log + [Commit(ok)];
    }
  }

  function WakeUp(world: World, n: nat, start: real, deadline: real): real {
    (if start < deadline then deadline else start) + world.lag(n)
  }

  predicate ReadyBy(world: World, n: nat, start: real, time: real) {
    world.commit(n).Some? && start + world.commit(n).value <= time
  }

  predicate InTime(world: World, n: nat, start: real, deadline: real) {
    world.commit(n).Some? && start + world.commit(n).value < deadline
  }

  /** Nothing has decided the wait yet: commits returned, probes saw no split, no regions counted. */
  ghost predicate Undecided(log: seq<Event>) {
    forall e :: e in log ==> e == Commit(true) || e == Probe(false) || e == Slept
  }

  function Commits(log: seq<Event>): nat {
    if log == [] then 0 else Commits(log[..|log| - 1]) + (if log[|log| - 1].Commit? then 1 else 0)
  }

  lemma CommitsAppend(log: seq<Event>, e: Event)
    ensures Commits(log + [e]) == Commits(log) + if e.Commit? then 1 else 0
  {
    assert (log + [e])[..|log|] == log;
  }

  // ---- The schedule ----

  /** How long the n-th thing awaited took, if it was brought to its end. */
  function Took(world: World, wait: Wait, n: nat, e: Event): real {
    match e
    case Commit(_) => if world.commit(n).Some? then world.commit(n).value else 0.0
    case Probe(_) => world.probeTakes(n)
    case Slept => wait.poll + world.oversleep(n)
    case Counted => world.countTakes(n)
  }

  /** When the last of these events ended, in a wait that began at `start`. */
  function EndOf(world: World, wait: Wait, start: real, log: seq<Event>): real {
    if log == [] then start
    else
      var n := |log| - 1;
      EndOf(world, wait, start, log[..n]) + Took(world, wait, n, log[n])
  }

  /** When the last commit among these events returned. */
  function LastCommit(world: World, wait: Wait, start: real, log: seq<Event>): real {
    if log == [] then start
    else if log[|log| - 1].Commit? then EndOf(world, wait, start, log)
    else LastCommit(world, wait, start, log[..|log| - 1])
  }

  /** What is awaited after these events: the seed commit, then a probe; after a probe without a
      split a count if the deadline has passed, a re-write if the interval since the last commit has
      passed, and else a sleep; after a re-write a sleep, and after that the next probe. */
  ghost predicate ComesNext(world: World, wait: Wait, start: real, log: seq<Event>, e: Event) {
    if log == [] then e.Commit?
    else
      var now := EndOf(world, wait, start, log);
      match log[|log| - 1]
      case Commit(_) => if |log| == 1 then e.Probe? else e.Slept?
      case Slept => e.Probe?
      case Probe(_) =>
        if now >= start + wait.limit then e.Counted?
        else if now >= LastCommit(world, wait, start, log) + wait.rewriteEvery then e.Commit?
        else e.Slept?
      case Counted => false
  }

  ghost predicate OnSchedule(world: World, wait: Wait, start: real, log: seq<Event>) {
    log == [] || (var n := |log| - 1;
                  OnSchedule(world, wait, start, log[..n]) && ComesNext(world, wait, start, log[..n], log[n]))
  }

  lemma OneMoreEvent(world: World, wait: Wait, start: real, log: seq<Event>, e: Event)
    requires OnSchedule(world, wait, start, log) && ComesNext(world, wait, start, log, e)
    ensures OnSchedule(world, wait, start, log + [e])
    ensures EndOf(world, wait, start, log + [e]) == EndOf(world, wait, start, log) + Took(world, wait, |log|, e)
    ensures LastCommit(world, wait, start, log + [e]) ==
            if e.Commit? then EndOf(world, wait, start, log + [e]) else LastCommit(world, wait, start, log)
  {
    assert (log + [e])[..|log|] == log;
  }

  /** At every point of a log on schedule: a re-write that is due after a probe is made at once, and
      none is made before its time. */
  lemma {:induction false} RewritesAreMadeWhenDue(world: World, wait: Wait, start: real, log: seq<Event>, i: nat)
    requires OnSchedule(world, wait, start, log) && 0 < i < |log| && log[i - 1] == Probe(false)
    requires EndOf(world, wait, start, log[..i]) < start + wait.limit
    ensures EndOf(world, wait, start, log[..i]) >= LastCommit(world, wait, start, log[..i]) + wait.rewriteEvery
            <==> log[i].Commit?
    ensures log[i].Commit? || log[i].Slept?
    decreases |log|
  {
    var n := |log| - 1;
    if i == n {
    } else {
      assert log[..n][..i] == log[..i];
      RewritesAreMadeWhenDue(world, wait, start, log[..n], i);
    }
  }

  /** How each outcome is reached. A split: the last probe sees it. A commit limit: the failing
      commit is the last thing awaited, so no probe and no count follow it. No split: a probe
      sees none, and only then are the regions counted. Every re-write reported is a commit that
      returned. */
  ghost predicate Explains(log: seq<Event>, outcome: Outcome, before: nat) {
    match outcome
    case Split(n) =>
      exists done :: Undecided(done) && log == done + [Probe(true)] && Commits(done) == n + 1
    case CommitLimit(seed, n, _) =>
      exists done :: Undecided(done) && log == done + [Commit(false)] && Commits(done) == (if seed then 0 else n + 1)
                     && (seed ==> n == 0 && done == [])
    case NoSplit(n, b, _) =>
      b == before
      && exists done :: Undecided(done) && log == done + [Probe(false), Counted] && Commits(done) == n + 1
  }

  /** Re-writes cost their interval each, and all of them fit below the limit. */
  ghost predicate RewritesFit(wait: Wait, rewrites: nat) {
    rewrites as real * wait.rewriteEvery < wait.limit
  }

  /** Durations the outside keeps to. */
  ghost predicate Keeps(world: World, sleep: real, probe: real, count: real, poll: real) {
    forall n: nat :: poll + world.oversleep(n) <= sleep && world.probeTakes(n) <= probe && world.countTakes(n) <= count
  }

  /** A failure is never early. */
  ghost predicate NotEarly(outcome: Outcome, end: real, deadline: real) {
    !outcome.Split? ==> end >= deadline
  }

  /** A split or a no-split result is less than one sleep and one probe late, and a no-split
      result one region count more. */
  ghost predicate NotLate(outcome: Outcome, end: real, deadline: real, sleep: real, probe: real, count: real) {
    match outcome
    case Split(_) => end < deadline + sleep + probe
    case CommitLimit(_, _, _) => true
    case NoSplit(_, _, _) => end < deadline + sleep + probe + count
  }

  lemma OneMoreRewrite(n: nat, every: real)
    ensures (n + 1) as real * every == n as real * every + every
  {
  }

  /** How many more polls fit before the deadline. */
  function PollsLeft(now: real, deadline: real, poll: real): real
    requires poll > 0.0
  {
    if now < deadline then (deadline - now) / poll + 1.0 else 0.0
  }

  lemma OnePollLess(came: real, now: real, deadline: real, poll: real)
    requires poll > 0.0 && came < deadline && now >= came + poll
    ensures 0.0 <= PollsLeft(now, deadline, poll) <= PollsLeft(came, deadline, poll) - 1.0
  {
    var gone := now - came;
    assert (deadline - came) / poll == (deadline - now) / poll + gone / poll;
    assert gone / poll >= poll / poll == 1.0;
    assert (deadline - came) / poll > 0.0;
    if now < deadline {
      assert (deadline - now) / poll > 0.0;
    }
  }

  /** The log of a wait that is still going on, after so many re-writes, and its clock. */
  ghost predicate Going(clock: Clock, wait: Wait, start: real, rewrites: nat)
    reads clock
  {
    && Undecided(clock.log) && Commits(clock.log) == rewrites + 1
    && OnSchedule(clock.world, wait, start, clock.log) && clock.now == EndOf(clock.world, wait, start, clock.log)
  }

  /** The numbers in a report are those of its last event: how long the failed commit had run, and how
      many regions were counted. */
  ghost predicate IsReported(clock: Clock, wait: Wait, start: real, outcome: Outcome)
    reads clock
  {
    clock.log != [] &&
    match outcome
    case Split(_) => true
    case CommitLimit(_, _, running) =>
      running == clock.now - EndOf(clock.world, wait, start, clock.log[..|clock.log| - 1])
    case NoSplit(_, _, after) => after == clock.world.count(|clock.log| - 1)
  }

  /** A probe has just seen no split, before the deadline. */
  ghost predicate Probed(clock: Clock, wait: Wait, start: real)
    reads clock
  {
    clock.log != [] && clock.log[|clock.log| - 1] == Probe(false) && clock.now < start + wait.limit
  }

  /** A sleep is what comes next. */
  ghost predicate MaySleep(clock: Clock, wait: Wait, start: real)
    reads clock
  {
    ComesNext(clock.world, wait, start, clock.log, Slept)
  }

  /** A probe is what comes next. */
  ghost predicate MayProbe(clock: Clock, wait: Wait, start: real)
    reads clock
  {
    ComesNext(clock.world, wait, start, clock.log, Probe(false)) && ComesNext(clock.world, wait, start, clock.log, Probe(true))
  }

  /** The time for the next re-write is the interval after the last commit. */
  ghost predicate IsDueAt(clock: Clock, wait: Wait, start: real, due: real)
    reads clock
  {
    due == LastCommit(clock.world, wait, start, clock.log) + wait.rewriteEvery
  }

  /** Where the next re-write stands: the ones done have each cost their interval. */
  ghost predicate Paced(wait: Wait, start: real, rewrites: nat, nextRewrite: real) {
    RewritesFit(wait, rewrites) && nextRewrite >= start + (rewrites + 1) as real * wait.rewriteEvery
  }

  /** A re-write, if one is due. */
  method RewriteIfDue(clock: Clock, wait: Wait, deadline: real, n: nat, due: real, ghost start: real, before: nat)
    returns (failed: Option<Outcome>, rewrites: nat, nextRewrite: real)
    requires Going(clock, wait, start, n) && Paced(wait, start, n, due) && IsDueAt(clock, wait, start, due)
    requires Probed(clock, wait, start) && deadline == start + wait.limit
    modifies clock
    ensures OnSchedule(clock.world, wait, start, clock.log)
    ensures failed.Some? ==> Explains(clock.log, failed.value, before) && failed.value.CommitLimit? && clock.now >= deadline
    ensures failed.Some? ==> IsReported(clock, wait, start, failed.value)
    ensures failed.None? ==> Going(clock, wait, start, rewrites) && Paced(wait, start, rewrites, nextRewrite)
    ensures failed.None? ==> IsDueAt(clock, wait, start, nextRewrite) && MaySleep(clock, wait, start)
    ensures failed.None? ==> old(clock.now) <= clock.now < deadline
  {
    failed, rewrites, nextRewrite := None, n, due;
    if clock.now >= due {
      ghost var done := clock.log;
      OneMoreEvent(clock.world, wait, start, done, Commit(true));
      OneMoreEvent(clock.world, wait, start, done, Commit(false));
      var ok, running := clock.LimitedCommit(deadline);
      if !ok {
        return Some(CommitLimit(false, n, running)), n, due;
      }
      CommitsAppend(done, Commit(true));
      OneMoreRewrite(n + 1, wait.rewriteEvery);
      rewrites := n + 1;
      nextRewrite := clock.now + wait.rewriteEvery;
    }
  }

  /** The probe that opens each pass of the loop, and the verdict it may bring. */
  method ProbeAndJudge(clock: Clock, ghost wait: Wait, deadline: real, n: nat, ghost start: real, before: nat)
    returns (verdict: Option<Outcome>)
    requires Going(clock, wait, start, n) && MayProbe(clock, wait, start) && deadline == start + wait.limit
    modifies clock
    ensures OnSchedule(clock.world, wait, start, clock.log)
    ensures LastCommit(clock.world, wait, start, clock.log) == LastCommit(clock.world, wait, start, old(clock.log))
    ensures verdict.Some? ==> Explains(clock.log, verdict.value, before) && !verdict.value.CommitLimit?
    ensures verdict.Some? ==> verdict.value.rewrites == n && IsReported(clock, wait, start, verdict.value)
    ensures verdict.Some? && verdict.value.Split? ==> clock.now == old(clock.now) + clock.world.probeTakes(|old(clock.log)|)
    ensures verdict.Some? && verdict.value.NoSplit? ==>
              clock.now >= deadline && clock.now == old(clock.now) + clock.world.probeTakes(|old(clock.log)|)
                                                    + clock.world.countTakes(|old(clock.log)| + 1)
    ensures verdict.None? ==> Going(clock, wait, start, n) && Probed(clock, wait, start) && old(clock.now) <= clock.now
  {
    ghost var done := clock.log;
    CommitsAppend(done, Probe(false));
    OneMoreEvent(clock.world, wait, start, done, Probe(false));
    OneMoreEvent(clock.world, wait, start, done, Probe(true));
    var split := clock.AwaitProbe();
    if split {
      return Some(Split(n));
    }
    if clock.now >= deadline {
      OneMoreEvent(clock.world, wait, start, clock.log, Counted);
      var after := clock.CountRegions();
      assert clock.log == done + [Probe(false), Counted];
      return Some(NoSplit(n, before, after));
    }
    verdict := None;
  }

  /** The seed commit. */
  method Seed(clock: Clock, wait: Wait, deadline: real, ghost start: real, before: nat)
    returns (failed: Option<Outcome>, nextRewrite: real)
    requires clock.log == [] && clock.now == start && deadline == start + wait.limit
    modifies clock
    ensures OnSchedule(clock.world, wait, start, clock.log)
    ensures failed.Some? ==> Explains(clock.log, failed.value, before) && failed.value.CommitLimit? && clock.now >= deadline
    ensures failed.Some? ==> IsReported(clock, wait, start, failed.value)
    ensures failed.None? ==> Going(clock, wait, start, 0) && MayProbe(clock, wait, start) && clock.now < deadline
    ensures failed.None? ==> Paced(wait, start, 0, nextRewrite) && IsDueAt(clock, wait, start, nextRewrite)
  {
    OneMoreEvent(clock.world, wait, start, [], Commit(true));
    OneMoreEvent(clock.world, wait, start, [], Commit(false));
    CommitsAppend([], Commit(true));
    OneMoreRewrite(0, wait.rewriteEvery);
    failed := None;
    var ok, running := clock.LimitedCommit(deadline);
    if !ok {
      assert clock.log == [] + [Commit(false)];
      failed := Some(CommitLimit(true, 0, running));
    }
    assert ok ==> clock.log == [] + [Commit(true)];
    nextRewrite := clock.now + wait.rewriteEvery;
  }

  /** The sleep that closes each pass. */
  method SleepOnce(clock: Clock, wait: Wait, ghost start: real, ghost n: nat)
    requires Going(clock, wait, start, n) && MaySleep(clock, wait, start)
    modifies clock
    ensures Going(clock, wait, start, n) && MayProbe(clock, wait, start)
    ensures LastCommit(clock.world, wait, start, clock.log) == LastCommit(clock.world, wait, start, old(clock.log))
    ensures clock.now == old(clock.now) + wait.poll + clock.world.oversleep(|old(clock.log)|)
  {
    CommitsAppend(clock.log, Slept);
    OneMoreEvent(clock.world, wait, start, clock.log, Slept);
    clock.Sleep(wait.poll);
  }

  /** The wait ends for every outside whatever, given a positive poll. Everything it awaits comes at
      its time, and its outcome means what it says. */
  method WaitForSplit(clock: Clock, wait: Wait, before: nat, ghost sleep: real, ghost probe: real, ghost count: real)
    returns (outcome: Outcome)
    requires wait.poll > 0.0 && clock.log == []
    modifies clock
    ensures Explains(clock.log, outcome, before) && IsReported(clock, wait, old(clock.now), outcome)
    ensures OnSchedule(clock.world, wait, old(clock.now), clock.log)
    ensures outcome.Split? ==> RewritesFit(wait, outcome.rewrites)
    ensures NotEarly(outcome, clock.now, old(clock.now) + wait.limit)
    ensures Keeps(clock.world, sleep, probe, count, wait.poll) ==>
              NotLate(outcome, clock.now, old(clock.now) + wait.limit, sleep, probe, count)
  {
    ghost var start := clock.now;
    ghost var keeps := Keeps(clock.world, sleep, probe, count, wait.poll);
    assert keeps ==> wait.poll + clock.world.oversleep(0) <= sleep;
    var deadline := clock.now + wait.limit;
    var rewrites: nat := 0;
    var failed, nextRewrite := Seed(clock, wait, deadline, start, before);
    if failed.Some? {
      return failed.value;
    }
    while true
      invariant Going(clock, wait, start, rewrites) && MayProbe(clock, wait, start)
      invariant Paced(wait, start, rewrites, nextRewrite) && IsDueAt(clock, wait, start, nextRewrite)
      invariant keeps ==> clock.now < deadline + sleep
      decreases PollsLeft(clock.now, deadline, wait.poll)
    {
      ghost var came := clock.now;
      var verdict := ProbeAndJudge(clock, wait, deadline, rewrites, start, before);
      if verdict.Some? {
        return verdict.value;
      }
      verdict, rewrites, nextRewrite := RewriteIfDue(clock, wait, deadline, rewrites, nextRewrite, start, before);
      if verdict.Some? {
        return verdict.value;
      }
      SleepOnce(clock, wait, start, rewrites);
      OnePollLess(came, clock.now, deadline, wait.poll);
    }
  }
}
