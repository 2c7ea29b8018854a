/** Which inadmissible traces are run again, and which error trees lead to that. */
module Retries {
  import opened Wrappers
  import opened Classes
  import opened ErrorMapping
  import opened Observations

  /** The run is evidence of nothing, and the cluster alone is why: no step has an unmapped error
      or a harness failure in it. This is when the documentation promises another attempt. */
  ghost predicate OnlyCluster(steps: seq<Step>) {
    Inadmissible(steps) != [] && !HasOtherCause(steps)
  }

  ghost predicate HasOtherCause(steps: seq<Step>) {
    exists s :: s in steps && OtherCause(s.observation.cls)
  }

  /** Some step is mixed, with a region error among its parts at some depth. */
  ghost predicate HasMixedRegionError(steps: seq<Step>) {
    exists s :: s in steps && s.observation.cls.Mixed? && ClusterCause(s.observation.cls)
  }

  /** A trace the retry loop calls transient is never evidence. */
  lemma TransientTracesAreInadmissible(steps: seq<Step>)
    requires IsTransient(steps)
    ensures Inadmissible(steps) != []
  {
    var s :| s in steps && s.observation.cls.RegionError?;
    EvidenceMeansEveryStepAdmissible(steps);
    assert !IsAdmissible(s.observation.cls);
  }

  /** Without another cause, a trace is inadmissible exactly for a region error, bare or mixed. */
  lemma OnlyClusterMeansRegionErrors(steps: seq<Step>)
    requires !HasOtherCause(steps)
    ensures Inadmissible(steps) != [] <==> IsTransient(steps) || HasMixedRegionError(steps)
  {
    EvidenceMeansEveryStepAdmissible(steps);
    forall s | s in steps
      ensures !IsAdmissible(s.observation.cls) <==>
              s.observation.cls.RegionError? || (s.observation.cls.Mixed? && ClusterCause(s.observation.cls))
    {
      InadmissibleHasACause(s.observation.cls);
    }
  }

  /** Exactly when the retry test decides as documented: a bare region error must not stand beside
      another cause, which it would mask, and a mixed one must not stand alone, since the test
      does not look into it. */
  lemma RetryIsAsDocumentedIff(steps: seq<Step>)
    ensures (IsTransient(steps) <==> OnlyCluster(steps)) <==>
            && (IsTransient(steps) ==> !HasOtherCause(steps))
            && (!HasOtherCause(steps) && HasMixedRegionError(steps) ==> IsTransient(steps))
  {
    if !HasOtherCause(steps) {
      OnlyClusterMeansRegionErrors(steps);
    }
  }

  // ---- From the error trees that the client returned ----

  /** The steps of a run with the errors behind them. A step without one has a class of the
      driver's own: an answer, a capability gap, or a harness failure. */
  ghost predicate CameFrom(steps: seq<Step>, errs: seq<Option<Error>>) {
    |steps| == |errs| && forall i :: 0 <= i < |steps| ==> StepCameFrom(steps[i], errs[i])
  }

  ghost predicate StepCameFrom(step: Step, err: Option<Error>) {
    match err
    case Some(e) => step.observation.cls == Classify(e)
    case None => !step.observation.cls.Mixed? && !step.observation.cls.RegionError?
  }

  /** Some error holds region errors and nothing else. */
  ghost predicate SomeOnlyRegions(errs: seq<Option<Error>>) {
    exists i :: 0 <= i < |errs| && errs[i].Some? && OnlyRegions(errs[i].value)
  }

  /** Some error holds a region error among other things. */
  ghost predicate SomeRegionAmongOthers(errs: seq<Option<Error>>) {
    exists i :: 0 <= i < |errs| && errs[i].Some? && ReachesRegion(errs[i].value) && !OnlyRegions(errs[i].value)
  }

  /** Some error reaches an unmapped leaf or an empty set, or the harness itself failed. */
  ghost predicate SomeOtherFault(steps: seq<Step>, errs: seq<Option<Error>>)
    requires |steps| == |errs|
  {
    exists i :: 0 <= i < |errs|
      && if errs[i].Some? then ReachesOtherFault(errs[i].value)
         else steps[i].observation.cls.Internal? || steps[i].observation.cls.DriverError?
  }

  lemma StepByItsError(step: Step, err: Option<Error>)
    requires StepCameFrom(step, err)
    ensures step.observation.cls.RegionError? <==> err.Some? && OnlyRegions(err.value)
    ensures step.observation.cls.Mixed? && ClusterCause(step.observation.cls) <==>
            err.Some? && ReachesRegion(err.value) && !OnlyRegions(err.value)
    ensures OtherCause(step.observation.cls) <==>
            if err.Some? then ReachesOtherFault(err.value)
            else step.observation.cls.Internal? || step.observation.cls.DriverError?
  {
    var c := step.observation.cls;
    if err.Some? {
      BareRegionErrorIff(err.value);
      ClusterCausesAreLeaves(err.value);
      OtherCausesAreLeaves(err.value);
    } else {
      assert Occurs(c, c);
    }
  }

  /** A run is retried exactly when one of its errors holds region errors and nothing else, however
      nested; and that is as documented exactly when no such error stands beside another fault,
      and no region error among other things stands without one. */
  lemma RetryOfErrorTrees(steps: seq<Step>, errs: seq<Option<Error>>)
    requires CameFrom(steps, errs)
    ensures IsTransient(steps) <==> SomeOnlyRegions(errs)
    ensures (IsTransient(steps) <==> OnlyCluster(steps)) <==>
            && (SomeOnlyRegions(errs) ==> !SomeOtherFault(steps, errs))
            && (!SomeOtherFault(steps, errs) && SomeRegionAmongOthers(errs) ==> SomeOnlyRegions(errs))
  {
    forall i | 0 <= i < |steps|
      ensures steps[i] in steps
      ensures steps[i].observation.cls.RegionError? <==> errs[i].Some? && OnlyRegions(errs[i].value)
      ensures steps[i].observation.cls.Mixed? && ClusterCause(steps[i].observation.cls) <==>
              errs[i].Some? && ReachesRegion(errs[i].value) && !OnlyRegions(errs[i].value)
      ensures OtherCause(steps[i].observation.cls) <==>
              if errs[i].Some? then ReachesOtherFault(errs[i].value)
              else steps[i].observation.cls.Internal? || steps[i].observation.cls.DriverError?
    {
      StepByItsError(steps[i], errs[i]);
    }
    assert forall s :: s in steps ==> exists i :: 0 <= i < |steps| && steps[i] == s;
    assert IsTransient(steps) <==> SomeOnlyRegions(errs);
    assert HasOtherCause(steps) <==> SomeOtherFault(steps, errs);
    assert HasMixedRegionError(steps) <==> SomeRegionAmongOthers(errs);
    RetryIsAsDocumentedIff(steps);
  }

  /** A run with a region error among other faults of the transaction fails for good although
      only the cluster spoiled it. */
  lemma MixedErrorTreesAreFatal(step: Step, err: Error)
    requires step.observation.cls == Classify(err)
    requires ReachesRegion(err) && !OnlyRegions(err) && !ReachesOtherFault(err)
    ensures OnlyCluster([step]) && !IsTransient([step])
  {
    StepByItsError(step, Some(err));
    assert step in [step];
    OnlyClusterMeansRegionErrors([step]);
  }

  /** There are such errors: a lost race beside a region error. */
  lemma LostRaceBesideARegionError(region: RegionKind, ke: KeyError) returns (err: Error)
    requires ke.conflict
    ensures ReachesRegion(err) && !OnlyRegions(err) && !ReachesOtherFault(err)
    ensures Classify(err) == Mixed([RegionError, WriteConflict])
  {
    err := MultipleKeyErrors([Region(region), Key(ke)]);
    assert ClassifyAll(err, err.errors) == [RegionError, WriteConflict];
    assert Region(region) in err.errors && Key(ke) in err.errors;
    assert Reaches(err, Region(region));
    forall leaf | Reaches(err, leaf)
      ensures leaf == Region(region) || leaf == Key(ke)
    {
      var e :| e in err.errors && Reaches(e, leaf);
    }
  }

  /** And a bare region error does mask a harness failure in the same run. */
  lemma RegionErrorMasksAHarnessFailure(a: Step, b: Step)
    requires a.observation.cls.RegionError? && b.observation.cls.DriverError?
    ensures IsTransient([a, b]) && HasOtherCause([a, b]) && !OnlyCluster([a, b])
  {
    assert a in [a, b] && b in [a, b];
    assert Occurs(b.observation.cls, b.observation.cls);
  }
}
