/** The comparison of two projected runs. */
module Diffing {
  import opened Wrappers
  import opened ByteStrings
  import opened Classes
  import opened Observations
  import opened Texts
  import opened Namespacing
  import opened Projection
  import opened ProjectionFacts

  const STEP_ABSENT := "<step absent>"

  datatype Divergence = Divergence(step: string, path: string, oracle: string, subject: string)

  function FieldsOf(c: Canonical, step: string): Fields {
    if step in c then c[step] else map[]
  }

  function Cell(f: Fields, path: string): string {
    if path in f then f[path] else STEP_ABSENT
  }

  /** What the comparison reads at one step and path. */
  function At(c: Canonical, step: string, path: string): string {
    Cell(FieldsOf(c, step), path)
  }

  function PathDiff(step: string, o: Fields, s: Fields, path: string): seq<Divergence> {
    var ov, sv := Cell(o, path), Cell(s, path);
    if ov != sv then [Divergence(step, path, ov, sv)] else []
  }

  function PathDiffs(step: string, o: Fields, s: Fields, paths: seq<string>): seq<Divergence> {
    if paths == [] then [] else PathDiff(step, o, s, paths[0]) + PathDiffs(step, o, s, paths[1..])
  }

  function StepDiff(o: Canonical, s: Canonical, step: string): seq<Divergence> {
    var fo, fs := FieldsOf(o, step), FieldsOf(s, step);
    PathDiffs(step, fo, fs, Listing(fo.Keys + fs.Keys))
  }

  function StepDiffs(o: Canonical, s: Canonical, steps: seq<string>): seq<Divergence> {
    if steps == [] then [] else StepDiff(o, s, steps[0]) + StepDiffs(o, s, steps[1..])
  }

  function DiffOf(o: Canonical, s: Canonical): seq<Divergence> {
    StepDiffs(o, s, Listing(o.Keys + s.Keys))
  }

  lemma PathDiffsFrom(step: string, o: Fields, s: Fields, paths: seq<string>, i: nat, done: seq<Divergence>)
    requires i < |paths|
    ensures done + PathDiffs(step, o, s, paths[i..]) ==
            (done + PathDiff(step, o, s, paths[i])) + PathDiffs(step, o, s, paths[i + 1..])
  {
    assert paths[i..][1..] == paths[i + 1..];
  }

  lemma StepDiffsFrom(o: Canonical, s: Canonical, steps: seq<string>, i: nat)
    requires i < |steps|
    ensures StepDiffs(o, s, steps[i..]) == StepDiff(o, s, steps[i]) + StepDiffs(o, s, steps[i + 1..])
  {
    assert steps[i..][1..] == steps[i + 1..];
  }

  /** The keys of both sides, chained, sorted and deduplicated. */
  method AllKeys(a: set<string>, b: set<string>) returns (keys: seq<string>)
    ensures keys == Listing(a + b)
  {
    keys := Dedup(Sorted(Listing(a) + Listing(b)));
    ChainedKeysAreTheUnion(a, b);
  }

  method DiffPath(step: string, o: Fields, s: Fields, path: string) returns (found: seq<Divergence>)
    ensures found == PathDiff(step, o, s, path)
  {
    var ov := if path in o then o[path] else STEP_ABSENT;
    var sv := if path in s then s[path] else STEP_ABSENT;
    found := [];
    if ov != sv {
      found := [Divergence(step, path, ov, sv)];
    }
  }

  method DiffPaths(step: string, o: Fields, s: Fields, paths: seq<string>) returns (out: seq<Divergence>)
    ensures out == PathDiffs(step, o, s, paths)
  {
    out := [];
    ghost var all := PathDiffs(step, o, s, paths);
    assert paths[0..] == paths;
    for i := 0 to |paths|
      invariant out + PathDiffs(step, o, s, paths[i..]) == all
    {
      var found := DiffPath(step, o, s, paths[i]);
      PathDiffsFrom(step, o, s, paths, i, out);
      out := out + found;
    }
  }

  method DiffStep(o: Canonical, s: Canonical, step: string) returns (out: seq<Divergence>)
    ensures out == StepDiff(o, s, step)
  {
    var fo, fs := FieldsOf(o, step), FieldsOf(s, step);
    var paths := AllKeys(fo.Keys, fs.Keys);
    out := DiffPaths(step, fo, fs, paths);
  }

  method Diff(o: Canonical, s: Canonical) returns (out: seq<Divergence>)
    ensures out == DiffOf(o, s)
  {
    var steps := AllKeys(o.Keys, s.Keys);
    out := [];
    ghost var all := StepDiffs(o, s, steps);
    assert steps[0..] == steps;
    for i := 0 to |steps|
      invariant out + StepDiffs(o, s, steps[i..]) == all
    {
      var found := DiffStep(o, s, steps[i]);
      StepDiffsFrom(o, s, steps, i);
      out := out + found;
    }
  }

  // ---- What the diff lists ----

  lemma {:induction false} PathDiffsMember(step: string, o: Fields, s: Fields, paths: seq<string>, d: Divergence)
    ensures d in PathDiffs(step, o, s, paths) <==>
            && d.step == step && d.path in paths
            && d.oracle == Cell(o, d.path) && d.subject == Cell(s, d.path) && d.oracle != d.subject
  {
    if paths == [] {
    } else {
      PathDiffsMember(step, o, s, paths[1..], d);
      assert paths == [paths[0]] + paths[1..];
    }
  }

  lemma {:induction false} StepDiffsMember(o: Canonical, s: Canonical, steps: seq<string>, d: Divergence)
    ensures d in StepDiffs(o, s, steps) <==>
            && d.step in steps
            && d.oracle == At(o, d.step, d.path) && d.subject == At(s, d.step, d.path) && d.oracle != d.subject
  {
    if steps == [] {
    } else {
      StepDiffsMember(o, s, steps[1..], d);
      assert steps == [steps[0]] + steps[1..];
      var fo, fs := FieldsOf(o, steps[0]), FieldsOf(s, steps[0]);
      PathDiffsMember(steps[0], fo, fs, Listing(fo.Keys + fs.Keys), d);
    }
  }

  /** The diff lists exactly the places where the two sides read differently. */
  lemma DiffIsExact(o: Canonical, s: Canonical, d: Divergence)
    ensures d in DiffOf(o, s) <==>
            d.oracle == At(o, d.step, d.path) && d.subject == At(s, d.step, d.path) && d.oracle != d.subject
  {
    StepDiffsMember(o, s, Listing(o.Keys + s.Keys), d);
  }

  /** The order of the report: by step, then by path. */
  predicate Precedes(d: Divergence, e: Divergence) {
    Before(d.step, e.step) || (d.step == e.step && Before(d.path, e.path))
  }

  ghost predicate InOrder(ds: seq<Divergence>) {
    forall i, j :: 0 <= i < j < |ds| ==> Precedes(ds[i], ds[j])
  }

  lemma ConcatInOrder(a: seq<Divergence>, b: seq<Divergence>)
    requires InOrder(a) && InOrder(b)
    requires forall d, e :: d in a && e in b ==> Precedes(d, e)
    ensures InOrder(a + b)
  {
    var c := a + b;
    forall i, j | 0 <= i < j < |c|
      ensures Precedes(c[i], c[j])
    {
      if i < |a| <= j {
        assert c[i] in a && c[j] in b;
      }
    }
  }

  lemma {:induction false} PathDiffsInOrder(step: string, o: Fields, s: Fields, paths: seq<string>)
    requires Ascending(paths)
    ensures InOrder(PathDiffs(step, o, s, paths))
  {
    if paths == [] {
    } else {
      var head := PathDiff(step, o, s, paths[0]);
      var rest := PathDiffs(step, o, s, paths[1..]);
      PathDiffsInOrder(step, o, s, paths[1..]);
      forall d, e | d in head && e in rest
        ensures Precedes(d, e)
      {
        PathDiffsMember(step, o, s, paths[1..], e);
        var k :| 0 <= k < |paths[1..]| && paths[1..][k] == e.path;
        assert paths[k + 1] == e.path;
      }
      ConcatInOrder(head, rest);
    }
  }

  lemma {:induction false} StepDiffsInOrder(o: Canonical, s: Canonical, steps: seq<string>)
    requires Ascending(steps)
    ensures InOrder(StepDiffs(o, s, steps))
  {
    if steps == [] {
    } else {
      var fo, fs := FieldsOf(o, steps[0]), FieldsOf(s, steps[0]);
      var paths := Listing(fo.Keys + fs.Keys);
      var head, rest := StepDiff(o, s, steps[0]), StepDiffs(o, s, steps[1..]);
      ListingAscends(fo.Keys + fs.Keys);
      PathDiffsInOrder(steps[0], fo, fs, paths);
      StepDiffsInOrder(o, s, steps[1..]);
      forall d, e | d in head && e in rest
        ensures Precedes(d, e)
      {
        PathDiffsMember(steps[0], fo, fs, paths, d);
        StepDiffsMember(o, s, steps[1..], e);
        var k :| 0 <= k < |steps[1..]| && steps[1..][k] == e.step;
        assert steps[k + 1] == e.step;
      }
      ConcatInOrder(head, rest);
    }
  }

  /** The report is sorted by step and path, so each disagreement appears once. */
  lemma DiffIsSorted(o: Canonical, s: Canonical)
    ensures InOrder(DiffOf(o, s))
  {
    ListingAscends(o.Keys + s.Keys);
    StepDiffsInOrder(o, s, Listing(o.Keys + s.Keys));
  }

  lemma PrecedesIsStrict(d: Divergence, e: Divergence)
    requires Precedes(d, e)
    ensures !Precedes(e, d) && d != e
  {
    BeforeIsStrictTotal(d.step, e.step);
    BeforeIsStrictTotal(d.path, e.path);
  }

  /** There is one ordered report of given divergences. */
  lemma {:induction false} OrderedReportIsUnique(a: seq<Divergence>, b: seq<Divergence>)
    requires InOrder(a) && InOrder(b) && forall d :: d in a <==> d in b
    ensures a == b
  {
    assert b != [] ==> b[0] in b;
    if a == [] {
    } else {
      assert a[0] in b;
      var i :| 0 <= i < |b| && b[i] == a[0];
      assert b[0] in a;
      var j :| 0 <= j < |a| && a[j] == b[0];
      assert i == 0 by {
        if i > 0 {
          PrecedesIsStrict(b[0], a[0]);
        }
      }
      forall d
        ensures d in a[1..] <==> d in b[1..]
      {
        TailWithoutHead(a, d);
        TailWithoutHead(b, d);
      }
      OrderedReportIsUnique(a[1..], b[1..]);
      assert a == [a[0]] + a[1..] && b == [b[0]] + b[1..];
    }
  }

  lemma TailWithoutHead(a: seq<Divergence>, d: Divergence)
    requires a != [] && InOrder(a)
    ensures d in a[1..] <==> d in a && d != a[0]
  {
    assert a == [a[0]] + a[1..];
    if d in a[1..] {
      var k :| 0 <= k < |a[1..]| && a[1..][k] == d;
      assert a[k + 1] == d;
      PrecedesIsStrict(a[0], d);
    }
  }

  // ---- The absent-step sentinel ----

  /** On arbitrary facts, an empty diff means that both sides read alike everywhere. */
  lemma EmptyMeansReadAlike(o: Canonical, s: Canonical)
    ensures DiffOf(o, s) == [] <==> forall step, path :: At(o, step, path) == At(s, step, path)
  {
    if DiffOf(o, s) == [] {
      forall step, path
        ensures At(o, step, path) == At(s, step, path)
      {
        DiffIsExact(o, s, Divergence(step, path, At(o, step, path), At(s, step, path)));
      }
    } else {
      var d := DiffOf(o, s)[0];
      assert d in DiffOf(o, s);
      DiffIsExact(o, s, d);
    }
  }

  /** Reading alike is weaker than being equal: a field spelled like the sentinel compares
      equal to a missing one, and so does a step without fields to a missing step. */
  lemma SentinelCanHideADifference()
    returns (o: Canonical, s: Canonical)
    ensures o != s && DiffOf(o, s) == []
  {
    o := map["a" := map["value" := "<step absent>"]];
    s := map[];
    forall step, path
      ensures At(o, step, path) == At(s, step, path)
    {
    }
    EmptyMeansReadAlike(o, s);
    assert "a" in o;
  }

  // ---- The diff of two runs ----

  /** The last observation recorded under an id. */
  function LastUnder(steps: seq<Step>, id: string): Option<Observation> {
    if steps == [] then None
    else
      var last := steps[|steps| - 1];
      if last.id == id then Some(last.observation) else LastUnder(steps[..|steps| - 1], id)
  }

  /** The projection of a run holds, under each id it recorded, the last observation. */
  lemma {:induction false} ProjectedHoldsLast(steps: seq<Step>, p: Bytes, spec: Spec, r: Rendering, id: string)
    requires spec.Known()
    ensures id in Projected(steps, p, spec, r) <==> LastUnder(steps, id).Some?
    ensures id in Projected(steps, p, spec, r) ==>
            Projected(steps, p, spec, r)[id] == ObsFields(LastUnder(steps, id).value, p, spec, r)
  {
    if steps == [] {
    } else {
      ProjectedHoldsLast(steps[..|steps| - 1], p, spec, r, id);
    }
  }

  lemma ClassIsShown(obs: Observation, p: Bytes, spec: Spec, r: Rendering)
    requires spec.Known()
    ensures "class" in ObsFields(obs, p, spec, r) && ObsFields(obs, p, spec, r)["class"] == Tag(obs.cls)
    ensures Tag(obs.cls) != STEP_ABSENT
  {
    assert DEFAULT_PATHS[0] == "class";
    DefaultPathsEmitted(obs, p, r, "class");
    DefaultsIgnoreTheSpec(obs, p, spec, r, "class");
    ClassLookups(obs, p, r, "class");
    TagIsLowercase(obs.cls);
  }

  lemma ProtoPresenceIsShown(obs: Observation, p: Bytes, spec: Spec, r: Rendering)
    requires spec.Known()
    ensures "proto.present" in ObsFields(obs, p, spec, r)
    ensures ObsFields(obs, p, spec, r)["proto.present"] == if obs.proto.Some? then "true" else "false"
  {
    assert DEFAULT_PATHS[7] == "proto.present";
    DefaultPathsEmitted(obs, p, r, "proto.present");
    DefaultsIgnoreTheSpec(obs, p, spec, r, "proto.present");
    DefaultLookups(obs, p, r);
  }

  lemma TagIsLowercase(c: Class)
    ensures Tag(c) != STEP_ABSENT
  {
    assert STEP_ABSENT[0] == '<';
  }

  /** Observations whose class and proto presence read alike agree on both. */
  lemma ReadAlikeMeansSameKind(a: Observation, p: Bytes, b: Observation, q: Bytes, spec: Spec, r: Rendering)
    requires spec.Known()
    requires Cell(ObsFields(a, p, spec, r), "class") == Cell(ObsFields(b, q, spec, r), "class")
    requires Cell(ObsFields(a, p, spec, r), "proto.present") == Cell(ObsFields(b, q, spec, r), "proto.present")
    ensures Variant(a.cls) == Variant(b.cls) && (a.proto.Some? <==> b.proto.Some?)
  {
    ClassIsShown(a, p, spec, r);
    ClassIsShown(b, q, spec, r);
    ProtoPresenceIsShown(a, p, spec, r);
    ProtoPresenceIsShown(b, q, spec, r);
    TagsTellVariantsApart(a.cls, b.cls);
    assert |"true"| != |"false"|;
  }

  lemma SameKindMeansSamePaths(a: Observation, p: Bytes, b: Observation, q: Bytes, spec: Spec, r: Rendering,
                               path: string)
    requires spec.Known()
    requires Variant(a.cls) == Variant(b.cls) && (a.proto.Some? <==> b.proto.Some?)
    ensures path in ObsFields(a, p, spec, r) <==> path in ObsFields(b, q, spec, r)
  {
    VariantDeterminesKind(a.cls, b.cls);
    assert IsDefaultPathOf(path, a) <==> IsDefaultPathOf(path, b);
    PathsEmitted(a, p, spec, r, path);
    PathsEmitted(b, q, spec, r, path);
  }

  lemma VariantDeterminesKind(a: Class, b: Class)
    requires Variant(a) == Variant(b)
    ensures (a.Unsupported? <==> b.Unsupported?) && (a.Mixed? <==> b.Mixed?)
  {
  }

  lemma SamePathsAndReadsMeanEqual(f: Fields, g: Fields)
    requires forall path :: path in f <==> path in g
    requires forall path :: Cell(f, path) == Cell(g, path)
    ensures f == g
  {
    forall path | path in f
      ensures f[path] == g[path]
    {
      assert Cell(f, path) == Cell(g, path);
    }
  }

  /** Two observations that read alike on every path have equal fields. */
  lemma ReadAlikeMeansEqual(a: Observation, p: Bytes, b: Observation, q: Bytes, spec: Spec, r: Rendering)
    requires spec.Known()
    requires forall path :: Cell(ObsFields(a, p, spec, r), path) == Cell(ObsFields(b, q, spec, r), path)
    ensures ObsFields(a, p, spec, r) == ObsFields(b, q, spec, r)
  {
    ReadAlikeMeansSameKind(a, p, b, q, spec, r);
    forall path
      ensures path in ObsFields(a, p, spec, r) <==> path in ObsFields(b, q, spec, r)
    {
      SameKindMeansSamePaths(a, p, b, q, spec, r, path);
    }
    SamePathsAndReadsMeanEqual(ObsFields(a, p, spec, r), ObsFields(b, q, spec, r));
  }

  /** Main theorem: for any two runs and one known spec, the diff of the projections is empty
      exactly when the projections are equal. On projections the sentinel hides nothing, since
      every step shows its class and no tag is spelled like the sentinel. */
  lemma EmptyDiffMeansEqualProjections(a: seq<Step>, p: Bytes, b: seq<Step>, q: Bytes, spec: Spec, r: Rendering)
    requires spec.Known()
    ensures DiffOf(Projected(a, p, spec, r), Projected(b, q, spec, r)) == []
            <==> Projected(a, p, spec, r) == Projected(b, q, spec, r)
  {
    var o, s := Projected(a, p, spec, r), Projected(b, q, spec, r);
    EmptyMeansReadAlike(o, s);
    if DiffOf(o, s) == [] {
      forall id
        ensures id in o <==> id in s
        ensures id in o && id in s ==> o[id] == s[id]
      {
        EqualAtStep(a, p, b, q, spec, r, id);
      }
      assert o == s;
    }
  }

  lemma EqualAtStep(a: seq<Step>, p: Bytes, b: seq<Step>, q: Bytes, spec: Spec, r: Rendering, id: string)
    requires spec.Known()
    requires forall step, path :: At(Projected(a, p, spec, r), step, path) == At(Projected(b, q, spec, r), step, path)
    ensures id in Projected(a, p, spec, r) <==> id in Projected(b, q, spec, r)
    ensures id in Projected(a, p, spec, r) ==>
            id in Projected(b, q, spec, r) && Projected(a, p, spec, r)[id] == Projected(b, q, spec, r)[id]
  {
    var o, s := Projected(a, p, spec, r), Projected(b, q, spec, r);
    ProjectedHoldsLast(a, p, spec, r, id);
    ProjectedHoldsLast(b, q, spec, r, id);
    assert At(o, id, "class") == At(s, id, "class");
    if id in o {
      ClassIsShown(LastUnder(a, id).value, p, spec, r);
    }
    if id in s {
      ClassIsShown(LastUnder(b, id).value, q, spec, r);
    }
    if id in o && id in s {
      forall path
        ensures Cell(o[id], path) == Cell(s[id], path)
      {
        assert At(o, id, path) == At(s, id, path);
      }
      ReadAlikeMeansEqual(LastUnder(a, id).value, p, LastUnder(b, id).value, q, spec, r);
    }
  }

  /** Main theorem: two runs that made the same observations, each under its own admissible
      prefix, do not diverge. */
  lemma SameRunsDoNotDiverge(a: seq<Step>, p: Bytes, b: seq<Step>, q: Bytes, spec: Spec, r: Rendering)
    requires spec.Known() && Admissible(p) && Admissible(q) && SameSteps(a, p, b, q)
    ensures DiffOf(Projected(a, p, spec, r), Projected(b, q, spec, r)) == []
  {
    RunsProjectAlike(a, p, b, q, spec, r);
    EmptyDiffMeansEqualProjections(a, p, b, q, spec, r);
  }

  // ---- Widening ----

  function OnDefaults(ds: seq<Divergence>): seq<Divergence> {
    if ds == [] then []
    else (if ds[0].path in DEFAULT_PATHS then [ds[0]] else []) + OnDefaults(ds[1..])
  }

  lemma {:induction false} OnDefaultsMember(ds: seq<Divergence>, d: Divergence)
    ensures d in OnDefaults(ds) <==> d in ds && d.path in DEFAULT_PATHS
  {
    if ds == [] {
    } else {
      OnDefaultsMember(ds[1..], d);
      assert ds == [ds[0]] + ds[1..];
    }
  }

  lemma {:induction false} OnDefaultsInOrder(ds: seq<Divergence>)
    requires InOrder(ds)
    ensures InOrder(OnDefaults(ds))
  {
    if ds == [] {
    } else {
      OnDefaultsInOrder(ds[1..]);
      var rest := OnDefaults(ds[1..]);
      forall j | 0 <= j < |rest|
        ensures Precedes(ds[0], rest[j])
      {
        OnDefaultsMember(ds[1..], rest[j]);
        var k :| 0 <= k < |ds[1..]| && ds[1..][k] == rest[j];
        assert ds[k + 1] == rest[j];
      }
    }
  }

  /** A default path reads the same under every known spec. */
  lemma DefaultReadsIgnoreTheSpec(steps: seq<Step>, p: Bytes, narrow: Spec, wide: Spec, r: Rendering,
                                  step: string, path: string)
    requires narrow.Known() && wide.Known() && path in DEFAULT_PATHS
    ensures At(Projected(steps, p, narrow, r), step, path) == At(Projected(steps, p, wide, r), step, path)
  {
    ProjectedHoldsLast(steps, p, narrow, r, step);
    ProjectedHoldsLast(steps, p, wide, r, step);
    if LastUnder(steps, step).Some? {
      DefaultsIgnoreTheSpec(LastUnder(steps, step).value, p, narrow, r, path);
      DefaultsIgnoreTheSpec(LastUnder(steps, step).value, p, wide, r, path);
    }
  }

  /** Main theorem: a claim that widens the comparison leaves the divergences on the default
      paths exactly as they were. */
  lemma WideningKeepsDefaultDivergences(a: seq<Step>, p: Bytes, b: seq<Step>, q: Bytes,
                                        narrow: Spec, wide: Spec, r: Rendering)
    requires narrow.Known() && wide.Known()
    ensures OnDefaults(DiffOf(Projected(a, p, narrow, r), Projected(b, q, narrow, r))) ==
            OnDefaults(DiffOf(Projected(a, p, wide, r), Projected(b, q, wide, r)))
  {
    var o, s := Projected(a, p, narrow, r), Projected(b, q, narrow, r);
    var o', s' := Projected(a, p, wide, r), Projected(b, q, wide, r);
    var ds, ds' := DiffOf(o, s), DiffOf(o', s');
    DiffIsSorted(o, s);
    DiffIsSorted(o', s');
    OnDefaultsInOrder(ds);
    OnDefaultsInOrder(ds');
    forall d
      ensures d in OnDefaults(ds) <==> d in OnDefaults(ds')
    {
      OnDefaultsMember(ds, d);
      OnDefaultsMember(ds', d);
      DiffIsExact(o, s, d);
      DiffIsExact(o', s', d);
      if d.path in DEFAULT_PATHS {
        DefaultReadsIgnoreTheSpec(a, p, narrow, wide, r, d.step, d.path);
        DefaultReadsIgnoreTheSpec(b, q, narrow, wide, r, d.step, d.path);
      }
    }
    OrderedReportIsUnique(OnDefaults(ds), OnDefaults(ds'));
  }

  /** With no opt-ins every divergence is on a default path. */
  lemma DefaultSpecDivergesOnDefaults(a: seq<Step>, p: Bytes, b: seq<Step>, q: Bytes, r: Rendering, d: Divergence)
    requires d in DiffOf(Projected(a, p, Spec([]), r), Projected(b, q, Spec([]), r))
    ensures d.path in DEFAULT_PATHS
  {
    var spec := Spec([]);
    var o, s := Projected(a, p, spec, r), Projected(b, q, spec, r);
    DiffIsExact(o, s, d);
    ProjectedHoldsLast(a, p, spec, r, d.step);
    ProjectedHoldsLast(b, q, spec, r, d.step);
    if d.path in FieldsOf(o, d.step) {
      PathsEmitted(LastUnder(a, d.step).value, p, spec, r, d.path);
    } else {
      PathsEmitted(LastUnder(b, d.step).value, q, spec, r, d.path);
    }
  }
}
