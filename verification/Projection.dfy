/** What a comparison looks at: observations reduced to text, step by step and path by path. */
module Projection {
  import opened Wrappers
  import opened ByteStrings
  import opened Classes
  import opened Observations
  import opened Texts
  import opened Namespacing
  import Base64

  const OPT_IN_PATHS: seq<string> := ["native.type", "proto", "errors.count"]

  const DEFAULT_PATHS: seq<string> :=
    ["class", "unsupported.detail", "class.parts", "value", "locks.count", "locks", "commit_ts",
     "proto.present", "proto.type"]

  const ABSENT := "<absent>"

  datatype Spec = Spec(alsoCompare: seq<string>) {

    predicate Known() {
      forall path :: path in alsoCompare ==> path in OPT_IN_PATHS
    }

    /** The first unknown path is the error. */
    method Validate() returns (r: Result<(), string>)
      ensures r.Ok? <==> Known()
      ensures r.Err? ==> exists i :: 0 <= i < |alsoCompare| && r.error == alsoCompare[i] && r.error !in OPT_IN_PATHS
                                     && forall j :: 0 <= j < i ==> alsoCompare[j] in OPT_IN_PATHS
    {
      for i := 0 to |alsoCompare|
        invariant forall j :: 0 <= j < i ==> alsoCompare[j] in OPT_IN_PATHS
      {
        if alsoCompare[i] !in OPT_IN_PATHS {
          return Err(alsoCompare[i]);
        }
      }
      r := Result.Ok(());
    }
  }

  type Fields = map<string, string>

  type Canonical = map<string, Fields>

  /** Decoding of bytes as UTF-8 and printing of JSON, which are not part of this model. */
  datatype Rendering = Rendering(utf8: Bytes -> Option<string>, json: Json -> string) {

    /** Redaction happens on the bytes; only then are they shown as text or as base64. */
    function Text(raw: Bytes, prefix: Bytes): string {
      var redacted := Redact(raw, prefix);
      match utf8(redacted)
      case Some(s) => s
      case None => Base64.Encode(redacted)
    }
  }

  function BucketTtl(ttlMs: nat): string {
    if ttlMs == 0 then "zero" else "positive"
  }

  /** The container and the message of a proto, and never its payload. */
  function ProtoType(p: Json): string {
    if !p.Object? then "<malformed>"
    else if p.members == [] then "<empty>"
    else
      var (container, inner) := p.members[0];
      if inner.Object? && inner.members != [] then container + "." + inner.members[0].0
      else container
  }

  function Tags(parts: seq<Class>): (tags: seq<string>)
    ensures |tags| == |parts|
  {
    if parts == [] then [] else [Tag(parts[0])] + Tags(parts[1..])
  }

  function LockLine(l: LockObs, prefix: Bytes, r: Rendering): string {
    "key=" + r.Text(l.key.Slice(), prefix) + " primary=" + r.Text(l.primary.Slice(), prefix) +
    " kind=" + l.kind + " ttl=" + BucketTtl(l.ttlMs)
  }

  function LockLines(locks: seq<LockObs>, prefix: Bytes, r: Rendering): (lines: seq<string>)
    ensures |lines| == |locks|
  {
    if locks == [] then [] else [LockLine(locks[0], prefix, r)] + LockLines(locks[1..], prefix, r)
  }

  function ClassFields(cls: Class): Fields {
    match cls
    case Unsupported(detail) => map["class" := Tag(cls)]["unsupported.detail" := detail]
    case Mixed(parts) => map["class" := Tag(cls)]["class.parts" := Joined(Sorted(Tags(parts)), ",")]
    case _ => map["class" := Tag(cls)]
  }

  function DataFields(obs: Observation, prefix: Bytes, r: Rendering): Fields {
    ClassFields(obs.cls)
    ["value" := if obs.value.Some? then r.Text(obs.value.value.Slice(), prefix) else ABSENT]
    ["locks.count" := Decimal(|obs.locks|)]
    ["locks" := Joined(Sorted(LockLines(obs.locks, prefix, r)), " | ")]
    ["commit_ts" := if obs.commitTs.Some? then "<ts>" else ABSENT]
  }

  /** What is compared without an opt-in. */
  function DefaultFields(obs: Observation, prefix: Bytes, r: Rendering): Fields {
    var data := DataFields(obs, prefix, r);
    match obs.proto
    case None => data["proto.present" := "false"]
    case Some(p) => data["proto.present" := "true"]["proto.type" := ProtoType(p)]
  }

  function OptIn(obs: Observation, path: string, r: Rendering): string
    requires path in OPT_IN_PATHS
  {
    if path == "native.type" then
      if obs.native.Some? then obs.native.value.typ else ABSENT
    else if path == "proto" then
      if obs.proto.Some? then r.json(obs.proto.value) else ABSENT
    else
      if obs.errorCount.Some? then Decimal(obs.errorCount.value) else ABSENT
  }

  function ObsFields(obs: Observation, prefix: Bytes, spec: Spec, r: Rendering): Fields
    requires spec.Known()
  {
    DefaultFields(obs, prefix, r) + map path | path in spec.alsoCompare :: OptIn(obs, path, r)
  }

  method ProjectObs(obs: Observation, prefix: Bytes, spec: Spec, r: Rendering) returns (out: Fields)
    requires spec.Known()
    ensures out == ObsFields(obs, prefix, spec, r)
  {
    out := map["class" := Tag(obs.cls)];
    if obs.cls.Unsupported? {
      out := out["unsupported.detail" := obs.cls.detail];
    }
    if obs.cls.Mixed? {
      out := out["class.parts" := Joined(Sorted(Tags(obs.cls.parts)), ",")];
    }
    assert out == ClassFields(obs.cls);
    out := out["value" := if obs.value.Some? then r.Text(obs.value.value.Slice(), prefix) else ABSENT];
    out := out["locks.count" := Decimal(|obs.locks|)];
    out := out["locks" := Joined(Sorted(LockLines(obs.locks, prefix, r)), " | ")];
    out := out["commit_ts" := if obs.commitTs.Some? then "<ts>" else ABSENT];
    out := out["proto.present" := if obs.proto.Some? then "true" else "false"];
    if obs.proto.Some? {
      out := out["proto.type" := ProtoType(obs.proto.value)];
    }
    out := AddOptIns(out, obs, spec, r);
  }

  method AddOptIns(fields: Fields, obs: Observation, spec: Spec, r: Rendering) returns (out: Fields)
    requires spec.Known()
    ensures out == fields + map path | path in spec.alsoCompare :: OptIn(obs, path, r)
  {
    out := fields;
    for i := 0 to |spec.alsoCompare|
      invariant out == fields + map path | path in spec.alsoCompare[..i] :: OptIn(obs, path, r)
    {
      var path := spec.alsoCompare[i];
      assert spec.alsoCompare[..i + 1] == spec.alsoCompare[..i] + [path];
      out := out[path := OptIn(obs, path, r)];
    }
    assert spec.alsoCompare[..|spec.alsoCompare|] == spec.alsoCompare;
  }

  /** The facts of a run: for each step id, the fields of the last step with that id. */
  function Projected(steps: seq<Step>, prefix: Bytes, spec: Spec, r: Rendering): Canonical
    requires spec.Known()
  {
    if steps == [] then map[]
    else
      var last := steps[|steps| - 1];
      Projected(steps[..|steps| - 1], prefix, spec, r)[last.id := ObsFields(last.observation, prefix, spec, r)]
  }

  lemma ProjectedGrows(steps: seq<Step>, i: nat, prefix: Bytes, spec: Spec, r: Rendering)
    requires i < |steps| && spec.Known()
    ensures Projected(steps[..i + 1], prefix, spec, r) ==
            Projected(steps[..i], prefix, spec, r)[steps[i].id := ObsFields(steps[i].observation, prefix, spec, r)]
  {
    assert steps[..i + 1][..i] == steps[..i];
  }

  method Project(trace: Trace, spec: Spec, r: Rendering) returns (out: Canonical)
    requires spec.Known()
    ensures out == Projected(trace.steps, trace.prefix, spec, r)
  {
    out := map[];
    for i := 0 to |trace.steps|
      invariant out == Projected(trace.steps[..i], trace.prefix, spec, r)
    {
      var fields := ProjectObs(trace.steps[i].observation, trace.prefix, spec, r);
      ProjectedGrows(trace.steps, i, trace.prefix, spec, r);
      out := out[trace.steps[i].id := fields];
    }
    assert trace.steps[..|trace.steps|] == trace.steps;
  }
}
