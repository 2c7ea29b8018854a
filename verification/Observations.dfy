/** The evidence a driver returns for one step, and the trace of a run. */
module Observations {
  import opened Wrappers
  import opened ByteStrings
  import opened Classes
  import Base64

  /** Opaque bytes on the wire. Only the base64 form is ever compared. */
  datatype Blob = Blob(b64: string, utf8: Option<string>) {
    function Slice(): Bytes {
      match Base64.Decode(b64)
      case Some(x) => x
      case None => []
    }
  }

  /** A blob on the wire stands for the bytes that it encodes, and a malformed one for none. */
  lemma BlobsHoldTheirBytes(blob: Blob, bytes: Bytes)
    ensures blob.b64 == Base64.Encode(bytes) ==> blob.Slice() == bytes
    ensures (forall x :: blob.b64 != Base64.Encode(x)) ==> blob.Slice() == []
  {
    Base64.DecodeInvertsEncode(blob.b64, bytes);
    if Base64.Decode(blob.b64).Some? {
      Base64.DecodeInvertsEncode(blob.b64, Base64.Decode(blob.b64).value);
    }
  }

  /** A JSON value; an object lists its members in key order. */
  datatype Json =
    | Scalar(text: string)
    | Array(items: seq<Json>)
    | Object(members: seq<(string, Json)>)

  datatype LockObs = LockObs(key: Blob, primary: Blob, kind: string, ttlMs: nat, txnStartTs: nat)

  datatype NativeObs = NativeObs(lang: string, typ: string, display: string)

  datatype ChecksumObs = ChecksumObs(crc64Xor: nat, totalKvs: nat, totalBytes: nat)

  datatype Observation = Observation(
    cls: Class,
    value: Option<Blob>,
    locks: seq<LockObs>,
    startTs: Option<nat>,
    commitTs: Option<nat>,
    errorCount: Option<nat>,
    proto: Option<Json>,
    native: Option<NativeObs>,
    checksum: Option<ChecksumObs>)

  datatype Step = Step(id: string, role: string, op: string, observation: Observation)

  datatype Trace = Trace(prefix: Bytes, steps: seq<Step>)

  /** The steps of a trace that cannot be evidence, with their reasons. */
  function Inadmissible(steps: seq<Step>): (bad: seq<(Step, Reason)>)
  {
    if steps == [] then []
    else
      (match InadmissibleReason(steps[0].observation.cls)
       case Some(why) => [(steps[0], why)]
       case None => []) + Inadmissible(steps[1..])
  }

  predicate IsTransient(steps: seq<Step>) {
    exists s :: s in steps && s.observation.cls.RegionError?
  }

  /** A trace may settle a claim exactly when every step of it may. */
  lemma {:induction false} EvidenceMeansEveryStepAdmissible(steps: seq<Step>)
    ensures Inadmissible(steps) == [] <==> forall s :: s in steps ==> IsAdmissible(s.observation.cls)
  {
    if steps == [] {
    } else {
      AdmissibleMeansNoReason(steps[0].observation.cls);
      EvidenceMeansEveryStepAdmissible(steps[1..]);
      assert steps == [steps[0]] + steps[1..];
    }
  }

  /** The steps that cannot be evidence, in order. */
  ghost function BadSteps(steps: seq<Step>): seq<Step> {
    if steps == [] then []
    else (if IsAdmissible(steps[0].observation.cls) then [] else [steps[0]]) + BadSteps(steps[1..])
  }

  /** Each of those is listed, once and in order, with the reason of its first part that cannot be
      evidence. */
  lemma {:induction false} EachBadStepIsListed(steps: seq<Step>)
    ensures |Inadmissible(steps)| == |BadSteps(steps)|
    ensures forall i :: 0 <= i < |Inadmissible(steps)| ==>
              && Inadmissible(steps)[i].0 == BadSteps(steps)[i]
              && IsFirstReason(Some(Inadmissible(steps)[i].1), Atoms(BadSteps(steps)[i].observation.cls))
  {
    if steps == [] {
    } else {
      AdmissibleMeansNoReason(steps[0].observation.cls);
      TheFirstReasonIsGiven(steps[0].observation.cls);
      EachBadStepIsListed(steps[1..]);
    }
  }
}
