/** The canonical vocabulary: what a driver may say a server said. */
module Classes {
  import opened Wrappers

  datatype Class =
    | Ok
    | NotFound
    | WriteConflict
    | KeyExists
    | TxnNotFound
    | UnresolvedLock
    | Deadlock
    | AssertionFailed
    | Retryable
    | Aborted
    | CommitTsTooLarge
    | LockWaitTimeout
    | Undetermined
    | RegionError
    | PdError
    | RpcError
    | Mixed(parts: seq<Class>)
    | Unsupported(detail: string)
    | DriverError(detail: string)
    | Internal(detail: string)

  /** Why an observation cannot be evidence. */
  datatype Reason =
    | NoArmInMapping(detail: string)
    | HarnessFailed(detail: string)
    | ClusterMoved

  predicate IsAdmissible(c: Class) {
    match c
    case Internal(_) => false
    case DriverError(_) => false
    case RegionError => false
    case Mixed(parts) => forall p :: p in parts ==> IsAdmissible(p)
    case _ => true
  }

  function InadmissibleReason(c: Class): Option<Reason>
    decreases c, 0
  {
    match c
    case Internal(d) => Some(NoArmInMapping(d))
    case DriverError(d) => Some(HarnessFailed(d))
    case RegionError => Some(ClusterMoved)
    case Mixed(parts) => FirstReason(c, parts)
    case _ => None
  }

  /** The first reason among the parts of `whole`. */
  function FirstReason(whole: Class, parts: seq<Class>): Option<Reason>
    requires forall i :: 0 <= i < |parts| ==> parts[i] < whole
    decreases whole, 0, |parts|
  {
    if parts == [] then None
    else
      match InadmissibleReason(parts[0])
      case Some(why) => Some(why)
      case None => FirstReason(whole, parts[1..])
  }

  /** An observation is admissible exactly when no reason can be given against it. */
  lemma {:induction false} AdmissibleMeansNoReason(c: Class)
    ensures IsAdmissible(c) <==> InadmissibleReason(c).None?
    decreases c, 0
  {
    if c.Mixed? {
      NoReasonAmong(c, c.parts);
    }
  }

  lemma {:induction false} NoReasonAmong(whole: Class, parts: seq<Class>)
    requires forall i :: 0 <= i < |parts| ==> parts[i] < whole
    ensures (forall p :: p in parts ==> IsAdmissible(p)) <==> FirstReason(whole, parts).None?
    decreases whole, 0, |parts|
  {
    if parts == [] {
    } else {
      assert parts[0] in parts;
      assert parts == [parts[0]] + parts[1..];
      AdmissibleMeansNoReason(parts[0]);
      NoReasonAmong(whole, parts[1..]);
    }
  }

  /** The classes that a mixed class comes down to, in order. */
  function Atoms(c: Class): seq<Class>
    decreases c, 0
  {
    if c.Mixed? then AtomsOfAll(c, c.parts) else [c]
  }

  function AtomsOfAll(whole: Class, parts: seq<Class>): seq<Class>
    requires forall i :: 0 <= i < |parts| ==> parts[i] < whole
    decreases whole, 0, |parts|
  {
    if parts == [] then [] else Atoms(parts[0]) + AtomsOfAll(whole, parts[1..])
  }

  /** Why a class that is not mixed cannot be evidence: an unmapped error says what it lacks an arm
      for, a harness failure what failed, and a region error that the cluster moved. */
  ghost predicate IsReasonFor(why: Option<Reason>, atom: Class) {
    match why
    case None => !atom.Internal? && !atom.DriverError? && !atom.RegionError?
    case Some(NoArmInMapping(detail)) => atom == Internal(detail)
    case Some(HarnessFailed(detail)) => atom == DriverError(detail)
    case Some(ClusterMoved) => atom == RegionError
  }

  /** There is a reason for the first of these that has one, and that reason is given. */
  ghost predicate IsFirstReason(why: Option<Reason>, atoms: seq<Class>) {
    if why.None? then forall a :: a in atoms ==> IsReasonFor(None, a)
    else exists i :: 0 <= i < |atoms| && IsReasonFor(why, atoms[i])
                     && forall j :: 0 <= j < i ==> IsReasonFor(None, atoms[j])
  }

  lemma FirstReasonOfTwo(first: Option<Reason>, a: seq<Class>, second: Option<Reason>, b: seq<Class>)
    requires IsFirstReason(first, a) && IsFirstReason(second, b)
    ensures IsFirstReason(if first.Some? then first else second, a + b)
  {
    if first.Some? {
      var i :| 0 <= i < |a| && IsReasonFor(first, a[i]) && forall j :: 0 <= j < i ==> IsReasonFor(None, a[j]);
      assert (a + b)[i] == a[i] && forall j :: 0 <= j < i ==> (a + b)[j] == a[j];
    } else if second.Some? {
      var i :| 0 <= i < |b| && IsReasonFor(second, b[i]) && forall j :: 0 <= j < i ==> IsReasonFor(None, b[j]);
      assert (a + b)[|a| + i] == b[i];
      forall j | 0 <= j < |a| + i
        ensures IsReasonFor(None, (a + b)[j])
      {
        assert j < |a| ==> (a + b)[j] == a[j] && a[j] in a;
        assert j >= |a| ==> (a + b)[j] == b[j - |a|];
      }
    }
  }

  /** The reason given is that of the first part, at any depth, which cannot be evidence. */
  lemma {:induction false} TheFirstReasonIsGiven(c: Class)
    ensures IsFirstReason(InadmissibleReason(c), Atoms(c))
    decreases c, 0
  {
    if c.Mixed? {
      TheFirstReasonAmong(c, c.parts);
    } else {
      assert Atoms(c)[0] == c && IsReasonFor(InadmissibleReason(c), c);
    }
  }

  lemma {:induction false} TheFirstReasonAmong(whole: Class, parts: seq<Class>)
    requires forall i :: 0 <= i < |parts| ==> parts[i] < whole
    ensures IsFirstReason(FirstReason(whole, parts), AtomsOfAll(whole, parts))
    decreases whole, 0, |parts|
  {
    if parts == [] {
    } else {
      TheFirstReasonIsGiven(parts[0]);
      TheFirstReasonAmong(whole, parts[1..]);
      FirstReasonOfTwo(InadmissibleReason(parts[0]), Atoms(parts[0]),
                       FirstReason(whole, parts[1..]), AtomsOfAll(whole, parts[1..]));
    }
  }

  /** `part` is `c` itself or a part, at any depth, of the mixed class `c`. */
  predicate Occurs(part: Class, c: Class) {
    c == part || (c.Mixed? && exists p :: p in c.parts && Occurs(part, p))
  }

  /** The cluster moved: a region error, at any depth. */
  predicate ClusterCause(c: Class) {
    Occurs(RegionError, c)
  }

  /** Something else makes the class inadmissible: an unmapped error or a harness failure, at any
      depth. */
  ghost predicate OtherCause(c: Class) {
    exists part :: Occurs(part, c) && (part.Internal? || part.DriverError?)
  }

  /** A class is inadmissible for one of these causes and for no third. */
  lemma {:induction false} InadmissibleHasACause(c: Class)
    ensures !IsAdmissible(c) <==> ClusterCause(c) || OtherCause(c)
  {
    if c.Mixed? {
      if !IsAdmissible(c) {
        var p :| p in c.parts && !IsAdmissible(p);
        InadmissibleHasACause(p);
        if OtherCause(p) {
          var part :| Occurs(part, p) && (part.Internal? || part.DriverError?);
          assert Occurs(part, c);
        }
      }
      if ClusterCause(c) {
        TaintSpreads(RegionError, c);
      }
      if part :| Occurs(part, c) && (part.Internal? || part.DriverError?) {
        TaintSpreads(part, c);
      }
    } else {
      assert Occurs(c, c);
    }
  }

  /** A mixed class cannot launder a member: one inadmissible part at any depth taints it. */
  lemma {:induction false} TaintSpreads(part: Class, c: Class)
    requires Occurs(part, c) && !IsAdmissible(part)
    ensures !IsAdmissible(c)
  {
    if c != part {
      var p :| p in c.parts && Occurs(part, p);
      TaintSpreads(part, p);
    }
  }

  function Tag(c: Class): string {
    match c
    case Ok => "ok"
    case NotFound => "not_found"
    case WriteConflict => "write_conflict"
    case KeyExists => "key_exists"
    case TxnNotFound => "txn_not_found"
    case UnresolvedLock => "unresolved_lock"
    case Deadlock => "deadlock"
    case AssertionFailed => "assertion_failed"
    case Retryable => "retryable"
    case Aborted => "aborted"
    case CommitTsTooLarge => "commit_ts_too_large"
    case LockWaitTimeout => "lock_wait_timeout"
    case Undetermined => "undetermined"
    case RegionError => "region_error"
    case PdError => "pd_error"
    case RpcError => "rpc_error"
    case Mixed(_) => "mixed"
    case Unsupported(_) => "unsupported"
    case DriverError(_) => "driver_error"
    case Internal(_) => "internal"
  }

  /** The variant of a class, without its contents. */
  function Variant(c: Class): nat {
    match c
    case Ok => 0
    case NotFound => 1
    case WriteConflict => 2
    case KeyExists => 3
    case TxnNotFound => 4
    case UnresolvedLock => 5
    case Deadlock => 6
    case AssertionFailed => 7
    case Retryable => 8
    case Aborted => 9
    case CommitTsTooLarge => 10
    case LockWaitTimeout => 11
    case Undetermined => 12
    case RegionError => 13
    case PdError => 14
    case RpcError => 15
    case Mixed(_) => 16
    case Unsupported(_) => 17
    case DriverError(_) => 18
    case Internal(_) => 19
  }

  /** The names under which the variants travel on the wire, in the order of their declaration. */
  const WIRE_NAMES: seq<string> :=
    ["ok", "not_found", "write_conflict", "key_exists", "txn_not_found", "unresolved_lock", "deadlock",
     "assertion_failed", "retryable", "aborted", "commit_ts_too_large", "lock_wait_timeout", "undetermined",
     "region_error", "pd_error", "rpc_error", "mixed", "unsupported", "driver_error", "internal"]

  /** A class is shown by its name on the wire. */
  lemma TagsAreWireNames(c: Class)
    ensures Variant(c) < |WIRE_NAMES| && Tag(c) == WIRE_NAMES[Variant(c)]
  {
  }

  /** The tags tell the variants apart: length and second letter already do. */
  lemma TagsTellVariantsApart(a: Class, b: Class)
    ensures Tag(a) == Tag(b) <==> Variant(a) == Variant(b)
  {
    TagShape(a);
    TagShape(b);
    if Variant(a) == Variant(b) {
      VariantDeterminesTag(a, b);
    }
  }

  lemma TagShape(c: Class)
    ensures |Tag(c)| >= 2
    ensures Variant(c) == VariantByShape(|Tag(c)|, Tag(c)[1])
  {
  }

  ghost function VariantByShape(length: nat, second: char): nat {
    match length
    case 2 => 0
    case 5 => 16
    case 7 => 9
    case 8 => (match second case 'e' => 6 case 'd' => 14 case _ => 19)
    case 9 => (match second case 'o' => 1 case 'e' => 8 case _ => 15)
    case 10 => 3
    case 11 => 17
    case 12 => (match second case 'n' => 12 case 'e' => 13 case _ => 18)
    case 13 => 4
    case 14 => 2
    case 15 => 5
    case 16 => 7
    case 17 => 11
    case _ => 10
  }

  /** Classes of one variant have one tag. */
  lemma VariantDeterminesTag(a: Class, b: Class)
    requires Variant(a) == Variant(b)
    ensures Tag(a) == Tag(b)
  {
  }
}
