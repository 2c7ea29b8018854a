/** The Rust half of the mapping table: client errors onto the vocabulary. */
module ErrorMapping {
  import opened Wrappers
  import opened Classes

  /** The fields of a kvproto key error that the table reads, and how it prints. */
  datatype KeyError = KeyError(
    conflict: bool,
    alreadyExist: bool,
    txnNotFound: bool,
    locked: bool,
    deadlock: bool,
    assertionFailed: bool,
    commitTsExpired: bool,
    commitTsTooLarge: bool,
    retryable: string,
    abort: string,
    debug: string)

  datatype RegionKind =
    | RegionFault | NoCurrentRegions | EntryNotFoundInRegionCache | RegionForKeyNotFound
    | RegionForRangeNotFound | RegionNotFoundInResponse | LeaderNotFound

  datatype TransportKind = Io | Channel | Grpc | GrpcAPI | Url | Canceled

  datatype UnmappedKind =
    | InvalidTransactionType | OperationAfterCommitError | OnePcFailure | NoPrimaryKey
    | ColumnFamilyError | JoinError | MaxScanLimitExceeded | InvalidSemver | KvError
    | InternalFault | ProtocolViolation | StringError | KeyspaceNotFound | NestedRuntimeError

  /** `tikv_client::Error`. Variants that one arm of the table treats alike are grouped. */
  datatype Error =
    | Key(key: KeyError)
    | MultipleKeyErrors(errors: seq<Error>)
    | MultipleRegionErrors(errors: seq<Error>)
    | PessimisticLockError(inner: Error)
    | UndeterminedError(inner: Error)
    | TxnNotFoundError
    | ResolveLockError
    | DuplicateKeyInsertion
    | Region(region: RegionKind)
    | Transport(transport: TransportKind)
    | Unimplemented
    | UnsupportedMode
    | Unmapped(unmapped: UnmappedKind)

  const NO_FIELD := "a kvrpcpb::KeyError with no recognized field: "
  const NO_FACT := "an empty multi-error carries no fact at all"
  const UNIMPLEMENTED := "client-rust returned Error::Unimplemented"
  const UNSUPPORTED_MODE := "client-rust returned Error::UnsupportedMode (raw atomic-mode gating)"

  function VariantName(kind: UnmappedKind): string {
    match kind
    case InvalidTransactionType => "InvalidTransactionType"
    case OperationAfterCommitError => "OperationAfterCommitError"
    case OnePcFailure => "OnePcFailure"
    case NoPrimaryKey => "NoPrimaryKey"
    case ColumnFamilyError => "ColumnFamilyError"
    case JoinError => "JoinError"
    case MaxScanLimitExceeded => "MaxScanLimitExceeded"
    case InvalidSemver => "InvalidSemver"
    case KvError => "KvError"
    case InternalFault => "InternalError"
    case ProtocolViolation => "ProtocolViolation"
    case StringError => "StringError"
    case KeyspaceNotFound => "KeyspaceNotFound"
    case NestedRuntimeError => "NestedRuntimeError"
  }

  function NoArm(kind: UnmappedKind): string {
    "client-rust " + VariantName(kind) + " has no arm in the parity vocabulary"
  }

  /** The first recognised field of a key error decides. */
  function ClassifyKeyError(ke: KeyError): Class {
    if ke.conflict then WriteConflict
    else if ke.alreadyExist then KeyExists
    else if ke.txnNotFound then TxnNotFound
    else if ke.locked then UnresolvedLock
    else if ke.deadlock then Deadlock
    else if ke.assertionFailed then AssertionFailed
    else if ke.commitTsExpired || ke.commitTsTooLarge then CommitTsTooLarge
    else if ke.retryable != "" then Retryable
    else if ke.abort != "" then Aborted
    else Internal(NO_FIELD + ke.debug)
  }

  function Classify(err: Error): Class
    decreases err, 1
  {
    match err
    case Key(ke) => ClassifyKeyError(ke)
    case MultipleKeyErrors(errs) => Collapse(ClassifyAll(err, errs))
    case MultipleRegionErrors(errs) => Collapse(ClassifyAll(err, errs))
    case PessimisticLockError(inner) => Classify(inner)
    case UndeterminedError(_) => Undetermined
    case TxnNotFoundError => TxnNotFound
    case ResolveLockError => UnresolvedLock
    case DuplicateKeyInsertion => KeyExists
    case Region(_) => RegionError
    case Transport(_) => RpcError
    case Unimplemented => Unsupported(UNIMPLEMENTED)
    case UnsupportedMode => Unsupported(UNSUPPORTED_MODE)
    case Unmapped(kind) => Internal(NoArm(kind))
  }

  function ClassifyAll(whole: Error, errs: seq<Error>): (classes: seq<Class>)
    requires forall i :: 0 <= i < |errs| ==> errs[i] < whole
    ensures |classes| == |errs|
    ensures forall i :: 0 <= i < |errs| ==> classes[i] == Classify(errs[i])
    decreases whole, 0, |errs|
  {
    if errs == [] then [] else [Classify(errs[0])] + ClassifyAll(whole, errs[1..])
  }

  /** A set of errors: the one class they agree on, or the mix of them all. */
  function Collapse(parts: seq<Class>): Class {
    if parts == [] then Internal(NO_FACT)
    else if forall i :: 0 <= i < |parts| ==> parts[i] == parts[0] then parts[0]
    else Mixed(parts)
  }

  /** The members a multi-error is classified by. */
  function Members(err: Error): seq<Error> {
    match err
    case MultipleKeyErrors(errs) => errs
    case MultipleRegionErrors(errs) => errs
    case _ => []
  }

  predicate IsMulti(err: Error) {
    err.MultipleKeyErrors? || err.MultipleRegionErrors?
  }

  function ErrorCount(err: Error): Option<nat> {
    match err
    case MultipleKeyErrors(errs) => Some(|errs|)
    case MultipleRegionErrors(errs) => Some(|errs|)
    case PessimisticLockError(inner) => ErrorCount(inner)
    case _ => None
  }

  /** A leaf of the error tree that classification reaches: through multi-errors and the
      pessimistic-lock wrapper, but not into an undetermined error. An empty multi-error is
      itself a leaf. */
  ghost predicate Reaches(err: Error, leaf: Error) {
    match err
    case MultipleKeyErrors(errs) =>
      if errs == [] then leaf == err else exists e :: e in errs && Reaches(e, leaf)
    case MultipleRegionErrors(errs) =>
      if errs == [] then leaf == err else exists e :: e in errs && Reaches(e, leaf)
    case PessimisticLockError(inner) => Reaches(inner, leaf)
    case _ => leaf == err
  }

  /** The leaves that make a run evidence of nothing, by their shape alone: no recognised
      field, no arm in the table, a cluster event, or a set without members. */
  predicate Untrustworthy(leaf: Error) {
    match leaf
    case Key(ke) =>
      && !ke.conflict && !ke.alreadyExist && !ke.txnNotFound && !ke.locked && !ke.deadlock
      && !ke.assertionFailed && !ke.commitTsExpired && !ke.commitTsTooLarge
      && ke.retryable == "" && ke.abort == ""
    case Unmapped(_) => true
    case Region(_) => true
    case MultipleKeyErrors(errs) => errs == []
    case MultipleRegionErrors(errs) => errs == []
    case _ => false
  }

  /** What a collapse keeps: every part occurs in it, and nothing else does. */
  lemma CollapseKeepsParts(parts: seq<Class>, c: Class)
    requires parts != [] && !c.Mixed?
    ensures Occurs(c, Collapse(parts)) <==> exists p :: p in parts && Occurs(c, p)
  {
    if forall i :: 0 <= i < |parts| ==> parts[i] == parts[0] {
      assert parts[0] in parts;
    }
  }

  lemma CollapseAdmissible(parts: seq<Class>)
    requires parts != []
    ensures IsAdmissible(Collapse(parts)) <==> forall p :: p in parts ==> IsAdmissible(p)
  {
    assert parts[0] in parts;
  }

  /** Classification reaches an untrustworthy leaf. */
  ghost predicate ReachesUntrustworthy(err: Error) {
    exists leaf :: Reaches(err, leaf) && Untrustworthy(leaf)
  }

  lemma MembersReach(err: Error)
    requires IsMulti(err) && Members(err) != []
    ensures ReachesUntrustworthy(err) <==> exists e :: e in Members(err) && ReachesUntrustworthy(e)
  {
    if ReachesUntrustworthy(err) {
      var leaf :| Reaches(err, leaf) && Untrustworthy(leaf);
      var e :| e in Members(err) && Reaches(e, leaf);
      assert ReachesUntrustworthy(e);
    }
    if e :| e in Members(err) && ReachesUntrustworthy(e) {
      var leaf :| Reaches(e, leaf) && Untrustworthy(leaf);
      assert Reaches(err, leaf);
    }
  }

  lemma MembersClassified(err: Error, errs: seq<Error>)
    requires IsMulti(err) && Members(err) == errs && errs != []
    requires forall i :: 0 <= i < |errs| ==> errs[i] < err
    ensures IsAdmissible(Classify(err)) <==> forall e :: e in errs ==> IsAdmissible(Classify(e))
  {
    var parts := ClassifyAll(err, errs);
    CollapseAdmissible(parts);
    forall e | e in errs
      ensures Classify(e) in parts
    {
      var i :| 0 <= i < |errs| && errs[i] == e;
      assert parts[i] in parts;
    }
    forall p | p in parts
      ensures exists e :: e in errs && Classify(e) == p
    {
      var i :| 0 <= i < |parts| && parts[i] == p;
      assert errs[i] in errs;
    }
  }

  lemma MultiInadmissible(err: Error, errs: seq<Error>)
    requires IsMulti(err) && Members(err) == errs
    requires forall i :: 0 <= i < |errs| ==> errs[i] < err
    requires forall e :: e in errs ==> (!IsAdmissible(Classify(e)) <==> ReachesUntrustworthy(e))
    ensures !IsAdmissible(Classify(err)) <==> ReachesUntrustworthy(err)
  {
    if errs == [] {
      assert Reaches(err, err) && Untrustworthy(err);
    } else {
      MembersReach(err);
      MembersClassified(err, errs);
    }
  }

  /** No multi-error, however nested, hides a leaf that must not be evidence, and none is
      refused without one: the class is inadmissible exactly when classification reaches an
      untrustworthy leaf. */
  lemma {:induction false} InadmissibleIffLeafReached(err: Error)
    ensures !IsAdmissible(Classify(err)) <==> ReachesUntrustworthy(err)
    decreases err, 1
  {
    match err
    case PessimisticLockError(inner) =>
      InadmissibleIffLeafReached(inner);
      assert forall leaf :: Reaches(err, leaf) <==> Reaches(inner, leaf);
    case MultipleKeyErrors(errs) =>
      MembersInadmissible(err, errs);
      MultiInadmissible(err, errs);
    case MultipleRegionErrors(errs) =>
      MembersInadmissible(err, errs);
      MultiInadmissible(err, errs);
    case _ =>
      assert Reaches(err, err);
  }

  lemma {:induction false} MembersInadmissible(err: Error, errs: seq<Error>)
    requires forall i :: 0 <= i < |errs| ==> errs[i] < err
    ensures forall e :: e in errs ==> (!IsAdmissible(Classify(e)) <==> ReachesUntrustworthy(e))
    decreases err, 0
  {
    forall e | e in errs
      ensures !IsAdmissible(Classify(e)) <==> ReachesUntrustworthy(e)
    {
      var i :| 0 <= i < |errs| && errs[i] == e;
      InadmissibleIffLeafReached(errs[i]);
    }
  }

  /** The members of a multi-error decide what occurs in its class. */
  lemma OccursAmongMembers(err: Error, errs: seq<Error>, c: Class)
    requires IsMulti(err) && Members(err) == errs && errs != [] && !c.Mixed?
    requires forall i :: 0 <= i < |errs| ==> errs[i] < err
    ensures Occurs(c, Classify(err)) <==> exists e :: e in errs && Occurs(c, Classify(e))
  {
    var parts := ClassifyAll(err, errs);
    CollapseKeepsParts(parts, c);
    if e :| e in errs && Occurs(c, Classify(e)) {
      var i :| 0 <= i < |errs| && errs[i] == e;
      assert parts[i] in parts;
    }
    if p :| p in parts && Occurs(c, p) {
      var i :| 0 <= i < |parts| && parts[i] == p;
      assert errs[i] in errs;
    }
  }

  /** Classification reaches a leaf of this class. */
  ghost predicate ReachesClass(err: Error, c: Class) {
    exists leaf :: Reaches(err, leaf) && Classify(leaf) == c
  }

  lemma ReachesClassAmongMembers(err: Error, c: Class)
    requires IsMulti(err) && Members(err) != []
    ensures ReachesClass(err, c) <==> exists e :: e in Members(err) && ReachesClass(e, c)
  {
    if leaf :| Reaches(err, leaf) && Classify(leaf) == c {
      var e :| e in Members(err) && Reaches(e, leaf);
      assert ReachesClass(e, c);
    }
    if e :| e in Members(err) && ReachesClass(e, c) {
      var leaf :| Reaches(e, leaf) && Classify(leaf) == c;
      assert Reaches(err, leaf);
    }
  }

  /** Nothing is lost and nothing is made up on the way through an error tree: a class occurs in
      the result exactly when a leaf of that class is reached. */
  lemma {:induction false} OccursIffLeafReached(err: Error, c: Class)
    requires !c.Mixed?
    ensures Occurs(c, Classify(err)) <==> ReachesClass(err, c)
    decreases err, 1
  {
    match err
    case PessimisticLockError(inner) =>
      OccursIffLeafReached(inner, c);
      assert forall leaf :: Reaches(err, leaf) <==> Reaches(inner, leaf);
    case MultipleKeyErrors(errs) =>
      MembersOccur(err, errs, c);
    case MultipleRegionErrors(errs) =>
      MembersOccur(err, errs, c);
    case _ =>
      assert Reaches(err, err);
  }

  lemma {:induction false} MembersOccur(err: Error, errs: seq<Error>, c: Class)
    requires IsMulti(err) && Members(err) == errs && !c.Mixed?
    requires forall i :: 0 <= i < |errs| ==> errs[i] < err
    ensures Occurs(c, Classify(err)) <==> ReachesClass(err, c)
    decreases err, 0
  {
    if errs == [] {
      assert Reaches(err, err);
    } else {
      forall e | e in errs
        ensures Occurs(c, Classify(e)) <==> ReachesClass(e, c)
      {
        var i :| 0 <= i < |errs| && errs[i] == e;
        OccursIffLeafReached(errs[i], c);
      }
      OccursAmongMembers(err, errs, c);
      ReachesClassAmongMembers(err, c);
    }
  }

  /** A reached error is a leaf: not a wrapper, and not a set that has members. */
  lemma {:induction false} ReachedIsLeaf(err: Error, leaf: Error)
    requires Reaches(err, leaf)
    ensures !leaf.PessimisticLockError? && (IsMulti(leaf) ==> Members(leaf) == [])
  {
    match err
    case PessimisticLockError(inner) => ReachedIsLeaf(inner, leaf);
    case MultipleKeyErrors(errs) =>
      if errs != [] {
        var e :| e in errs && Reaches(e, leaf);
        ReachedIsLeaf(e, leaf);
      }
    case MultipleRegionErrors(errs) =>
      if errs != [] {
        var e :| e in errs && Reaches(e, leaf);
        ReachedIsLeaf(e, leaf);
      }
    case _ =>
  }

  /** No error, however nested, is classified as a success or as an absent key, at the top or
      as a part. */
  lemma NeverOkOrNotFound(err: Error)
    ensures !Occurs(Class.Ok, Classify(err)) && !Occurs(NotFound, Classify(err))
  {
    OccursIffLeafReached(err, Class.Ok);
    OccursIffLeafReached(err, NotFound);
    forall leaf | Reaches(err, leaf)
      ensures Classify(leaf) != Class.Ok && Classify(leaf) != NotFound
    {
      ReachedIsLeaf(err, leaf);
    }
  }

  // ---- Which error trees are retried ----

  ghost predicate ReachesRegion(err: Error) {
    exists leaf :: Reaches(err, leaf) && leaf.Region?
  }

  /** Classification reaches a leaf that is untrustworthy and no cluster event. */
  ghost predicate ReachesOtherFault(err: Error) {
    exists leaf :: Reaches(err, leaf) && Untrustworthy(leaf) && !leaf.Region?
  }

  /** All that is reached is region errors, through sets that have members. */
  predicate OnlyRegions(err: Error) {
    match err
    case Region(_) => true
    case PessimisticLockError(inner) => OnlyRegions(inner)
    case MultipleKeyErrors(errs) => errs != [] && forall e :: e in errs ==> OnlyRegions(e)
    case MultipleRegionErrors(errs) => errs != [] && forall e :: e in errs ==> OnlyRegions(e)
    case _ => false
  }

  lemma CollapseToRegionError(parts: seq<Class>)
    requires parts != []
    ensures Collapse(parts) == RegionError <==> forall p :: p in parts ==> p == RegionError
  {
    assert parts[0] in parts;
    assert forall i :: 0 <= i < |parts| ==> parts[i] in parts;
  }

  /** An error tree becomes a bare region error, which is what a retry looks for, exactly when it
      holds nothing but region errors. */
  lemma {:induction false} BareRegionErrorIff(err: Error)
    ensures Classify(err) == RegionError <==> OnlyRegions(err)
    decreases err, 1
  {
    match err
    case PessimisticLockError(inner) => BareRegionErrorIff(inner);
    case MultipleKeyErrors(errs) => BareRegionErrorAmong(err, errs);
    case MultipleRegionErrors(errs) => BareRegionErrorAmong(err, errs);
    case _ =>
  }

  lemma {:induction false} BareRegionErrorAmong(err: Error, errs: seq<Error>)
    requires IsMulti(err) && Members(err) == errs
    requires forall i :: 0 <= i < |errs| ==> errs[i] < err
    ensures Classify(err) == RegionError <==> OnlyRegions(err)
    decreases err, 0
  {
    if errs != [] {
      var parts := ClassifyAll(err, errs);
      forall i | 0 <= i < |errs|
        ensures parts[i] in parts && errs[i] in errs && (parts[i] == RegionError <==> OnlyRegions(errs[i]))
      {
        BareRegionErrorIff(errs[i]);
      }
      CollapseToRegionError(parts);
    }
  }

  lemma LeafCauses(err: Error, leaf: Error)
    requires Reaches(err, leaf)
    ensures !Classify(leaf).Mixed?
    ensures Classify(leaf) == RegionError <==> leaf.Region?
    ensures Classify(leaf).Internal? || Classify(leaf).DriverError? <==> Untrustworthy(leaf) && !leaf.Region?
  {
    ReachedIsLeaf(err, leaf);
  }

  lemma ClusterCausesAreLeaves(err: Error)
    ensures ClusterCause(Classify(err)) <==> ReachesRegion(err)
  {
    OccursIffLeafReached(err, RegionError);
    forall leaf | Reaches(err, leaf)
      ensures Classify(leaf) == RegionError <==> leaf.Region?
    {
      LeafCauses(err, leaf);
    }
  }

  lemma OtherCausesAreLeaves(err: Error)
    ensures OtherCause(Classify(err)) <==> ReachesOtherFault(err)
  {
    if part :| Occurs(part, Classify(err)) && (part.Internal? || part.DriverError?) {
      OccursIffLeafReached(err, part);
      var leaf :| Reaches(err, leaf) && Classify(leaf) == part;
      LeafCauses(err, leaf);
      assert ReachesOtherFault(err);
    }
    if leaf :| Reaches(err, leaf) && Untrustworthy(leaf) && !leaf.Region? {
      LeafCauses(err, leaf);
      OccursIffLeafReached(err, Classify(leaf));
      assert ReachesClass(err, Classify(leaf));
    }
  }

  // ---- The table, class by class ----

  /** Errors without an arm are told apart by their names. */
  lemma NoArmsDiffer(a: UnmappedKind, b: UnmappedKind)
    ensures NoArm(a) == NoArm(b) <==> a == b
  {
    if NoArm(a) == NoArm(b) {
      var before, after := "client-rust ", " has no arm in the parity vocabulary";
      assert |VariantName(a)| == |NoArm(a)| - |before| - |after| == |VariantName(b)|;
      assert VariantName(a) == NoArm(a)[|before|..|before| + |VariantName(a)|];
      assert VariantName(b) == NoArm(b)[|before|..|before| + |VariantName(b)|];
      NamesDiffer(a, b);
    }
  }

  lemma NamesDiffer(a: UnmappedKind, b: UnmappedKind)
    requires VariantName(a) == VariantName(b)
    ensures a == b
  {
    NameShape(a);
    NameShape(b);
  }

  lemma NameShape(kind: UnmappedKind)
    ensures |VariantName(kind)| > 2 && KindByShape(|VariantName(kind)|, VariantName(kind)[2]) == kind
  {
    assert |"InvalidTransactionType"| == 22 && |"OperationAfterCommitError"| == 25 && |"OnePcFailure"| == 12;
    assert |"NoPrimaryKey"| == 12 && |"ColumnFamilyError"| == 17 && |"JoinError"| == 9 && |"KvError"| == 7;
    assert |"MaxScanLimitExceeded"| == 20 && |"InvalidSemver"| == 13 && |"InternalError"| == 13;
    assert |"ProtocolViolation"| == 17 && |"StringError"| == 11 && |"KeyspaceNotFound"| == 16;
    assert |"NestedRuntimeError"| == 18;
  }

  /** Length and third letter tell the names apart. */
  ghost function KindByShape(length: nat, third: char): UnmappedKind {
    match length
    case 7 => KvError
    case 9 => JoinError
    case 11 => StringError
    case 12 => if third == 'P' then NoPrimaryKey else OnePcFailure
    case 13 => if third == 't' then InternalFault else InvalidSemver
    case 16 => KeyspaceNotFound
    case 17 => if third == 'l' then ColumnFamilyError else ProtocolViolation
    case 18 => NestedRuntimeError
    case 20 => MaxScanLimitExceeded
    case 22 => InvalidTransactionType
    case _ => OperationAfterCommitError
  }

  /** The n-th field that the table asks of a key error is set. */
  predicate IsSet(ke: KeyError, n: nat) {
    match n
    case 0 => ke.conflict
    case 1 => ke.alreadyExist
    case 2 => ke.txnNotFound
    case 3 => ke.locked
    case 4 => ke.deadlock
    case 5 => ke.assertionFailed
    case 6 => ke.commitTsExpired || ke.commitTsTooLarge
    case 7 => ke.retryable != ""
    case 8 => ke.abort != ""
    case _ => false
  }

  /** The leaf is a key error in which that field is the first one set. */
  predicate LeadsWith(leaf: Error, n: nat) {
    leaf.Key? && IsSet(leaf.key, n) && forall m :: 0 <= m < n ==> !IsSet(leaf.key, m)
  }

  /** Which leaves are of a class, read off their shape: the table by its right-hand sides. */
  ghost predicate IsOf(leaf: Error, c: Class) {
    match c
    case WriteConflict => LeadsWith(leaf, 0)
    case KeyExists => LeadsWith(leaf, 1) || leaf.DuplicateKeyInsertion?
    case TxnNotFound => LeadsWith(leaf, 2) || leaf.TxnNotFoundError?
    case UnresolvedLock => LeadsWith(leaf, 3) || leaf.ResolveLockError?
    case Deadlock => LeadsWith(leaf, 4)
    case AssertionFailed => LeadsWith(leaf, 5)
    case CommitTsTooLarge => LeadsWith(leaf, 6)
    case Retryable => LeadsWith(leaf, 7)
    case Aborted => LeadsWith(leaf, 8)
    case Undetermined => leaf.UndeterminedError?
    case RegionError => leaf.Region?
    case RpcError => leaf.Transport?
    case Unsupported(detail) =>
      (leaf.Unimplemented? && detail == UNIMPLEMENTED) || (leaf.UnsupportedMode? && detail == UNSUPPORTED_MODE)
    case Internal(detail) =>
      || (leaf.Key? && (forall n :: 0 <= n <= 8 ==> !IsSet(leaf.key, n)) && detail == NO_FIELD + leaf.key.debug)
      || (leaf.Unmapped? && detail == NoArm(leaf.unmapped))
      || (IsMulti(leaf) && Members(leaf) == [] && detail == NO_FACT)
    case _ => false
  }

  lemma LeafIsOf(leaf: Error, c: Class)
    requires !leaf.PessimisticLockError? && (IsMulti(leaf) ==> Members(leaf) == [])
    ensures Classify(leaf) == c <==> IsOf(leaf, c)
  {
    if leaf.Key? {
      KeyIsOf(leaf.key, c);
    }
  }

  /** The first field set, or 9 if none is. */
  lemma FirstSet(ke: KeyError) returns (n: nat)
    ensures n <= 9 && (n < 9 ==> IsSet(ke, n)) && forall m :: 0 <= m < n ==> !IsSet(ke, m)
  {
    n := 0;
    while n < 9 && !IsSet(ke, n)
      invariant n <= 9 && forall m :: 0 <= m < n ==> !IsSet(ke, m)
    {
      n := n + 1;
    }
  }

  lemma OnlyOneLeads(ke: KeyError, n: nat)
    requires n <= 9 && (n < 9 ==> IsSet(ke, n)) && forall m :: 0 <= m < n ==> !IsSet(ke, m)
    ensures forall m: nat :: LeadsWith(Key(ke), m) <==> m == n && n < 9
  {
  }

  lemma KeyIsOf(ke: KeyError, c: Class)
    ensures ClassifyKeyError(ke) == c <==> IsOf(Key(ke), c)
  {
    var n := FirstSet(ke);
    OnlyOneLeads(ke, n);
    FieldDecides(ke, n);
  }

  lemma FieldDecides(ke: KeyError, n: nat)
    requires n <= 9 && (n < 9 ==> IsSet(ke, n)) && forall m :: 0 <= m < n ==> !IsSet(ke, m)
    ensures ClassifyKeyError(ke) == match n
                                    case 0 => WriteConflict
                                    case 1 => KeyExists
                                    case 2 => TxnNotFound
                                    case 3 => UnresolvedLock
                                    case 4 => Deadlock
                                    case 5 => AssertionFailed
                                    case 6 => CommitTsTooLarge
                                    case 7 => Retryable
                                    case 8 => Aborted
                                    case _ => Internal(NO_FIELD + ke.debug)
  {
    assert n > 0 ==> !IsSet(ke, 0);
    assert n > 1 ==> !IsSet(ke, 1);
    assert n > 2 ==> !IsSet(ke, 2);
    assert n > 3 ==> !IsSet(ke, 3);
    assert n > 4 ==> !IsSet(ke, 4);
    assert n > 5 ==> !IsSet(ke, 5);
    assert n > 6 ==> !IsSet(ke, 6);
    assert n > 7 ==> !IsSet(ke, 7);
    assert n > 8 ==> !IsSet(ke, 8);
  }

  /** A class occurs in that of an error tree exactly when a leaf of its row of the table is reached. */
  lemma EveryClassIsItsLeaves(err: Error, c: Class)
    requires !c.Mixed?
    ensures Occurs(c, Classify(err)) <==> exists leaf :: Reaches(err, leaf) && IsOf(leaf, c)
  {
    OccursIffLeafReached(err, c);
    forall leaf | Reaches(err, leaf)
      ensures Classify(leaf) == c <==> IsOf(leaf, c)
    {
      ReachedIsLeaf(err, leaf);
      LeafIsOf(leaf, c);
    }
  }

  // ---- What the class and the count tell ----

  /** Among sets whose members are classified by one fact each, the class together with the count
      determines how every member was classified. */
  lemma CollapseWithCountIsLossless(a: Error, b: Error)
    requires IsMulti(a) && IsMulti(b)
    requires Members(a) != [] && Members(b) != []
    requires forall e :: e in Members(a) + Members(b) ==> !Classify(e).Mixed?
    requires Classify(a) == Classify(b) && ErrorCount(a) == ErrorCount(b)
    ensures ClassifyAll(a, Members(a)) == ClassifyAll(b, Members(b))
  {
    var pa, pb := ClassifyAll(a, Members(a)), ClassifyAll(b, Members(b));
    assert Members(a)[0] in Members(a) + Members(b) && Members(b)[0] in Members(a) + Members(b);
    assert Collapse(pa) == Collapse(pb);
    assert !pa[0].Mixed? && !pb[0].Mixed?;
  }

  /** The two sets look alike: one class, one count. */
  predicate LookAlike(a: Error, b: Error) {
    && IsMulti(a) && IsMulti(b) && Members(a) != [] && Members(b) != []
    && Classify(a) == Classify(b) && ErrorCount(a) == ErrorCount(b)
  }

  /** The class and the count tell how each member of the set was classified. */
  ghost predicate TellsItsMembers(a: Error)
    requires IsMulti(a)
  {
    forall b :: LookAlike(a, b) ==> ClassifyAll(b, Members(b)) == ClassifyAll(a, Members(a))
  }

  /** A set of `n` copies of one error. */
  function Copies(err: Error, n: nat): (r: seq<Error>)
    ensures |r| == n && forall i :: 0 <= i < n ==> r[i] == err
  {
    seq(n, i => err)
  }

  lemma CopiesCollapse(err: Error, n: nat)
    requires n > 0
    ensures Classify(MultipleKeyErrors(Copies(err, n))) == Classify(err)
    ensures ErrorCount(MultipleKeyErrors(Copies(err, n))) == Some(n)
  {
    var set' := MultipleKeyErrors(Copies(err, n));
    assert Classify(set') == Collapse(ClassifyAll(set', Copies(err, n)));
  }

  /** Every mixed class is that of a set with just these parts, at some depth. */
  lemma {:induction false} MixComesFromASet(err: Error) returns (m: Error)
    requires Classify(err).Mixed?
    ensures IsMulti(m) && Members(m) != [] && Classify(m) == Classify(err)
    ensures ClassifyAll(m, Members(m)) == Classify(err).parts
    decreases err
  {
    if err.PessimisticLockError? {
      m := MixComesFromASet(err.inner);
    } else {
      var parts := ClassifyAll(err, Members(err));
      assert Classify(err) == Collapse(parts);
      if parts == Classify(err).parts {
        m := err;
      } else {
        m := MixComesFromASet(Members(err)[0]);
      }
    }
  }

  lemma CollapseCases(parts: seq<Class>, c: Class)
    requires parts != [] && Collapse(parts) == c
    ensures (forall i :: 0 <= i < |parts| ==> parts[i] == c) || c == Mixed(parts)
  {
  }

  /** If the class is not a mix of just that many parts, then all members were classified alike. */
  lemma UnlessSoManyPartsAllAreAlike(a: Error)
    requires IsMulti(a) && Members(a) != []
    requires Classify(a).Mixed? ==> |Classify(a).parts| != |Members(a)|
    ensures forall i :: 0 <= i < |Members(a)| ==> ClassifyAll(a, Members(a))[i] == Classify(a)
  {
    CollapseCases(ClassifyAll(a, Members(a)), Classify(a));
  }

  /** Otherwise a set of these parts and a set of that many copies of it look alike. */
  lemma SoManyPartsAreAmbiguous(a: Error)
    requires IsMulti(a) && Members(a) != []
    requires Classify(a).Mixed? && |Classify(a).parts| == |Members(a)|
    ensures !TellsItsMembers(a)
  {
    var parts := Classify(a).parts;
    var m := MixComesFromASet(a);
    var n := MultipleKeyErrors(Copies(a, |parts|));
    CopiesCollapse(a, |parts|);
    assert LookAlike(a, m) && LookAlike(a, n);
    assert ClassifyAll(m, Members(m))[0] == parts[0] && parts[0] < Classify(a);
    assert ClassifyAll(n, Members(n))[0] == Classify(a);
  }

  /** Exactly when the class with the count determines how every member of a set was classified:
      unless the class is a mix of just as many parts as there are members. */
  lemma TellsItsMembersIff(a: Error)
    requires IsMulti(a) && Members(a) != []
    ensures TellsItsMembers(a) <==> !(Classify(a).Mixed? && |Classify(a).parts| == |Members(a)|)
  {
    if Classify(a).Mixed? && |Classify(a).parts| == |Members(a)| {
      SoManyPartsAreAmbiguous(a);
    } else {
      UnlessSoManyPartsAllAreAlike(a);
      forall b | LookAlike(a, b)
        ensures ClassifyAll(b, Members(b)) == ClassifyAll(a, Members(a))
      {
        UnlessSoManyPartsAllAreAlike(b);
      }
    }
  }

  /** For one, a set of two different errors looks like a set that holds it twice. */
  lemma SetOfSetsLooksLikeASet(x: Error, y: Error) returns (a: Error, b: Error)
    requires Classify(x) != Classify(y)
    ensures LookAlike(a, b) && Members(b) == [x, y] && Members(a) == [b, b]
    ensures ClassifyAll(a, Members(a)) != ClassifyAll(b, Members(b))
  {
    b := MultipleKeyErrors([x, y]);
    a := MultipleKeyErrors([b, b]);
    var parts := ClassifyAll(b, [x, y]);
    assert Classify(b) == Collapse(parts) && parts[0] != parts[1];
    assert Classify(b) == Mixed(parts) && parts[0] < Classify(b);
    var twice := ClassifyAll(a, [b, b]);
    assert Classify(a) == Collapse(twice) && twice[0] == twice[1] == Classify(b);
  }

  // ---- What the count counts ----

  /** The error inside any number of pessimistic-lock wrappers. */
  function Unwrapped(err: Error): Error {
    if err.PessimisticLockError? then Unwrapped(err.inner) else err
  }

  /** There is a count exactly for sets, wrapped or not, and it is the number of members. */
  lemma {:induction false} SetsAreCounted(err: Error)
    ensures ErrorCount(err).Some? <==> IsMulti(Unwrapped(err))
    ensures ErrorCount(err).Some? ==> ErrorCount(err).value == |Members(Unwrapped(err))|
  {
    if err.PessimisticLockError? {
      SetsAreCounted(err.inner);
    }
  }

  /** The reached leaves, each as often as it is reached. */
  function Leaves(err: Error): (leaves: seq<Error>)
    ensures leaves != []
    decreases err, 1
  {
    match err
    case MultipleKeyErrors(errs) => if errs == [] then [err] else LeavesOfAll(err, errs)
    case MultipleRegionErrors(errs) => if errs == [] then [err] else LeavesOfAll(err, errs)
    case PessimisticLockError(inner) => Leaves(inner)
    case _ => [err]
  }

  function LeavesOfAll(whole: Error, errs: seq<Error>): (leaves: seq<Error>)
    requires forall i :: 0 <= i < |errs| ==> errs[i] < whole
    ensures |leaves| >= |errs|
    decreases whole, 0, |errs|
  {
    if errs == [] then [] else Leaves(errs[0]) + LeavesOfAll(whole, errs[1..])
  }

  lemma {:induction false} LeavesAreReached(err: Error, leaf: Error)
    ensures leaf in Leaves(err) <==> Reaches(err, leaf)
    decreases err, 1
  {
    if IsMulti(err) && Members(err) != [] {
      LeavesOfAllAreReached(err, Members(err), leaf);
    } else if err.PessimisticLockError? {
      LeavesAreReached(err.inner, leaf);
    }
  }

  lemma {:induction false} LeavesOfAllAreReached(whole: Error, errs: seq<Error>, leaf: Error)
    requires forall i :: 0 <= i < |errs| ==> errs[i] < whole
    ensures leaf in LeavesOfAll(whole, errs) <==> exists e :: e in errs && Reaches(e, leaf)
    decreases whole, 0, |errs|
  {
    if errs == [] {
    } else {
      LeavesAreReached(errs[0], leaf);
      LeavesOfAllAreReached(whole, errs[1..], leaf);
      assert errs == [errs[0]] + errs[1..];
    }
  }

  /** One leaf: no set is in between but sets of one, and at the end perhaps an empty set. */
  predicate HoldsOneLeaf(err: Error) {
    match err
    case MultipleKeyErrors(errs) => errs == [] || (|errs| == 1 && HoldsOneLeaf(errs[0]))
    case MultipleRegionErrors(errs) => errs == [] || (|errs| == 1 && HoldsOneLeaf(errs[0]))
    case PessimisticLockError(inner) => HoldsOneLeaf(inner)
    case _ => true
  }

  lemma {:induction false} OneLeafIff(err: Error)
    ensures |Leaves(err)| == 1 <==> HoldsOneLeaf(err)
    decreases err
  {
    if IsMulti(err) && |Members(err)| == 1 {
      var only := Members(err)[0];
      OneLeafIff(only);
      assert Members(err)[1..] == [];
      assert LeavesOfAll(err, Members(err)) == Leaves(only) + LeavesOfAll(err, []);
    } else if err.PessimisticLockError? {
      OneLeafIff(err.inner);
    }
  }

  /** The counted set has members, and each of them is one leaf. */
  predicate IsFlat(err: Error) {
    match err
    case MultipleKeyErrors(errs) => errs != [] && forall e :: e in errs ==> HoldsOneLeaf(e)
    case MultipleRegionErrors(errs) => errs != [] && forall e :: e in errs ==> HoldsOneLeaf(e)
    case PessimisticLockError(inner) => IsFlat(inner)
    case _ => false
  }

  lemma {:induction false} AsManyAsMembersIff(whole: Error, errs: seq<Error>)
    requires forall i :: 0 <= i < |errs| ==> errs[i] < whole
    ensures |LeavesOfAll(whole, errs)| == |errs| <==> forall e :: e in errs ==> HoldsOneLeaf(e)
    decreases |errs|
  {
    if errs == [] {
    } else {
      OneLeafIff(errs[0]);
      AsManyAsMembersIff(whole, errs[1..]);
      assert errs == [errs[0]] + errs[1..];
    }
  }

  /** The count is the number of errors in the tree exactly for flat sets: otherwise it counts
      sets, or the members of an empty set, which is itself one fact. */
  lemma {:induction false} CountIsExactIff(err: Error)
    requires ErrorCount(err).Some?
    ensures ErrorCount(err).value == |Leaves(err)| <==> IsFlat(err)
    decreases err
  {
    if IsMulti(err) {
      AsManyAsMembersIff(err, Members(err));
    } else {
      CountIsExactIff(err.inner);
    }
  }

  /** For one, however many conflicts in a set within a set look like one conflict in a set. */
  lemma ManyCanLookLikeOne(ke: KeyError, n: nat) returns (a: Error, b: Error)
    requires ke.conflict && n > 0
    ensures LookAlike(a, b) && Classify(a) == WriteConflict && ErrorCount(a) == Some(1)
    ensures |Leaves(a)| == n && |Leaves(b)| == 1
  {
    var inner := MultipleKeyErrors(Copies(Key(ke), n));
    a, b := MultipleKeyErrors(Copies(inner, 1)), MultipleKeyErrors(Copies(Key(ke), 1));
    CopiesCollapse(Key(ke), n);
    CopiesCollapse(inner, 1);
    CopiesCollapse(Key(ke), 1);
    CountIsExactIff(inner);
    CountIsExactIff(b);
    assert Members(a)[1..] == [];
    assert Leaves(a) == Leaves(inner) + LeavesOfAll(a, []);
  }

  // ---- The lost-race test of the metadata store ----

  predicate IsLostRace(err: Error) {
    match err
    case Key(ke) => ke.conflict
    case PessimisticLockError(inner) => IsLostRace(inner)
    case MultipleKeyErrors(errs) => exists e :: e in errs && IsLostRace(e)
    case _ => false
  }

  /** A key error that carries a write conflict is reached. */
  ghost predicate ReachesConflict(err: Error) {
    exists leaf :: Reaches(err, leaf) && leaf.Key? && leaf.key.conflict
  }

  /** A write conflict occurs in a class exactly when a key error that carries one is reached. */
  lemma ConflictIsALeaf(err: Error)
    ensures Occurs(WriteConflict, Classify(err)) <==> ReachesConflict(err)
  {
    EveryClassIsItsLeaves(err, WriteConflict);
    assert forall leaf :: IsOf(leaf, WriteConflict) <==> leaf.Key? && leaf.key.conflict;
  }

  /** Such a key error sits inside a region-error set, where the lost-race test does not look.
      The client never builds such a set, but the type allows it. */
  ghost predicate ConflictInRegionSet(err: Error) {
    match err
    case PessimisticLockError(inner) => ConflictInRegionSet(inner)
    case MultipleKeyErrors(errs) => exists e :: e in errs && ConflictInRegionSet(e)
    case MultipleRegionErrors(errs) => exists e :: e in errs && ReachesConflict(e)
    case _ => false
  }

  lemma ReachesConflictAmongMembers(err: Error)
    requires IsMulti(err) && Members(err) != []
    ensures ReachesConflict(err) <==> exists e :: e in Members(err) && ReachesConflict(e)
  {
    if leaf :| Reaches(err, leaf) && leaf.Key? && leaf.key.conflict {
      var e :| e in Members(err) && Reaches(e, leaf);
      assert ReachesConflict(e);
    }
    if e :| e in Members(err) && ReachesConflict(e) {
      var leaf :| Reaches(e, leaf) && leaf.Key? && leaf.key.conflict;
      assert Reaches(err, leaf);
    }
  }

  /** The lost-race test sees every reached conflict but those in region-error sets. */
  lemma {:induction false} LostRaceSeesReachedConflicts(err: Error)
    ensures ReachesConflict(err) <==> IsLostRace(err) || ConflictInRegionSet(err)
  {
    match err
    case PessimisticLockError(inner) =>
      LostRaceSeesReachedConflicts(inner);
      assert forall leaf :: Reaches(err, leaf) <==> Reaches(inner, leaf);
    case MultipleKeyErrors(errs) =>
      if errs != [] {
        forall e | e in errs
          ensures ReachesConflict(e) <==> IsLostRace(e) || ConflictInRegionSet(e)
        {
          LostRaceSeesReachedConflicts(e);
        }
        ReachesConflictAmongMembers(err);
      }
    case MultipleRegionErrors(errs) =>
      if errs != [] {
        ReachesConflictAmongMembers(err);
      }
    case _ =>
      assert Reaches(err, err);
  }

  /** The two judges of a lost race agree up to that shape: a write conflict occurs in the
      class exactly when the store sees a lost race or the conflict is in a region set. */
  lemma LostRaceIsWriteConflict(err: Error)
    ensures Occurs(WriteConflict, Classify(err)) <==> IsLostRace(err) || ConflictInRegionSet(err)
  {
    ConflictIsALeaf(err);
    LostRaceSeesReachedConflicts(err);
  }

  /** Every region-error set reached holds region errors only, as the client builds them. */
  ghost predicate RegionSetsAreRegional(err: Error) {
    match err
    case PessimisticLockError(inner) => RegionSetsAreRegional(inner)
    case MultipleKeyErrors(errs) => forall e :: e in errs ==> RegionSetsAreRegional(e)
    case MultipleRegionErrors(errs) => forall e :: e in errs ==> e.Region?
    case _ => true
  }

  lemma {:induction false} RegionalSetsHideNoConflict(err: Error)
    requires RegionSetsAreRegional(err)
    ensures !ConflictInRegionSet(err)
  {
    match err
    case PessimisticLockError(inner) => RegionalSetsHideNoConflict(inner);
    case MultipleKeyErrors(errs) =>
      forall e | e in errs
        ensures !ConflictInRegionSet(e)
      {
        RegionalSetsHideNoConflict(e);
      }
    case _ =>
  }

  /** For the errors the client builds, the two judges agree. */
  lemma LostRaceAgreesOnClientErrors(err: Error)
    requires RegionSetsAreRegional(err)
    ensures IsLostRace(err) <==> Occurs(WriteConflict, Classify(err))
  {
    LostRaceIsWriteConflict(err);
    RegionalSetsHideNoConflict(err);
  }

  /** The agreement does need that shape: a conflict in a region set is classified as one and
      not seen as a lost race. */
  lemma RegionSetCanHideAConflict()
    returns (err: Error)
    ensures Occurs(WriteConflict, Classify(err)) && !IsLostRace(err)
  {
    var ke := KeyError(true, false, false, false, false, false, false, false, "", "", "");
    err := MultipleRegionErrors([Key(ke)]);
    assert ClassifyAll(err, err.errors) == [WriteConflict];
  }
}
