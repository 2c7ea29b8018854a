/** The commands a scenario sends to a driver, and how a run's prefix enters them. */
module Commands {
  import opened ByteStrings
  import opened Namespacing

  datatype TxnMode = Optimistic | Pessimistic

  datatype Command =
    | Hello
    | OpenClient(name: string)
    | CloseClient(name: string)
    | Begin(session: string, client: string, mode: TxnMode)
    | Put(session: string, key: KeyArg, value: KeyArg)
    | Get(session: string, key: KeyArg)
    | Commit(session: string)
    | Rollback(session: string)
    | SnapshotGet(client: string, key: KeyArg)
    | ScanLocks(client: string, start: KeyArg, end: KeyArg, batchSize: nat)
    | PrewriteOnly(session: string, primary: KeyArg, keys: seq<KeyArg>)
    | Abandon(session: string)
    | OpenRawClient(name: string)
    | RawPut(client: string, key: KeyArg, value: KeyArg)
    | RawChecksum(client: string, start: KeyArg, end: KeyArg)

  /** Every byte-string argument, in any position. */
  function Args(cmd: Command): seq<KeyArg> {
    match cmd
    case Put(_, key, value) => [key, value]
    case RawPut(_, key, value) => [key, value]
    case Get(_, key) => [key]
    case SnapshotGet(_, key) => [key]
    case ScanLocks(_, start, end, _) => [start, end]
    case RawChecksum(_, start, end) => [start, end]
    case PrewriteOnly(_, primary, keys) => [primary] + keys
    case _ => []
  }

  function AsKeys(args: seq<KeyArg>, prefix: Bytes): (keys: seq<KeyArg>)
    ensures |keys| == |args|
    ensures forall i :: 0 <= i < |args| ==> keys[i] == args[i].AsKey(prefix)
  {
    if args == [] then [] else [args[0].AsKey(prefix)] + AsKeys(args[1..], prefix)
  }

  /** Namespaces a command: each argument by its position. */
  function Substituted(cmd: Command, prefix: Bytes): Command {
    match cmd
    case Put(session, key, value) => Put(session, key.AsKey(prefix), value.AsValue(prefix))
    case Get(session, key) => Get(session, key.AsKey(prefix))
    case SnapshotGet(client, key) => SnapshotGet(client, key.AsKey(prefix))
    case ScanLocks(client, start, end, batch) => ScanLocks(client, start.AsKey(prefix), end.AsKey(prefix), batch)
    case PrewriteOnly(session, primary, keys) => PrewriteOnly(session, primary.AsKey(prefix), AsKeys(keys, prefix))
    case RawPut(client, key, value) => RawPut(client, key.AsKey(prefix), value.AsValue(prefix))
    case RawChecksum(client, start, end) => RawChecksum(client, start.AsKey(prefix), end.AsKey(prefix))
    case other => other
  }

  /** Position `i` of the arguments holds a value: the second of a put, and no other. */
  predicate IsValuePosition(cmd: Command, i: nat) {
    (cmd.Put? || cmd.RawPut?) && i == 1
  }

  lemma PrewriteArguments(cmd: Command, p: Bytes, i: nat)
    requires cmd.PrewriteOnly? && i < |Args(cmd)|
    ensures |Args(Substituted(cmd, p))| == |Args(cmd)| && Args(Substituted(cmd, p))[i] == Args(cmd)[i].AsKey(p)
  {
    assert Args(Substituted(cmd, p)) == [cmd.primary.AsKey(p)] + AsKeys(cmd.keys, p);
  }

  lemma ArgumentsByPosition(cmd: Command, p: Bytes, i: nat)
    requires i < |Args(cmd)|
    ensures |Args(Substituted(cmd, p))| == |Args(cmd)|
    ensures Args(Substituted(cmd, p))[i] ==
            if IsValuePosition(cmd, i) then Args(cmd)[i].AsValue(p) else Args(cmd)[i].AsKey(p)
  {
    if cmd.PrewriteOnly? {
      PrewriteArguments(cmd, p, i);
    }
  }

  /** Commands of one variant that agree in every field but the byte-string arguments. */
  predicate SameButArguments(a: Command, b: Command) {
    match a
    case Hello => b.Hello?
    case OpenClient(name) => b.OpenClient? && b.name == name
    case CloseClient(name) => b.CloseClient? && b.name == name
    case Begin(session, client, mode) => b.Begin? && b.session == session && b.client == client && b.mode == mode
    case Put(session, _, _) => b.Put? && b.session == session
    case Get(session, _) => b.Get? && b.session == session
    case Commit(session) => b.Commit? && b.session == session
    case Rollback(session) => b.Rollback? && b.session == session
    case SnapshotGet(client, _) => b.SnapshotGet? && b.client == client
    case ScanLocks(client, _, _, batchSize) => b.ScanLocks? && b.client == client && b.batchSize == batchSize
    case PrewriteOnly(session, _, _) => b.PrewriteOnly? && b.session == session
    case Abandon(session) => b.Abandon? && b.session == session
    case OpenRawClient(name) => b.OpenRawClient? && b.name == name
    case RawPut(client, _, _) => b.RawPut? && b.client == client
    case RawChecksum(client, _, _) => b.RawChecksum? && b.client == client
  }

  /** The arguments and the rest are the whole command: no field is forgotten. */
  lemma ArgumentsAndTheRestAreAll(a: Command, b: Command)
    requires SameButArguments(a, b) && Args(a) == Args(b)
    ensures a == b
  {
    if a.PrewriteOnly? {
      assert Args(a)[0] == a.primary && Args(a)[1..] == a.keys && Args(b)[0] == b.primary && Args(b)[1..] == b.keys;
    } else if |Args(a)| > 0 {
      assert Args(a)[0] == Args(b)[0];
      if |Args(a)| > 1 {
        assert Args(a)[1] == Args(b)[1];
      }
    }
  }

  /** Whatever is not a byte string is sent as it is written, and a command without byte strings is
      sent unchanged. */
  lemma SubstitutionKeepsTheRest(cmd: Command, p: Bytes)
    ensures SameButArguments(cmd, Substituted(cmd, p))
    ensures Args(cmd) == [] ==> Substituted(cmd, p) == cmd
  {
  }

  /** So what is sent is the one command with the rest of this one and these arguments. */
  lemma SubstitutionIsDetermined(cmd: Command, p: Bytes, sent: Command)
    ensures sent == Substituted(cmd, p) <==>
            && SameButArguments(cmd, sent) && |Args(sent)| == |Args(cmd)|
            && forall i :: 0 <= i < |Args(cmd)| ==>
                 Args(sent)[i] == if IsValuePosition(cmd, i) then Args(cmd)[i].AsValue(p) else Args(cmd)[i].AsKey(p)
  {
    var subst := Substituted(cmd, p);
    SubstitutionKeepsTheRest(cmd, p);
    forall i | 0 <= i < |Args(cmd)|
      ensures |Args(subst)| == |Args(cmd)|
      ensures Args(subst)[i] == if IsValuePosition(cmd, i) then Args(cmd)[i].AsValue(p) else Args(cmd)[i].AsKey(p)
    {
      ArgumentsByPosition(cmd, p, i);
    }
    if SameButArguments(cmd, sent) && |Args(sent)| == |Args(cmd)| && Args(sent) == Args(subst) {
      SameRestIsShared(cmd, subst, sent);
      ArgumentsAndTheRestAreAll(subst, sent);
    }
  }

  lemma SameRestIsShared(a: Command, b: Command, c: Command)
    requires SameButArguments(a, b) && SameButArguments(a, c)
    ensures SameButArguments(b, c)
  {
  }

  /** No argument escapes: every one in key position is namespaced as a key, every one in value
      position as a value. In particular, under two prefixes no key argument comes out the same. */
  lemma SubstitutionReachesEveryArgument(cmd: Command, p: Bytes, q: Bytes, i: nat)
    requires i < |Args(cmd)|
    ensures |Args(Substituted(cmd, p))| == |Args(cmd)|
    ensures Args(Substituted(cmd, p))[i] ==
            if IsValuePosition(cmd, i) then Args(cmd)[i].AsValue(p) else Args(cmd)[i].AsKey(p)
    ensures p != q && !IsValuePosition(cmd, i) ==>
              |Args(Substituted(cmd, q))| == |Args(cmd)|
              && Args(Substituted(cmd, p))[i].Raw() != Args(Substituted(cmd, q))[i].Raw()
  {
    ArgumentsByPosition(cmd, p, i);
    ArgumentsByPosition(cmd, q, i);
    if p != q {
      RunsDoNotShareKeys(Args(cmd)[i], p, q);
    }
  }
}
