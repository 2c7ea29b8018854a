/** What the projection keeps of an observation, and what it is blind to. */
module ProjectionFacts {
  import opened Wrappers
  import opened ByteStrings
  import opened Classes
  import opened Observations
  import opened Texts
  import opened Replacing
  import opened Namespacing
  import opened Projection
  import Base64

  /** The default paths of one observation: six always, three depending on what it is. */
  ghost predicate IsDefaultPathOf(path: string, obs: Observation) {
    || path == "class" || path == "value" || path == "locks.count" || path == "locks"
    || path == "commit_ts" || path == "proto.present"
    || (path == "unsupported.detail" && obs.cls.Unsupported?)
    || (path == "class.parts" && obs.cls.Mixed?)
    || (path == "proto.type" && obs.proto.Some?)
  }

  lemma DefaultPathsEmitted(obs: Observation, prefix: Bytes, r: Rendering, path: string)
    ensures path in DefaultFields(obs, prefix, r) <==> IsDefaultPathOf(path, obs)
  {
    assert path in DataFields(obs, prefix, r) <==>
           path in ClassFields(obs.cls) || path == "value" || path == "locks.count" || path == "locks" || path == "commit_ts";
  }

  lemma IsDefaultPathListed(obs: Observation, path: string)
    requires IsDefaultPathOf(path, obs)
    ensures path in DEFAULT_PATHS
  {
    var d := DEFAULT_PATHS;
    assert d[0] == "class" && d[1] == "unsupported.detail" && d[2] == "class.parts" && d[3] == "value";
    assert d[4] == "locks.count" && d[5] == "locks" && d[6] == "commit_ts";
    assert d[7] == "proto.present" && d[8] == "proto.type";
  }

  /** No default path can be named as an opt-in. */
  lemma DefaultPathsAreNotOptIns(path: string)
    requires path in DEFAULT_PATHS
    ensures path !in OPT_IN_PATHS
  {
    var d := DEFAULT_PATHS;
    assert OPT_IN_PATHS[0][0] == 'n' && OPT_IN_PATHS[2][0] == 'e' && |OPT_IN_PATHS[1]| == 5;
    var i :| 0 <= i < |d| && d[i] == path;
    assert |d[3]| == 5 && d[3][0] == 'v';
    assert |d[0]| == 5 && d[0][0] == 'c' && OPT_IN_PATHS[1][0] == 'p';
    assert |d[5]| == 5 && d[5][0] == 'l';
  }

  /** An observation shows its default paths and the paths the claim opted into, nothing else. */
  lemma PathsEmitted(obs: Observation, prefix: Bytes, spec: Spec, r: Rendering, path: string)
    requires spec.Known()
    ensures path in ObsFields(obs, prefix, spec, r) <==>
            IsDefaultPathOf(path, obs) || path in spec.alsoCompare
    ensures path in ObsFields(obs, prefix, spec, r) ==> path in DEFAULT_PATHS + spec.alsoCompare
  {
    DefaultPathsEmitted(obs, prefix, r, path);
    if IsDefaultPathOf(path, obs) {
      IsDefaultPathListed(obs, path);
    }
  }

  /** What a spec opts into never changes what the default paths show. */
  lemma DefaultsIgnoreTheSpec(obs: Observation, prefix: Bytes, spec: Spec, r: Rendering, path: string)
    requires spec.Known() && path in DEFAULT_PATHS
    ensures path in ObsFields(obs, prefix, spec, r) <==> path in DefaultFields(obs, prefix, r)
    ensures path in DefaultFields(obs, prefix, r) ==>
            ObsFields(obs, prefix, spec, r)[path] == DefaultFields(obs, prefix, r)[path]
  {
    DefaultPathsAreNotOptIns(path);
  }

  // ---- Equality of projected observations ----

  function ValueText(obs: Observation, prefix: Bytes, r: Rendering): string {
    if obs.value.Some? then r.Text(obs.value.value.Slice(), prefix) else ABSENT
  }

  function LocksText(obs: Observation, prefix: Bytes, r: Rendering): string {
    Joined(Sorted(LockLines(obs.locks, prefix, r)), " | ")
  }

  ghost predicate ClassesShowTheSame(a: Class, b: Class) {
    && Variant(a) == Variant(b)
    && (a.Unsupported? ==> a.detail == b.detail)
    && (a.Mixed? ==> Joined(Sorted(Tags(a.parts)), ",") == Joined(Sorted(Tags(b.parts)), ","))
  }

  ghost predicate DataShowsTheSame(a: Observation, p: Bytes, b: Observation, q: Bytes, r: Rendering) {
    && ValueText(a, p, r) == ValueText(b, q, r)
    && |a.locks| == |b.locks|
    && LocksText(a, p, r) == LocksText(b, q, r)
    && (a.commitTs.Some? <==> b.commitTs.Some?)
  }

  ghost predicate ProtosShowTheSame(a: Option<Json>, b: Option<Json>) {
    (a.Some? <==> b.Some?) && (a.Some? ==> ProtoType(a.value) == ProtoType(b.value))
  }

  ghost predicate OptInsShowTheSame(a: Observation, b: Observation, spec: Spec, r: Rendering)
    requires spec.Known()
  {
    forall path :: path in spec.alsoCompare ==> OptIn(a, path, r) == OptIn(b, path, r)
  }

  lemma ClassFieldsEqual(a: Class, b: Class)
    ensures ClassFields(a) == ClassFields(b) <==> ClassesShowTheSame(a, b)
  {
    TagsTellVariantsApart(a, b);
    var fa, fb := ClassFields(a), ClassFields(b);
    assert fa["class"] == Tag(a) && fb["class"] == Tag(b);
    if a.Unsupported? && b.Unsupported? {
      assert fa["unsupported.detail"] == a.detail && fb["unsupported.detail"] == b.detail;
    }
    if a.Mixed? && b.Mixed? {
      assert fa["class.parts"] == Joined(Sorted(Tags(a.parts)), ",");
      assert fb["class.parts"] == Joined(Sorted(Tags(b.parts)), ",");
    }
  }

  lemma {:induction false} TagsAreWords(parts: seq<Class>)
    ensures AreWords(Tags(parts), ',')
  {
    if parts == [] {
    } else {
      TagIsAWord(parts[0]);
      TagsAreWords(parts[1..]);
    }
  }

  lemma TagIsAWord(c: Class)
    ensures Tag(c) != "" && ',' !in Tag(c)
  {
  }

  /** A mixed class shows which classes it is a mix of, each as often as it occurs, and no more. */
  lemma MixedShowsItsParts(a: seq<Class>, b: seq<Class>)
    ensures Joined(Sorted(Tags(a)), ",") == Joined(Sorted(Tags(b)), ",") <==> multiset(Tags(a)) == multiset(Tags(b))
  {
    SortedIsASort(Tags(a));
    SortedIsASort(Tags(b));
    SortedTagsAreWords(a);
    SortedTagsAreWords(b);
    JoinedWordsAreInjective(Sorted(Tags(a)), Sorted(Tags(b)), ',');
    if multiset(Tags(a)) == multiset(Tags(b)) {
      SortForgetsOrder(Tags(a), Tags(b));
    }
  }

  lemma SortedTagsAreWords(parts: seq<Class>)
    ensures AreWords(Sorted(Tags(parts)), ',')
  {
    TagsAreWords(parts);
    SortedIsASort(Tags(parts));
    forall i | 0 <= i < |Sorted(Tags(parts))|
      ensures Sorted(Tags(parts))[i] != "" && ',' !in Sorted(Tags(parts))[i]
    {
      assert Sorted(Tags(parts))[i] in multiset(Tags(parts));
    }
  }

  lemma DefaultLookups(obs: Observation, p: Bytes, r: Rendering)
    ensures var f := DefaultFields(obs, p, r);
            && "value" in f && f["value"] == ValueText(obs, p, r)
            && "locks.count" in f && f["locks.count"] == Decimal(|obs.locks|)
            && "locks" in f && f["locks"] == LocksText(obs, p, r)
            && "commit_ts" in f && f["commit_ts"] == (if obs.commitTs.Some? then "<ts>" else ABSENT)
            && "proto.present" in f && f["proto.present"] == (if obs.proto.Some? then "true" else "false")
            && (obs.proto.Some? ==> "proto.type" in f && f["proto.type"] == ProtoType(obs.proto.value))
  {
    var d := DataFields(obs, p, r);
    assert d["value"] == ValueText(obs, p, r) && d["locks.count"] == Decimal(|obs.locks|);
    assert d["locks"] == LocksText(obs, p, r);
  }

  /** The paths that are not about the class are not class paths. */
  lemma ClassPathsAreTheirOwn(path: string)
    requires path == "class" || path == "unsupported.detail" || path == "class.parts"
    ensures path != "value" && path != "locks.count" && path != "locks" && path != "commit_ts"
    ensures path != "proto.present" && path != "proto.type"
  {
    assert path[0] == 'c' || path[0] == 'u';
    assert |"commit_ts"| == 9 && |path| != 9;
  }

  lemma ClassLookups(obs: Observation, p: Bytes, r: Rendering, path: string)
    requires path == "class" || path == "unsupported.detail" || path == "class.parts"
    ensures path in DefaultFields(obs, p, r) <==> path in ClassFields(obs.cls)
    ensures path in ClassFields(obs.cls) ==> DefaultFields(obs, p, r)[path] == ClassFields(obs.cls)[path]
  {
    ClassPathsAreTheirOwn(path);
    OtherPathsDoNotMatter(obs, p, r, path);
  }

  lemma OtherPathsDoNotMatter(obs: Observation, p: Bytes, r: Rendering, path: string)
    requires path != "value" && path != "locks.count" && path != "locks" && path != "commit_ts"
    requires path != "proto.present" && path != "proto.type"
    ensures path in DefaultFields(obs, p, r) <==> path in ClassFields(obs.cls)
    ensures path in ClassFields(obs.cls) ==> DefaultFields(obs, p, r)[path] == ClassFields(obs.cls)[path]
  {
    assert path in DataFields(obs, p, r) <==> path in ClassFields(obs.cls);
  }

  lemma ClassPaths(c: Class, path: string)
    requires path in ClassFields(c)
    ensures path == "class" || path == "unsupported.detail" || path == "class.parts"
  {
  }

  lemma DefaultFieldsEqual(a: Observation, p: Bytes, b: Observation, q: Bytes, r: Rendering)
    ensures DefaultFields(a, p, r) == DefaultFields(b, q, r) <==>
            && ClassesShowTheSame(a.cls, b.cls)
            && DataShowsTheSame(a, p, b, q, r)
            && ProtosShowTheSame(a.proto, b.proto)
  {
    ClassFieldsEqual(a.cls, b.cls);
    if DefaultFields(a, p, r) == DefaultFields(b, q, r) {
      EqualFieldsShowTheSame(a, p, b, q, r);
    }
  }

  lemma EqualFieldsShowTheSame(a: Observation, p: Bytes, b: Observation, q: Bytes, r: Rendering)
    requires DefaultFields(a, p, r) == DefaultFields(b, q, r)
    ensures ClassFields(a.cls) == ClassFields(b.cls)
    ensures DataShowsTheSame(a, p, b, q, r)
    ensures ProtosShowTheSame(a.proto, b.proto)
  {
    DefaultLookups(a, p, r);
    DefaultLookups(b, q, r);
    DecimalIsInjective(|a.locks|, |b.locks|);
    assert |"<ts>"| != |ABSENT| && |"true"| != |"false"|;
    var fa, fb := ClassFields(a.cls), ClassFields(b.cls);
    forall path | path in fa || path in fb
      ensures path in fa && path in fb && fa[path] == fb[path]
    {
      if path in fa {
        ClassPaths(a.cls, path);
      } else {
        ClassPaths(b.cls, path);
      }
      ClassLookups(a, p, r, path);
      ClassLookups(b, q, r, path);
    }
    assert fa == fb;
  }

  lemma EqualObsFieldsHaveEqualDefaults(a: Observation, p: Bytes, b: Observation, q: Bytes, spec: Spec, r: Rendering)
    requires spec.Known() && ObsFields(a, p, spec, r) == ObsFields(b, q, spec, r)
    ensures DefaultFields(a, p, r) == DefaultFields(b, q, r)
  {
    var da, db := DefaultFields(a, p, r), DefaultFields(b, q, r);
    forall path | path in da || path in db
      ensures path in da && path in db && da[path] == db[path]
    {
      DefaultPathsEmitted(a, p, r, path);
      DefaultPathsEmitted(b, q, r, path);
      if path in da { IsDefaultPathListed(a, path); } else { IsDefaultPathListed(b, path); }
      DefaultsIgnoreTheSpec(a, p, spec, r, path);
      DefaultsIgnoreTheSpec(b, q, spec, r, path);
    }
    assert da == db;
  }

  lemma OptInIsShown(obs: Observation, p: Bytes, spec: Spec, r: Rendering, path: string)
    requires spec.Known() && path in spec.alsoCompare
    ensures path in ObsFields(obs, p, spec, r) && ObsFields(obs, p, spec, r)[path] == OptIn(obs, path, r)
  {
  }

  lemma EqualPartsHaveEqualFields(a: Observation, p: Bytes, b: Observation, q: Bytes, spec: Spec, r: Rendering)
    requires spec.Known() && DefaultFields(a, p, r) == DefaultFields(b, q, r) && OptInsShowTheSame(a, b, spec, r)
    ensures ObsFields(a, p, spec, r) == ObsFields(b, q, spec, r)
  {
    var oa := map path | path in spec.alsoCompare :: OptIn(a, path, r);
    var ob := map path | path in spec.alsoCompare :: OptIn(b, path, r);
    assert oa == ob;
  }

  /** Two observations, of runs with any prefixes, are shown alike exactly when they agree on
      each of these facts: no default fact masks another. */
  lemma ObsFieldsEqual(a: Observation, p: Bytes, b: Observation, q: Bytes, spec: Spec, r: Rendering)
    requires spec.Known()
    ensures ObsFields(a, p, spec, r) == ObsFields(b, q, spec, r) <==>
            && ClassesShowTheSame(a.cls, b.cls)
            && DataShowsTheSame(a, p, b, q, r)
            && ProtosShowTheSame(a.proto, b.proto)
            && OptInsShowTheSame(a, b, spec, r)
  {
    DefaultFieldsEqual(a, p, b, q, r);
    if ObsFields(a, p, spec, r) == ObsFields(b, q, spec, r) {
      EqualObsFieldsHaveEqualDefaults(a, p, b, q, spec, r);
      forall path | path in spec.alsoCompare
        ensures OptIn(a, path, r) == OptIn(b, path, r)
      {
        OptInIsShown(a, p, spec, r, path);
        OptInIsShown(b, q, spec, r, path);
      }
    }
    if DefaultFields(a, p, r) == DefaultFields(b, q, r) && OptInsShowTheSame(a, b, spec, r) {
      EqualPartsHaveEqualFields(a, p, b, q, spec, r);
    }
  }

  /** The time in a generated prefix is a number as it is printed. */
  lemma PrintedNumbersAreNumbers(n: nat, b: Bytes)
    requires |b| == |Decimal(n)| && forall i :: 0 <= i < |b| ==> b[i] == Decimal(n)[i] as int
    ensures IsNumber(b)
  {
    DecimalReadsBack(n);
    forall c | c in b
      ensures IsDigit(c)
    {
      var i :| 0 <= i < |b| && b[i] == c;
      assert Decimal(n)[i] in Decimal(n);
    }
  }

  // ---- What an opt-in compares ----

  /** JSON printing tells values apart and never prints the sentinel. */
  ghost predicate PrintsFaithfully(r: Rendering) {
    && (forall a: Json, b: Json :: r.json(a) == r.json(b) ==> a == b)
    && (forall a: Json :: r.json(a) != "<absent>")
  }

  /** The facts that an opt-in is about agree. A native type that reads like the sentinel cannot be
      told from no type. */
  ghost predicate OptedFactsAgree(a: Observation, b: Observation, spec: Spec) {
    && ("errors.count" in spec.alsoCompare ==> a.errorCount == b.errorCount)
    && ("native.type" in spec.alsoCompare ==>
          (if a.native.Some? then a.native.value.typ else "<absent>") == (if b.native.Some? then b.native.value.typ else "<absent>"))
    && ("proto" in spec.alsoCompare ==> a.proto == b.proto)
  }

  lemma {:induction false} DecimalIsDigits(n: nat)
    ensures Decimal(n) != "" && '0' <= Decimal(n)[0] <= '9'
  {
    if n < 10 {
    } else {
      DecimalIsDigits(n / 10);
    }
  }

  lemma ErrorCountIsTold(a: Observation, b: Observation, r: Rendering)
    requires OptIn(a, "errors.count", r) == OptIn(b, "errors.count", r)
    ensures a.errorCount == b.errorCount
  {
    assert "errors.count"[0] == 'e' && "native.type"[0] == 'n' && "proto"[0] == 'p';
    if a.errorCount.Some? {
      DecimalIsDigits(a.errorCount.value);
    }
    if b.errorCount.Some? {
      DecimalIsDigits(b.errorCount.value);
    }
    if a.errorCount.Some? && b.errorCount.Some? {
      DecimalIsInjective(a.errorCount.value, b.errorCount.value);
    }
  }

  lemma NativeTypeIsTold(a: Observation, b: Observation, r: Rendering)
    ensures OptIn(a, "native.type", r) == OptIn(b, "native.type", r) <==>
            (if a.native.Some? then a.native.value.typ else "<absent>") == (if b.native.Some? then b.native.value.typ else "<absent>")
  {
  }

  lemma ProtoIsTold(a: Observation, b: Observation, r: Rendering)
    requires PrintsFaithfully(r)
    ensures OptIn(a, "proto", r) == OptIn(b, "proto", r) <==> a.proto == b.proto
  {
    assert "proto"[0] == 'p' && "native.type"[0] == 'n';
  }

  /** An opt-in is never hollow: observations are shown alike exactly when they agree on the default
      facts and on every fact that the spec names. */
  lemma OptInsAreCompared(a: Observation, p: Bytes, b: Observation, q: Bytes, spec: Spec, r: Rendering)
    requires spec.Known() && PrintsFaithfully(r)
    ensures ObsFields(a, p, spec, r) == ObsFields(b, q, spec, r) <==>
            && ClassesShowTheSame(a.cls, b.cls) && DataShowsTheSame(a, p, b, q, r)
            && ProtosShowTheSame(a.proto, b.proto) && OptedFactsAgree(a, b, spec)
  {
    ObsFieldsEqual(a, p, b, q, spec, r);
    NativeTypeIsTold(a, b, r);
    ProtoIsTold(a, b, r);
    if OptInsShowTheSame(a, b, spec, r) && "errors.count" in spec.alsoCompare {
      ErrorCountIsTold(a, b, r);
    }
    if OptedFactsAgree(a, b, spec) {
      forall path | path in spec.alsoCompare
        ensures OptIn(a, path, r) == OptIn(b, path, r)
      {
        OptInIsOneOfThree(path);
      }
    }
  }

  // ---- What the projection is blind to ----

  /** What is compared of a lock: its redacted keys, its kind, and whether it has a TTL. */
  datatype LockFact = LockFact(key: Bytes, primary: Bytes, kind: string, hasTtl: bool)

  function FactOf(l: LockObs, prefix: Bytes): LockFact {
    LockFact(Redact(l.key.Slice(), prefix), Redact(l.primary.Slice(), prefix), l.kind, l.ttlMs > 0)
  }

  function Facts(locks: seq<LockObs>, prefix: Bytes): (facts: seq<LockFact>)
    ensures |facts| == |locks|
  {
    if locks == [] then [] else [FactOf(locks[0], prefix)] + Facts(locks[1..], prefix)
  }

  function Shown(raw: Bytes, r: Rendering): string {
    match r.utf8(raw)
    case Some(s) => s
    case None => Base64.Encode(raw)
  }

  function FactLine(f: LockFact, r: Rendering): string {
    "key=" + Shown(f.key, r) + " primary=" + Shown(f.primary, r) +
    " kind=" + f.kind + " ttl=" + (if f.hasTtl then "positive" else "zero")
  }

  function FactLines(facts: seq<LockFact>, r: Rendering): (lines: seq<string>)
    ensures |lines| == |facts|
  {
    if facts == [] then [] else [FactLine(facts[0], r)] + FactLines(facts[1..], r)
  }

  lemma LineShowsFact(l: LockObs, prefix: Bytes, r: Rendering)
    ensures LockLine(l, prefix, r) == FactLine(FactOf(l, prefix), r)
  {
  }

  lemma {:induction false} LinesShowFacts(locks: seq<LockObs>, prefix: Bytes, r: Rendering)
    ensures LockLines(locks, prefix, r) == FactLines(Facts(locks, prefix), r)
  {
    if locks == [] {
    } else {
      LineShowsFact(locks[0], prefix, r);
      LinesShowFacts(locks[1..], prefix, r);
    }
  }

  /** The type of a proto is its container and its message; the payload never shows. */
  lemma ProtoTypeIgnoresThePayload(container: string, message: string, payload: Json, other: Json)
    ensures ProtoType(Object([(container, Object([(message, payload)]))])) == container + "." + message
    ensures ProtosShowTheSame(Some(Object([(container, Object([(message, payload)]))])),
                              Some(Object([(container, Object([(message, other)]))])))
  {
  }

  /** What a proto says it is: nothing well formed, an empty object, a container that is its own
      message, or a message in a container. */
  datatype Message = Malformed | Empty | Bare(container: string) | Named(container: string, message: string)

  function MessageOf(p: Json): Message {
    match p
    case Object(members) =>
      if members == [] then Empty
      else
        (match members[0].1
         case Object(inner) => if inner == [] then Bare(members[0].0) else Named(members[0].0, inner[0].0)
         case _ => Bare(members[0].0))
    case _ => Malformed
  }

  lemma ProtoTypeShowsTheMessage(p: Json)
    ensures ProtoType(p) == match MessageOf(p)
                            case Malformed => "<malformed>"
                            case Empty => "<empty>"
                            case Bare(container) => container
                            case Named(container, message) => container + "." + message
  {
  }

  /** Names as protobuf has them: no dot, no angle bracket. */
  predicate IsProtoName(name: string) {
    '.' !in name && '<' !in name
  }

  predicate HasProtoNames(m: Message) {
    match m
    case Bare(container) => IsProtoName(container)
    case Named(container, message) => IsProtoName(container) && IsProtoName(message)
    case _ => true
  }

  /** Types tell messages apart. */
  lemma ProtoTypesTellMessages(a: Json, b: Json)
    requires HasProtoNames(MessageOf(a)) && HasProtoNames(MessageOf(b))
    ensures ProtoType(a) == ProtoType(b) <==> MessageOf(a) == MessageOf(b)
  {
    ProtoTypeShowsTheMessage(a);
    ProtoTypeShowsTheMessage(b);
    if ProtoType(a) == ProtoType(b) {
      SameTypeSameMessage(MessageOf(a), ProtoType(a), MessageOf(b));
    }
  }

  ghost predicate IsShownAs(m: Message, text: string) {
    match m
    case Malformed => text == "<malformed>"
    case Empty => text == "<empty>"
    case Bare(container) => text == container
    case Named(container, message) => text == container + "." + message
  }

  lemma SameTypeSameMessage(a: Message, text: string, b: Message)
    requires HasProtoNames(a) && HasProtoNames(b) && IsShownAs(a, text) && IsShownAs(b, text)
    ensures a == b
  {
    assert a.Malformed? || a.Empty? ==> text[0] == '<' && text[0] in text && '.' !in text;
    assert b.Malformed? || b.Empty? ==> text[0] == '<' && text[0] in text && '.' !in text;
    if a.Named? {
      assert text[|a.container|] == '.';
    }
    if b.Named? {
      assert text[|b.container|] == '.';
    }
    if a.Named? && b.Named? {
      UpToDotIsTheContainer(a.container, a.message);
      UpToDotIsTheContainer(b.container, b.message);
      assert a.message == text[|a.container| + 1..] && b.message == text[|b.container| + 1..];
    }
  }

  function UpToDot(text: string): string {
    if text == "" || text[0] == '.' then "" else [text[0]] + UpToDot(text[1..])
  }

  lemma {:induction false} UpToDotIsTheContainer(container: string, message: string)
    requires '.' !in container
    ensures UpToDot(container + "." + message) == container
  {
    var text := container + "." + message;
    if container == "" {
    } else {
      assert text[1..] == container[1..] + "." + message && container[0] in container;
      UpToDotIsTheContainer(container[1..], message);
    }
  }

  lemma {:induction false} FactLinesOf(facts: seq<LockFact>, i: nat, r: Rendering)
    requires i < |facts|
    ensures multiset(FactLines(facts, r)) ==
            multiset{FactLine(facts[i], r)} + multiset(FactLines(facts[..i] + facts[i + 1..], r))
  {
    var rest := facts[..i] + facts[i + 1..];
    if i == 0 {
      assert rest == facts[1..];
    } else {
      assert rest[0] == facts[0] && rest[1..] == facts[1..][..i - 1] + facts[1..][i..];
      FactLinesOf(facts[1..], i - 1, r);
    }
  }

  lemma {:induction false} FactLinesForgetOrder(s: seq<LockFact>, t: seq<LockFact>, r: Rendering)
    requires multiset(s) == multiset(t)
    ensures multiset(FactLines(s, r)) == multiset(FactLines(t, r))
  {
    if s == [] {
      assert |multiset(t)| == 0;
    } else {
      var i := FindHead(s, t);
      FactLinesForgetOrder(s[1..], t[..i] + t[i + 1..], r);
      FactLinesOf(t, i, r);
    }
  }

  /** The evidence in two observations is the same. Left free: the order of locks and of mixed
      parts, every timestamp, TTLs inside their bucket, checksums, native text, the payload of
      a proto, and everything opt-in that the spec does not name. */
  ghost predicate SameEvidence(a: Observation, p: Bytes, b: Observation, q: Bytes, spec: Spec) {
    && Variant(a.cls) == Variant(b.cls)
    && (a.cls.Unsupported? ==> a.cls.detail == b.cls.detail)
    && (a.cls.Mixed? ==> multiset(Tags(a.cls.parts)) == multiset(Tags(b.cls.parts)))
    && (a.value.Some? <==> b.value.Some?)
    && (a.value.Some? ==> Redact(a.value.value.Slice(), p) == Redact(b.value.value.Slice(), q))
    && multiset(Facts(a.locks, p)) == multiset(Facts(b.locks, q))
    && (a.commitTs.Some? <==> b.commitTs.Some?)
    && ProtosShowTheSame(a.proto, b.proto)
    && ("native.type" in spec.alsoCompare ==>
          (a.native.Some? <==> b.native.Some?) && (a.native.Some? ==> a.native.value.typ == b.native.value.typ))
    && ("proto" in spec.alsoCompare ==> a.proto == b.proto)
    && ("errors.count" in spec.alsoCompare ==> a.errorCount == b.errorCount)
  }

  lemma SameFactsSameLocks(a: seq<LockObs>, p: Bytes, b: seq<LockObs>, q: Bytes, r: Rendering)
    requires multiset(Facts(a, p)) == multiset(Facts(b, q))
    ensures |a| == |b| && Sorted(LockLines(a, p, r)) == Sorted(LockLines(b, q, r))
  {
    assert |a| == |multiset(Facts(a, p))| && |b| == |multiset(Facts(b, q))|;
    LinesShowFacts(a, p, r);
    LinesShowFacts(b, q, r);
    FactLinesForgetOrder(Facts(a, p), Facts(b, q), r);
    SortForgetsOrder(LockLines(a, p, r), LockLines(b, q, r));
  }

  lemma SamePartsShowTheSame(a: Class, b: Class)
    requires Variant(a) == Variant(b) && (a.Unsupported? ==> a.detail == b.detail)
    requires a.Mixed? ==> multiset(Tags(a.parts)) == multiset(Tags(b.parts))
    ensures ClassesShowTheSame(a, b)
  {
    if a.Mixed? {
      SortForgetsOrder(Tags(a.parts), Tags(b.parts));
    }
  }

  lemma SameOptInsShowTheSame(a: Observation, p: Bytes, b: Observation, q: Bytes, spec: Spec, r: Rendering)
    requires spec.Known() && SameEvidence(a, p, b, q, spec)
    ensures OptInsShowTheSame(a, b, spec, r)
  {
    forall path | path in spec.alsoCompare
      ensures OptIn(a, path, r) == OptIn(b, path, r)
    {
      OptInIsOneOfThree(path);
    }
  }

  lemma OptInIsOneOfThree(path: string)
    requires path in OPT_IN_PATHS
    ensures path == "native.type" || path == "proto" || path == "errors.count"
  {
  }

  /** The projection depends on the evidence alone. */
  lemma ProjectionSeesOnlyEvidence(a: Observation, p: Bytes, b: Observation, q: Bytes, spec: Spec, r: Rendering)
    requires spec.Known() && SameEvidence(a, p, b, q, spec)
    ensures ObsFields(a, p, spec, r) == ObsFields(b, q, spec, r)
  {
    SamePartsShowTheSame(a.cls, b.cls);
    SameFactsSameLocks(a.locks, p, b.locks, q, r);
    SameOptInsShowTheSame(a, p, b, q, spec, r);
    assert DataShowsTheSame(a, p, b, q, r);
    ObsFieldsEqual(a, p, b, q, spec, r);
  }

  // ---- Two runs of one scenario ----

  /** One byte string, namespaced under two prefixes: the same literal pieces, none of which
      contains either prefix. */
  ghost predicate SameTemplate(a: Bytes, p: Bytes, b: Bytes, q: Bytes) {
    exists pieces: seq<Bytes> ::
      && pieces != [] && NoPieceContains(pieces, p) && NoPieceContains(pieces, q)
      && a == Join(pieces, p) && b == Join(pieces, q)
  }

  lemma SameTemplateRedactsAlike(a: Bytes, p: Bytes, b: Bytes, q: Bytes)
    requires Admissible(p) && Admissible(q) && SameTemplate(a, p, b, q)
    ensures Redact(a, p) == Redact(b, q)
  {
    var pieces: seq<Bytes> :|
      && pieces != [] && NoPieceContains(pieces, p) && NoPieceContains(pieces, q)
      && a == Join(pieces, p) && b == Join(pieces, q);
    ReplaceUndoesJoin(pieces, p, TOKEN);
    ReplaceUndoesJoin(pieces, q, TOKEN);
    ReplacedIsSubstituted(a, p, TOKEN);
    ReplacedIsSubstituted(b, q, TOKEN);
  }

  ghost predicate SameLock(a: LockObs, p: Bytes, b: LockObs, q: Bytes) {
    && SameTemplate(a.key.Slice(), p, b.key.Slice(), q)
    && SameTemplate(a.primary.Slice(), p, b.primary.Slice(), q)
    && a.kind == b.kind
    && (a.ttlMs > 0 <==> b.ttlMs > 0)
  }

  /** Two observations that differ only by the prefix their run was given, in values, lock keys
      and lock primaries, and by what no comparison may depend on. */
  ghost predicate SameUpToPrefix(a: Observation, p: Bytes, b: Observation, q: Bytes) {
    && a.cls == b.cls
    && (a.value.Some? <==> b.value.Some?)
    && (a.value.Some? ==> SameTemplate(a.value.value.Slice(), p, b.value.value.Slice(), q))
    && |a.locks| == |b.locks|
    && (forall i :: 0 <= i < |a.locks| ==> SameLock(a.locks[i], p, b.locks[i], q))
    && (a.commitTs.Some? <==> b.commitTs.Some?)
    && a.proto == b.proto
    && (a.native.Some? <==> b.native.Some?)
    && (a.native.Some? ==> a.native.value.typ == b.native.value.typ)
    && a.errorCount == b.errorCount
  }

  lemma {:induction false} SameLocksSameFacts(a: seq<LockObs>, p: Bytes, b: seq<LockObs>, q: Bytes)
    requires Admissible(p) && Admissible(q) && |a| == |b|
    requires forall i :: 0 <= i < |a| ==> SameLock(a[i], p, b[i], q)
    ensures Facts(a, p) == Facts(b, q)
  {
    if a == [] {
    } else {
      SameTemplateRedactsAlike(a[0].key.Slice(), p, b[0].key.Slice(), q);
      SameTemplateRedactsAlike(a[0].primary.Slice(), p, b[0].primary.Slice(), q);
      SameLocksSameFacts(a[1..], p, b[1..], q);
    }
  }

  lemma PrefixDoesNotShow(a: Observation, p: Bytes, b: Observation, q: Bytes, spec: Spec, r: Rendering)
    requires spec.Known() && Admissible(p) && Admissible(q) && SameUpToPrefix(a, p, b, q)
    ensures ObsFields(a, p, spec, r) == ObsFields(b, q, spec, r)
  {
    if a.value.Some? {
      SameTemplateRedactsAlike(a.value.value.Slice(), p, b.value.value.Slice(), q);
    }
    SameLocksSameFacts(a.locks, p, b.locks, q);
    ProjectionSeesOnlyEvidence(a, p, b, q, spec, r);
  }

  ghost predicate SameSteps(a: seq<Step>, p: Bytes, b: seq<Step>, q: Bytes) {
    && |a| == |b|
    && forall i :: 0 <= i < |a| ==> a[i].id == b[i].id && SameUpToPrefix(a[i].observation, p, b[i].observation, q)
  }

  /** The same observations under two admissible prefixes project to the same facts. */
  lemma {:induction false} RunsProjectAlike(a: seq<Step>, p: Bytes, b: seq<Step>, q: Bytes, spec: Spec, r: Rendering)
    requires spec.Known() && Admissible(p) && Admissible(q) && SameSteps(a, p, b, q)
    ensures Projected(a, p, spec, r) == Projected(b, q, spec, r)
  {
    if a == [] {
    } else {
      var n := |a| - 1;
      RunsProjectAlike(a[..n], p, b[..n], q, spec, r);
      PrefixDoesNotShow(a[n].observation, p, b[n].observation, q, spec, r);
    }
  }

  /** What a namespaced argument is in two runs has one template. */
  lemma ArgumentsShareATemplate(arg: KeyArg, p: Bytes, q: Bytes)
    requires NoPieceContains(arg.KeyPieces(), p) && NoPieceContains(arg.KeyPieces(), q)
    ensures SameTemplate(arg.AsKey(p).Raw(), p, arg.AsKey(q).Raw(), q)
  {
    KeyIsPiecesJoined(arg, p);
    KeyIsPiecesJoined(arg, q);
  }

  lemma ValuesShareATemplate(arg: KeyArg, p: Bytes, q: Bytes)
    requires NoPieceContains(arg.ValuePieces(), p) && NoPieceContains(arg.ValuePieces(), q)
    ensures SameTemplate(arg.AsValue(p).Raw(), p, arg.AsValue(q).Raw(), q)
  {
    ValueIsPiecesJoined(arg, p);
    ValueIsPiecesJoined(arg, q);
  }
}
