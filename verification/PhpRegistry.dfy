/** The registry of PHP runtimes. */
module PhpRegistry {
  import opened Text
  import opened Order
  import opened PhpVersions
  import opened HostModel

  datatype RuntimeRecord = RuntimeRecord(
    version: string, binaryPath: string, service: string, source: string, registeredAt: int)

  datatype State = State(defaultVersion: string, runtimes: seq<RuntimeRecord>)
  datatype Input = Input(version: string, binaryPath: string, service: string, source: string)
  datatype Registration = Registered(record: RuntimeRecord) | Unsupported | Unverifiable | StoreFailed
  datatype Lookup = Found(record: RuntimeRecord) | NotFound | Unreadable

  function VersionOf(r: RuntimeRecord): string {
    r.version
  }

  function Find(rs: seq<RuntimeRecord>, version: string): Option<RuntimeRecord> {
    if rs == [] then None else if rs[0].version == version then Some(rs[0]) else Find(rs[1..], version)
  }

  /** The record takes the place of the first one with its version, or comes last. */
  function Upsert(rs: seq<RuntimeRecord>, record: RuntimeRecord): seq<RuntimeRecord> {
    if rs == [] then [record]
    else if rs[0].version == record.version then [record] + rs[1..]
    else [rs[0]] + Upsert(rs[1..], record)
  }

  function Recorded(s: State, record: RuntimeRecord): State {
    State(if s.defaultVersion == "" then record.version else s.defaultVersion,
          SortBy(VersionOf, Upsert(s.runtimes, record)))
  }

  /** The test that registration applies to the version a binary reports. */
  predicate Accepted(version: string) {
    NormalizeVersion(version) in SUPPORTED
  }

  /** Strictly ascending, accepted versions, and a default that is a member once there is one. */
  ghost predicate Consistent(s: State) {
    && StrictlyAscending(VersionOf, s.runtimes)
    && (forall r | r in s.runtimes :: r.version != "" && Accepted(r.version))
    && (s.runtimes == [] ==> s.defaultVersion == "")
    && (s.runtimes != [] ==> Find(s.runtimes, s.defaultVersion).Some?)
  }

  /** Every version is literally one of the supported matrix. */
  ghost predicate InMatrix(s: State) {
    forall r | r in s.runtimes :: r.version in SUPPORTED
  }

  // ---- The specification functions ----

  lemma {:induction false} FindSome(rs: seq<RuntimeRecord>, version: string)
    ensures var r := Find(rs, version);
            && (r.Some? ==> r.value in rs && r.value.version == version)
            && (r.None? ==> forall x | x in rs :: x.version != version)
  {
    if rs != [] {
      FindSome(rs[1..], version);
      assert rs == [rs[0]] + rs[1..];
    }
  }

  lemma {:induction false} FindMember(rs: seq<RuntimeRecord>, r: RuntimeRecord)
    requires DistinctKeys(VersionOf, rs) && r in rs
    ensures Find(rs, r.version) == Some(r)
  {
    FindSome(rs, r.version);
    var i :| 0 <= i < |rs| && rs[i] == r;
    var f := Find(rs, r.version).value;
    var j :| 0 <= j < |rs| && rs[j] == f;
    assert VersionOf(rs[i]) == VersionOf(rs[j]);
  }

  lemma StrictIsDistinct(rs: seq<RuntimeRecord>)
    requires StrictlyAscending(VersionOf, rs)
    ensures DistinctKeys(VersionOf, rs)
  {
    forall i, j | 0 <= i < j < |rs| ensures VersionOf(rs[i]) != VersionOf(rs[j]) {
      LessIrreflexive(VersionOf(rs[i]));
    }
  }

  lemma DistinctCons(r: RuntimeRecord, rest: seq<RuntimeRecord>)
    requires DistinctKeys(VersionOf, rest)
    requires forall x | x in rest :: x.version != r.version
    ensures DistinctKeys(VersionOf, [r] + rest)
  {
    var all := [r] + rest;
    assert forall i | 1 <= i < |all| :: all[i] == rest[i - 1] && all[i] in rest;
  }

  lemma {:induction false} UpsertElements(rs: seq<RuntimeRecord>, record: RuntimeRecord)
    requires DistinctKeys(VersionOf, rs)
    ensures DistinctKeys(VersionOf, Upsert(rs, record))
    ensures forall x :: x in Upsert(rs, record) <==> x == record || (x in rs && x.version != record.version)
  {
    if rs != [] {
      var rest := rs[1..];
      assert rs == [rs[0]] + rest;
      assert forall i | 0 <= i < |rest| :: rest[i] == rs[i + 1] && VersionOf(rest[i]) != VersionOf(rs[0]);
      if rs[0].version == record.version {
        DistinctCons(record, rest);
      } else {
        UpsertElements(rest, record);
        DistinctCons(rs[0], Upsert(rest, record));
      }
    }
  }

  /** Registering a record changes the entry of its version and no other, and keeps the registry
      consistent. */
  lemma RecordedConsistent(s: State, record: RuntimeRecord)
    requires Consistent(s) && record.version != "" && Accepted(record.version)
    ensures Consistent(Recorded(s, record))
    ensures forall v :: Find(Recorded(s, record).runtimes, v) ==
                        if v == record.version then Some(record) else Find(s.runtimes, v)
  {
    hide Accepted, SortBy, Upsert, Find;
    var after := Recorded(s, record).runtimes;
    StrictIsDistinct(s.runtimes);
    UpsertElements(s.runtimes, record);
    SortAscending(VersionOf, Upsert(s.runtimes, record));
    SortMultiset(VersionOf, Upsert(s.runtimes, record));
    StrictIsDistinct(after);
    assert record in after;
    forall v
      ensures Find(after, v) == if v == record.version then Some(record) else Find(s.runtimes, v)
    {
      FindSome(after, v);
      FindSome(s.runtimes, v);
      if v == record.version {
        FindMember(after, record);
      } else if Find(s.runtimes, v).Some? {
        FindMember(after, Find(s.runtimes, v).value);
      }
    }
    if s.runtimes == [] {
      FindMember(after, record);
    }
  }

  /** An accepted version is in the matrix exactly when its text had no second "php" prefix. */
  lemma AcceptedInMatrix(raw: string)
    requires Accepted(NormalizeVersion(raw))
    ensures NormalizeVersion(raw) in SUPPORTED <==> !TwicePrefixed(raw)
  {
    hide NormalizeVersion;
    NormalizeIdempotent(raw);
    if NormalizeVersion(raw) in SUPPORTED {
      SupportedFixed(NormalizeVersion(raw));
    }
  }

  /** What a version probe prints: a version, without a second "php" in front. */
  predicate Prints(output: string) {
    !TwicePrefixed(output)
  }

  lemma LowerLetters(raw: string)
    requires raw in {"phpphp8.2", "php8.2"}
    ensures IsLower(raw)
  {}

  lemma Prefixed(raw: string)
    requires raw in {"phpphp8.2", "php8.2"}
    ensures NormalizeVersion(raw) == raw[3..]
  {
    hide Trim, LowerChar;
    assert IsLower(raw) by { LowerLetters(raw); }
    LowerFixed(raw);
    TrimBare(raw, SPACES);
    TrimBare(raw[3..], SPACES);
  }

  /** A text on which it fails: the version passes the test of registration and is not in the matrix. */
  lemma DoubledPrefix()
    ensures var v := NormalizeVersion("phpphp8.2");
            && v == "php8.2" && Accepted(v) && v !in SUPPORTED && NormalizeVersion(v) == "8.2"
            && TwicePrefixed("phpphp8.2")
  {
    hide Trim, TwicePrefixed;
    Prefixed("phpphp8.2");
    Prefixed("php8.2");
    PrefixSurvives("phpphp8.2");
  }

  datatype Op = Record(record: RuntimeRecord) | Choose(version: string)

  /** A registration that got through, or a change of default. */
  function Applied(s: State, op: Op): State {
    match op
    case Record(record) => Recorded(s, record)
    case Choose(version) =>
      if Find(s.runtimes, NormalizeVersion(version)).Some? then s.(defaultVersion := NormalizeVersion(version)) else s
  }

  lemma RecordedMatrix(s: State, record: RuntimeRecord)
    requires Consistent(s) && record.version != "" && Accepted(record.version)
    ensures Recorded(s, record).runtimes != []
    ensures InMatrix(Recorded(s, record)) <==> InMatrix(s) && record.version in SUPPORTED
  {
    hide Accepted, SortBy, Upsert, Find;
    StrictIsDistinct(s.runtimes);
    UpsertElements(s.runtimes, record);
    SortMultiset(VersionOf, Upsert(s.runtimes, record));
    var after := Recorded(s, record).runtimes;
    assert record in after;
    forall r | r in s.runtimes && r.version != record.version ensures r in after {}
  }

  /** Registering what a probe printed, or choosing a default, keeps the versions in the matrix. */
  lemma OpKeepsMatrix(s: State, op: Op)
    requires Consistent(s) && InMatrix(s)
    requires op.Record? ==>
               exists output :: Prints(output) && op.record.version == NormalizeVersion(output) != ""
                                && Accepted(op.record.version)
    ensures InMatrix(Applied(s, op))
  {
    hide NormalizeVersion, Recorded, Find, Accepted;
    if op.Record? {
      var output :| Prints(output) && op.record.version == NormalizeVersion(output);
      AcceptedInMatrix(output);
      RecordedMatrix(s, op.record);
    }
  }

  /** The version a request asks for: the default when it names none. */
  function ChosenVersion(raw: string, s: State): string {
    if TrimSpace(raw) == "" then s.defaultVersion else NormalizeVersion(raw)
  }

  ghost predicate HasRuntime(s: State, version: string) {
    exists r | r in s.runtimes :: r.version == version
  }

  /** Neither a registration nor a change of default takes a version away. */
  lemma OpKeepsVersions(s: State, op: Op, version: string)
    requires Consistent(s) && HasRuntime(s, version)
    requires op.Record? ==> op.record.version != "" && Accepted(op.record.version)
    ensures HasRuntime(Applied(s, op), version)
  {
    hide Accepted, Find, Recorded, NormalizeVersion;
    if op.Record? {
      RecordedConsistent(s, op.record);
      var r :| r in s.runtimes && r.version == version;
      FindSome(s.runtimes, version);
      FindSome(Recorded(s, op.record).runtimes, version);
    }
  }

  /** No runtime is registered for a version, or none at all when the version is blank. */
  predicate Missing(raw: string, s: State) {
    if TrimSpace(raw) == "" then s.runtimes == [] else Find(s.runtimes, NormalizeVersion(raw)).None?
  }

  // ---- Over whole runs ----

  function AppliedAll(s: State, ops: seq<Op>): State {
    if ops == [] then s else Applied(AppliedAll(s, ops[..|ops| - 1]), ops[|ops| - 1])
  }

  const EMPTY := State("", [])

  /** After any sequence of registrations and default changes, the registry is consistent; once a
      runtime was registered a default exists and is found; and every version is in the matrix exactly
      when every registered version was. */
  lemma {:induction false} RunsAreConsistent(ops: seq<Op>)
    requires forall op | op in ops && op.Record? :: op.record.version != "" && Accepted(op.record.version)
    ensures var s := AppliedAll(EMPTY, ops);
            && Consistent(s)
            && ((exists op | op in ops :: op.Record?) <==> s.runtimes != [])
            && ((forall op | op in ops && op.Record? :: op.record.version in SUPPORTED) <==> InMatrix(s))
  {
    hide Accepted, Find, Recorded, NormalizeVersion;
    if ops != [] {
      var n := |ops| - 1;
      var before := AppliedAll(EMPTY, ops[..n]);
      assert ops == ops[..n] + [ops[n]];
      RunsAreConsistent(ops[..n]);
      assert forall op | op in ops[..n] :: op in ops;
      assert ops[n] in ops;
      if ops[n].Record? {
        RecordedConsistent(before, ops[n].record);
        RecordedMatrix(before, ops[n].record);
      } else {
        FindSome(before.runtimes, NormalizeVersion(ops[n].version));
      }
    }
  }

  // ---- The registry itself ----

  lemma {:induction false} UpsertReplaces(rs: seq<RuntimeRecord>, i: nat, record: RuntimeRecord)
    requires i < |rs| && rs[i].version == record.version
    requires forall j | 0 <= j < i :: rs[j].version != record.version
    ensures Upsert(rs, record) == rs[i := record]
  {
    if i > 0 {
      assert forall j | 0 <= j < i - 1 :: rs[1..][j] == rs[j + 1];
      UpsertReplaces(rs[1..], i - 1, record);
    }
  }

  lemma {:induction false} UpsertAppends(rs: seq<RuntimeRecord>, record: RuntimeRecord)
    requires forall j | 0 <= j < |rs| :: rs[j].version != record.version
    ensures Upsert(rs, record) == rs + [record]
  {
    if rs != [] {
      UpsertAppends(rs[1..], record);
    }
  }

  /** A registration keeps a default that is there, and is the default where there was none. */
  lemma DefaultIsKept(s: State, record: RuntimeRecord)
    ensures Recorded(s, record).defaultVersion == if s.defaultVersion == "" then record.version else s.defaultVersion
  {
    hide SortBy, Upsert;
  }

  /** A runtime is missing when its version has no record, or, for a blank version, when there is none at all. */
  lemma MissingIs(raw: string, s: State)
    ensures Missing(raw, s) <==>
            if TrimSpace(raw) == "" then s.runtimes == [] else !HasRuntime(s, NormalizeVersion(raw))
  {
    hide TrimSpace, NormalizeVersion, Find;
    FindSome(s.runtimes, NormalizeVersion(raw));
  }

  class Registry {
    const host: Host
    var state: State

    constructor (host: Host)
      ensures this.host == host && state == EMPTY
    {
      this.host, state := host, EMPTY;
    }

    /** The replace-or-append loop and the sort, on a copy of the state. */
    method Amended(record: RuntimeRecord) returns (next: State)
      ensures next == Recorded(state, record)
    {
      hide SortBy, Upsert;
      var runtimes := state.runtimes;
      var replaced := false;
      var i := 0;
      while i < |state.runtimes|
        invariant 0 <= i <= |state.runtimes|
        invariant runtimes == state.runtimes && !replaced
        invariant forall j | 0 <= j < i :: runtimes[j].version != record.version
      {
        if runtimes[i].version == record.version {
          UpsertReplaces(runtimes, i, record);
          runtimes := runtimes[i := record];
          replaced := true;
          break;
        }
        i := i + 1;
      }
      if !replaced {
        UpsertAppends(runtimes, record);
        runtimes := runtimes + [record];
      }
      var defaultVersion := state.defaultVersion;
      if defaultVersion == "" {
        defaultVersion := record.version;
      }
      next := State(defaultVersion, SortBy(VersionOf, runtimes));
    }

    /** Registers a runtime whose binary printed `output`; a missing or silent binary counts as a fault
        of the host. */
    method Register(input: Input, output: string, now: int) returns (r: Registration)
      modifies host`trouble, this
      ensures var v := NormalizeVersion(output);
              && (r.Registered? <==>
                    && TrimSpace(input.binaryPath) != "" && v != "" && Accepted(v)
                    && NormalizeVersion(input.version) in {"", v}
                    && host.trouble == old(host.trouble))
              && (r.Registered? ==>
                    && r.record.version == v && r.record.registeredAt == now
                    && r.record.binaryPath == TrimSpace(input.binaryPath) && r.record.source == TrimSpace(input.source)
                    && r.record.service ==
                       (if TrimSpace(input.service) == "" then ServiceNameOf(v) else TrimSpace(input.service))
                    && state == Recorded(old(state), r.record))
              && (r.Unsupported? ==> v != "" && !Accepted(v))
      ensures r.Registered? ==>
                state.defaultVersion == if old(state).defaultVersion == "" then r.record.version
                                        else old(state).defaultVersion
      ensures r.Registered? && old(Consistent(state)) ==>
                forall w :: Find(state.runtimes, w) ==
                            if w == r.record.version then Some(r.record) else Find(old(state).runtimes, w)
      ensures !r.Registered? ==> state == old(state)
      ensures old(Consistent(state)) ==> Consistent(state)
      ensures host.trouble == old(host.trouble) || host.trouble == old(host.Faulty())
    {
      hide NormalizeVersion, TrimSpace, Accepted, Recorded, Consistent, Find;
      var binaryPath := TrimSpace(input.binaryPath);
      if binaryPath == "" {
        return Unverifiable;
      }
      var executable := host.Attempt();
      if !executable {
        return Unverifiable;
      }
      var probed := host.Attempt();
      if !probed {
        return Unverifiable;
      }
      var actual := NormalizeVersion(output);
      if actual == "" {
        return Unverifiable;
      }
      if !Accepted(actual) {
        return Unsupported;
      }
      var requested := NormalizeVersion(input.version);
      if requested != "" && requested != actual {
        return Unverifiable;
      }
      var service := TrimSpace(input.service);
      if service == "" {
        service := ServiceNameOf(actual);
      }
      var loaded := host.Attempt();
      if !loaded {
        return StoreFailed;
      }
      var record := RuntimeRecord(actual, binaryPath, service, TrimSpace(input.source), now);
      var next := Amended(record);
      var saved := host.Attempt();
      if !saved {
        return StoreFailed;
      }
      DefaultIsKept(state, record);
      if Consistent(state) {
        RecordedConsistent(state, record);
      }
      state := next;
      return Registered(record);
    }

    /** The search loop shared by the readers. */
    method Lookup(version: string) returns (r: Lookup)
      ensures r == match Find(state.runtimes, version) case Some(x) => Found(x) case None => NotFound
    {
      var i := 0;
      assert state.runtimes[0..] == state.runtimes;
      while i < |state.runtimes|
        invariant 0 <= i <= |state.runtimes|
        invariant Find(state.runtimes, version) == Find(state.runtimes[i..], version)
      {
        if state.runtimes[i].version == version {
          return Found(state.runtimes[i]);
        }
        assert state.runtimes[i..][1..] == state.runtimes[i + 1..];
        i := i + 1;
      }
      return NotFound;
    }

    method Get(version: string) returns (r: Lookup)
      modifies host`trouble
      ensures r.Unreadable? ==> host.trouble == old(host.Faulty())
      ensures !r.Unreadable? ==> host.trouble == old(host.trouble)
      ensures !r.Unreadable? ==>
                r == match Find(state.runtimes, NormalizeVersion(version))
                     case Some(x) => Found(x)
                     case None => NotFound
    {
      hide NormalizeVersion;
      var loaded := host.Attempt();
      if !loaded {
        return Unreadable;
      }
      r := Lookup(NormalizeVersion(version));
    }

    /** In a consistent registry the default is found as soon as one runtime is registered. */
    method DefaultRuntime() returns (r: Lookup)
      modifies host`trouble
      ensures r.Unreadable? ==> host.trouble == old(host.Faulty())
      ensures !r.Unreadable? ==> host.trouble == old(host.trouble)
      ensures r.Found? ==> Find(state.runtimes, state.defaultVersion) == Some(r.record)
      ensures Consistent(state) && !r.Unreadable? ==> (r.Found? <==> state.runtimes != [])
    {
      hide Accepted;
      var loaded := host.Attempt();
      if !loaded {
        return Unreadable;
      }
      if state.defaultVersion == "" {
        FindSome(state.runtimes, "");
        return NotFound;
      }
      r := Lookup(state.defaultVersion);
    }

    /** The runtime a request names, or the default when it names none. */
    method Resolve(version: string) returns (r: Lookup)
      modifies host`trouble
      ensures r.Unreadable? ==> host.trouble == old(host.Faulty())
      ensures !r.Unreadable? ==> host.trouble == old(host.trouble)
      ensures r.Found? ==> r.record in state.runtimes && r.record.version == ChosenVersion(version, state)
      ensures r.NotFound? && (TrimSpace(version) != "" || Consistent(state)) ==> Missing(version, state)
    {
      hide TrimSpace, NormalizeVersion, Consistent;
      FindSome(state.runtimes, ChosenVersion(version, state));
      if TrimSpace(version) == "" {
        r := DefaultRuntime();
      } else {
        r := Get(version);
      }
    }

    method SetDefault(version: string) returns (r: Lookup)
      modifies host`trouble, this
      ensures r.Found? ==> state == old(Applied(state, Choose(version))) && host.trouble == old(host.trouble)
      ensures r.Found? ==> Find(old(state).runtimes, NormalizeVersion(version)) == Some(r.record)
      ensures r.NotFound? ==>
                Find(old(state).runtimes, NormalizeVersion(version)).None? && host.trouble == old(host.trouble)
      ensures r.Unreadable? ==> host.trouble == old(host.Faulty())
      ensures !r.Found? ==> state == old(state)
      ensures old(Consistent(state)) ==> Consistent(state)
    {
      hide NormalizeVersion, Accepted;
      FindSome(state.runtimes, NormalizeVersion(version));
      r := Get(version);
      if r.Found? {
        var saved := host.Attempt();
        if !saved {
          return Unreadable;
        }
        state := state.(defaultVersion := NormalizeVersion(version));
      }
    }
  }
}
