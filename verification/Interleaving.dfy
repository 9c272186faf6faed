/** Requests interleaved at the granularity of the registry lock: each registry operation is one step, and
    the host work between two of them is invisible to the registry. */
module Interleaving {
  import opened Text
  import opened SiteRegistry

  /** Where a request stands between two registry operations. */
  datatype Client =
    | Idle
    | Activating(rec: SiteRecord)
    | RollingBack(id: string)
    | Switching(site: SiteRecord)
    | Updating(next: SiteRecord)
    | Finished

  /** What an activation fixes for good. */
  datatype Identity = Identity(name: string, domain: string, rootPath: string, createdAt: int)

  function IdentityOf(rec: SiteRecord): Identity {
    Identity(rec.name, rec.domain, rec.rootPath, rec.createdAt)
  }

  /** `issued` is the memory of the random ID generator: every ID it gave out, with what it was given for. */
  datatype State = State(sites: seq<SiteRecord>, clients: seq<Client>, issued: map<string, Identity>)

  function With(s: State, c: nat, client: Client): State
    requires c < |s.clients|
  {
    s.(clients := s.clients[c := client])
  }

  // ---- Steps ----

  /** `Register`: the duplicate check and the append happen under one lock. */
  ghost predicate Registers(s: State, t: State, c: nat, rec: SiteRecord) {
    && c < |s.clients| && s.clients[c].Idle?
    && rec.id !in s.issued && Unclaimed(s.sites, {}, rec.name, rec.domain)
    && t == With(s, c, Activating(rec)).(sites := s.sites + [rec], issued := s.issued[rec.id := IdentityOf(rec)])
  }

  /** The last `Update` of an activation; when the record is gone it reports an error. */
  ghost predicate Completes(s: State, t: State, c: nat, now: int) {
    && c < |s.clients| && s.clients[c].Activating?
    && var rec := s.clients[c].rec;
    && t == With(s, c, if Has(s.sites, rec.id) then Finished else RollingBack(rec.id))
            .(sites := Stored(s.sites, rec.(checkedAt := now), now))
  }

  /** A host step or the last `Update` failed: the rollback begins. */
  ghost predicate Fails(s: State, t: State, c: nat) {
    && c < |s.clients| && s.clients[c].Activating?
    && t == With(s, c, RollingBack(s.clients[c].rec.id))
  }

  /** The `Delete` of the rollback, which may fail and is then given up. */
  ghost predicate Deletes(s: State, t: State, c: nat, ok: bool) {
    && c < |s.clients| && s.clients[c].RollingBack?
    && t == With(s, c, Finished).(sites := if ok then Without(s.sites, s.clients[c].id) else s.sites)
  }

  /** The `Get` of a switch copies a record. */
  ghost predicate Copies(s: State, t: State, c: nat, site: SiteRecord) {
    && c < |s.clients| && s.clients[c].Idle?
    && site in s.sites && t == With(s, c, Switching(site))
  }

  /** The `Update` of a switch writes the copy back with another version. */
  ghost predicate Switches(s: State, t: State, c: nat, version: string, now: int) {
    && c < |s.clients| && s.clients[c].Switching?
    && t == With(s, c, Finished).(sites := Stored(s.sites, s.clients[c].site.(phpVersion := version), now))
  }

  /** A request that is refused or given up without touching the registry. */
  ghost predicate Stops(s: State, t: State, c: nat) {
    && c < |s.clients| && (s.clients[c].Idle? || s.clients[c].Switching?)
    && t == With(s, c, Finished)
  }

  ghost predicate Next(s: State, t: State) {
    || (exists c: nat, rec: SiteRecord :: Registers(s, t, c, rec))
    || (exists c: nat, now: int :: Completes(s, t, c, now))
    || (exists c: nat :: Fails(s, t, c))
    || (exists c: nat, ok: bool :: Deletes(s, t, c, ok))
    || (exists c: nat, site: SiteRecord :: Copies(s, t, c, site))
    || (exists c: nat, version: string, now: int :: Switches(s, t, c, version, now))
    || (exists c: nat :: Stops(s, t, c))
  }

  // ---- The invariant ----

  predicate Apart(a: SiteRecord, b: SiteRecord) {
    a.id != b.id && !EqualFold(a.name, b.name) && !EqualFold(a.domain, b.domain)
  }

  /** No two records share an ID, or, ignoring case, a name or a domain. */
  ghost predicate NoDuplicates(sites: seq<SiteRecord>) {
    forall i, j | 0 <= i < j < |sites| :: Apart(sites[i], sites[j])
  }

  /** A record, or a copy of one in flight, is what its ID was issued for. */
  ghost predicate Genuine(s: State, rec: SiteRecord) {
    rec.id in s.issued && s.issued[rec.id] == IdentityOf(rec)
  }

  ghost predicate GenuineClient(s: State, client: Client) {
    match client
    case Activating(rec) => Genuine(s, rec)
    case Switching(site) => Genuine(s, site)
    case _ => true
  }

  ghost predicate Inv(s: State) {
    && NoDuplicates(s.sites)
    && (forall rec | rec in s.sites :: Genuine(s, rec))
    && (forall client | client in s.clients :: GenuineClient(s, client))
  }

  lemma ApartSymmetric(a: SiteRecord, b: SiteRecord)
    ensures Apart(a, b) <==> Apart(b, a)
  {}

  lemma MemberHas(sites: seq<SiteRecord>, j: nat)
    requires j < |sites|
    ensures Has(sites, sites[j].id)
  {}

  /** Writing a genuine copy back changes no ID, name or domain. */
  lemma StoredStaysGenuine(s: State, record: SiteRecord, now: int)
    requires Inv(s) && Genuine(s, record)
    ensures NoDuplicates(Stored(s.sites, record, now))
    ensures forall rec | rec in Stored(s.sites, record, now) :: Genuine(s, rec)
    ensures forall rec | rec in Stored(s.sites, record, now) :: Has(s.sites, rec.id)
  {
    hide EqualFold;
    var i := IndexOf(s.sites, record.id);
    var after := Stored(s.sites, record, now);
    if i < |s.sites| {
      var stored := Stamped(s.sites[i], record, now);
      assert s.sites[i] in s.sites && IdentityOf(stored) == IdentityOf(s.sites[i]);
      forall j, k | 0 <= j < k < |after| ensures Apart(after[j], after[k]) {
        assert Apart(s.sites[j], s.sites[k]);
      }
    }
    forall rec | rec in after ensures Genuine(s, rec) && Has(s.sites, rec.id) {
      var j :| 0 <= j < |after| && after[j] == rec;
      assert s.sites[j] in s.sites && rec.id == s.sites[j].id;
      MemberHas(s.sites, j);
    }
  }

  lemma WithoutStays(sites: seq<SiteRecord>, id: string)
    requires NoDuplicates(sites)
    ensures NoDuplicates(Without(sites, id))
    ensures forall rec | rec in Without(sites, id) :: rec in sites
  {
    hide Apart;
    var i := IndexOf(sites, id);
    var after := Without(sites, id);
    if i < |sites| {
      assert forall j | 0 <= j < |after| :: after[j] == sites[if j < i then j else j + 1];
    }
  }

  lemma AppendStays(sites: seq<SiteRecord>, rec: SiteRecord)
    requires NoDuplicates(sites) && Unclaimed(sites, {}, rec.name, rec.domain)
    requires forall s | s in sites :: s.id != rec.id
    ensures NoDuplicates(sites + [rec])
  {
    hide EqualFold;
    var after := sites + [rec];
    forall j, k | 0 <= j < k < |after| ensures Apart(after[j], after[k]) {
      if k < |sites| {
        assert Apart(sites[j], sites[k]);
      } else {
        assert sites[j] in sites;
      }
    }
  }

  /** What one step does: the invariant holds on, IDs keep what they were issued for, and an ID in the
      registry was there before or is brand new. */
  ghost predicate Safe(s: State, t: State) {
    && Inv(t)
    && (forall id | id in s.issued :: id in t.issued && t.issued[id] == s.issued[id])
    && (forall rec | rec in t.sites :: Has(s.sites, rec.id) || rec.id !in s.issued)
  }

  lemma ClientsKept(s: State, t: State, c: nat, client: Client)
    requires Inv(s) && c < |s.clients| && t.clients == s.clients[c := client]
    requires forall id | id in s.issued :: id in t.issued && t.issued[id] == s.issued[id]
    requires GenuineClient(t, client)
    ensures forall x | x in t.clients :: GenuineClient(t, x)
  {
    forall x | x in t.clients ensures GenuineClient(t, x) {
      var j :| 0 <= j < |t.clients| && t.clients[j] == x;
      if j != c {
        assert x == s.clients[j] && x in s.clients;
      }
    }
  }

  lemma RegistersSafe(s: State, t: State, c: nat, rec: SiteRecord)
    requires Inv(s) && Registers(s, t, c, rec)
    ensures Safe(s, t)
  {
    hide NoDuplicates, Unclaimed;
    AppendStays(s.sites, rec);
    ClientsKept(s, t, c, Activating(rec));
    forall r | r in t.sites ensures Genuine(t, r) && (Has(s.sites, r.id) || r.id !in s.issued) {
      if r in s.sites {
        var j :| 0 <= j < |s.sites| && s.sites[j] == r;
        MemberHas(s.sites, j);
      }
    }
  }

  lemma WritesSafe(s: State, t: State, c: nat, client: Client, record: SiteRecord, now: int)
    requires Inv(s) && c < |s.clients| && Genuine(s, record)
    requires GenuineClient(s, client)
    requires t == With(s, c, client).(sites := Stored(s.sites, record, now))
    ensures Safe(s, t)
  {
    hide NoDuplicates, Stored, Has;
    StoredStaysGenuine(s, record, now);
    ClientsKept(s, t, c, client);
    assert forall r | r in t.sites :: Genuine(s, r) ==> Genuine(t, r);
  }

  lemma KeepsSafe(s: State, t: State, c: nat, client: Client, sites: seq<SiteRecord>)
    requires Inv(s) && c < |s.clients| && GenuineClient(s, client)
    requires NoDuplicates(sites) && forall rec | rec in sites :: rec in s.sites
    requires t == With(s, c, client).(sites := sites)
    ensures Safe(s, t)
  {
    hide NoDuplicates;
    ClientsKept(s, t, c, client);
    forall r | r in t.sites ensures Genuine(t, r) && Has(s.sites, r.id) {
      var j :| 0 <= j < |s.sites| && s.sites[j] == r;
      MemberHas(s.sites, j);
    }
  }

  lemma NextSafe(s: State, t: State)
    requires Inv(s) && Next(s, t)
    ensures Safe(s, t)
  {
    hide NoDuplicates, Safe, Stored, Without, Unclaimed;
    if c: nat, rec: SiteRecord :| Registers(s, t, c, rec) {
      RegistersSafe(s, t, c, rec);
    } else if c: nat, now: int :| Completes(s, t, c, now) {
      var rec := s.clients[c].rec;
      assert s.clients[c] in s.clients;
      WritesSafe(s, t, c, if Has(s.sites, rec.id) then Finished else RollingBack(rec.id), rec.(checkedAt := now), now);
    } else if c: nat :| Fails(s, t, c) {
      KeepsSafe(s, t, c, RollingBack(s.clients[c].rec.id), s.sites);
    } else if c: nat, ok: bool :| Deletes(s, t, c, ok) {
      WithoutStays(s.sites, s.clients[c].id);
      KeepsSafe(s, t, c, Finished, if ok then Without(s.sites, s.clients[c].id) else s.sites);
    } else if c: nat, site: SiteRecord :| Copies(s, t, c, site) {
      KeepsSafe(s, t, c, Switching(site), s.sites);
    } else if c: nat, version: string, now: int :| Switches(s, t, c, version, now) {
      assert s.clients[c] in s.clients;
      WritesSafe(s, t, c, Finished, s.clients[c].site.(phpVersion := version), now);
    } else {
      var c: nat :| Stops(s, t, c);
      KeepsSafe(s, t, c, Finished, s.sites);
    }
  }

  // ---- Main results ----

  ghost predicate IsRun(run: seq<State>) {
    && run != [] && run[0].sites == [] && run[0].issued == map[]
    && (forall client | client in run[0].clients :: client.Idle?)
    && forall i | 0 <= i < |run| - 1 :: Next(run[i], run[i + 1])
  }

  lemma NothingDuplicates()
    ensures NoDuplicates([])
  {}

  /** In every interleaving of any number of activations and switches, no two sites ever share an ID, a name
      or a domain. */
  lemma {:induction false} NeverDuplicates(run: seq<State>)
    requires IsRun(run)
    ensures forall i | 0 <= i < |run| :: Inv(run[i])
    ensures forall i | 0 <= i < |run| :: NoDuplicates(run[i].sites)
  {
    hide Next, NoDuplicates;
    var n := |run| - 1;
    if n == 0 {
      assert NoDuplicates(run[0].sites) by { NothingDuplicates(); }
    } else {
      assert run[..n][0] == run[0];
      forall i | 0 <= i < n - 1 ensures Next(run[..n][i], run[..n][i + 1]) {
        assert Next(run[i], run[i + 1]);
      }
      NeverDuplicates(run[..n]);
      assert run[..n][n - 1] == run[n - 1];
      NextSafe(run[n - 1], run[n]);
      forall i | 0 <= i < |run| ensures Inv(run[i]) {
        if i < n {
          assert run[i] == run[..n][i];
        }
      }
    }
  }

  /** What an ID was issued for is never reissued. */
  lemma {:induction false} IssuedStays(run: seq<State>, i: nat, j: nat)
    requires IsRun(run) && i <= j < |run|
    ensures forall id | id in run[i].issued :: id in run[j].issued && run[j].issued[id] == run[i].issued[id]
    decreases j - i
  {
    hide Next, NoDuplicates;
    if i < j {
      NeverDuplicates(run);
      IssuedStays(run, i, j - 1);
      NextSafe(run[j - 1], run[j]);
    }
  }

  /** Every record of an ID, at any two moments, has the same name, domain, root and creation time. */
  lemma IdentityNeverChanges(run: seq<State>, i: nat, j: nat, a: SiteRecord, b: SiteRecord)
    requires IsRun(run) && i <= j < |run|
    requires a in run[i].sites && b in run[j].sites && a.id == b.id
    ensures IdentityOf(a) == IdentityOf(b)
  {
    hide IsRun, NoDuplicates;
    NeverDuplicates(run);
    IssuedStays(run, i, j);
    assert Genuine(run[i], a) && Genuine(run[j], b);
  }

  lemma OldOrNew(s: State, t: State, id: string)
    requires Safe(s, t) && Has(t.sites, id)
    ensures Has(s.sites, id) || id !in s.issued
  {
    var rec := t.sites[IndexOf(t.sites, id)];
    assert rec in t.sites;
  }

  /** An ID whose record is deleted never comes back: no delayed write resurrects a site. */
  lemma {:induction false} DeletedStaysDeleted(run: seq<State>, i: nat, j: nat, id: string)
    requires IsRun(run) && i <= j < |run|
    requires id in run[i].issued && !Has(run[i].sites, id)
    ensures !Has(run[j].sites, id)
    decreases j - i
  {
    hide Next, NoDuplicates, Safe, Has;
    if i < j {
      DeletedStaysDeleted(run, i, j - 1, id);
      NeverDuplicates(run);
      IssuedStays(run, i, j - 1);
      NextSafe(run[j - 1], run[j]);
      if Has(run[j].sites, id) {
        OldOrNew(run[j - 1], run[j], id);
      }
    }
  }

  // ---- Updates, which check and write under two locks ----

  /** The `List` of an update finds the new name and domain free. */
  ghost predicate ChecksUpdate(s: State, t: State, c: nat, current: SiteRecord, next: SiteRecord) {
    && c < |s.clients| && s.clients[c].Idle?
    && current in s.sites && next.id == current.id
    && Unclaimed(s.sites, {next.id}, next.name, next.domain)
    && t == With(s, c, Updating(next))
  }

  /** Its `Update` writes without checking again. */
  ghost predicate WritesUpdate(s: State, t: State, c: nat, now: int) {
    && c < |s.clients| && s.clients[c].Updating?
    && t == With(s, c, Finished).(sites := Stored(s.sites, s.clients[c].next, now))
  }

  /** The write of an update keeps the registry free of duplicates exactly when name and domain are still
      unclaimed by the other records at that moment. */
  lemma UpdateWriteIsSafe(sites: seq<SiteRecord>, next: SiteRecord, now: int)
    requires NoDuplicates(sites) && Has(sites, next.id)
    ensures NoDuplicates(Stored(sites, next, now)) <==> Unclaimed(sites, {next.id}, next.name, next.domain)
  {
    hide EqualFold;
    var i := IndexOf(sites, next.id);
    var after := Stored(sites, next, now);
    assert forall j | 0 <= j < |sites| && j != i :: after[j] == sites[j];
    if Unclaimed(sites, {next.id}, next.name, next.domain) {
      forall j, k | 0 <= j < k < |after| ensures Apart(after[j], after[k]) {
        assert Apart(sites[j], sites[k]);
        assert sites[j] in sites && sites[k] in sites;
        ApartSymmetric(after[j], after[k]);
        assert j == i ==> Apart(after[k], after[j]);
        assert k == i ==> Apart(after[j], after[k]);
      }
    }
    if NoDuplicates(after) {
      forall s | s in sites && s.id != next.id
        ensures !EqualFold(s.name, next.name) && !EqualFold(s.domain, next.domain)
      {
        var j :| 0 <= j < |sites| && sites[j] == s;
        ApartSymmetric(after[i], after[j]);
        assert j < i ==> Apart(after[j], after[i]);
        assert i < j ==> Apart(after[i], after[j]);
      }
    }
  }

  /** Where two records are, and what storing one of them does. */
  lemma FirstOfTwo(a: SiteRecord, b: SiteRecord)
    requires a.id != b.id
    ensures Has([a, b], a.id) && Has([a, b], b.id)
    ensures forall x: SiteRecord, now | x.id == a.id :: Stored([a, b], x, now) == [Stamped(a, x, now), b]
    ensures forall x: SiteRecord, now | x.id == b.id :: Stored([a, b], x, now) == [a, Stamped(b, x, now)]
  {
    assert [a, b][1..] == [b];
    assert IndexOf([a, b], a.id) == 0 && IndexOf([a, b], b.id) == 1;
  }

  lemma LettersDiffer()
    ensures !EqualFold("a", "b") && !EqualFold("b", "a") && !EqualFold("a.test", "b.test")
    ensures !EqualFold("b.test", "x.test") && !EqualFold("a.test", "x.test")
  {
    assert ToLower("a")[0] == 'a' && ToLower("b")[0] == 'b';
    assert ToLower("a.test")[0] == 'a' && ToLower("b.test")[0] == 'b' && ToLower("x.test")[0] == 'x';
  }

  lemma FoldsToItself(s: string)
    ensures EqualFold(s, s)
  {}

  lemma RegistersIsNext(s: State, c: nat, rec: SiteRecord) returns (t: State)
    requires c < |s.clients| && s.clients[c].Idle?
    requires rec.id !in s.issued && Unclaimed(s.sites, {}, rec.name, rec.domain)
    ensures t == State(s.sites + [rec], s.clients[c := Activating(rec)], s.issued[rec.id := IdentityOf(rec)])
    ensures Next(s, t)
  {
    t := With(s, c, Activating(rec)).(sites := s.sites + [rec], issued := s.issued[rec.id := IdentityOf(rec)]);
    assert Registers(s, t, c, rec);
  }

  lemma CompletesIsNext(s: State, c: nat, now: int) returns (t: State)
    requires c < |s.clients| && s.clients[c].Activating? && Has(s.sites, s.clients[c].rec.id)
    ensures t == State(Stored(s.sites, s.clients[c].rec.(checkedAt := now), now), s.clients[c := Finished], s.issued)
    ensures Next(s, t)
  {
    t := With(s, c, Finished).(sites := Stored(s.sites, s.clients[c].rec.(checkedAt := now), now));
    assert Completes(s, t, c, now);
  }

  lemma OneClaims(a: SiteRecord, b: SiteRecord)
    requires !EqualFold(a.name, b.name) && !EqualFold(a.domain, b.domain)
    ensures Unclaimed([], {}, a.name, a.domain) && Unclaimed([a], {}, b.name, b.domain)
  {
    hide EqualFold;
  }

  /** Two requests that register sites which do not clash, one after the other, while two more wait. */
  lemma TwoActivations(a: SiteRecord, b: SiteRecord) returns (run: seq<State>)
    requires a.id != b.id && !EqualFold(a.name, b.name) && !EqualFold(a.domain, b.domain)
    requires a.checkedAt == a.updatedAt == b.checkedAt == b.updatedAt == 0
    ensures |run| == 5 && IsRun(run)
    ensures run[4].sites == [a, b] && run[4].clients == [Finished, Finished, Idle, Idle]
  {
    hide EqualFold, Next, Has, Stored, Unclaimed, IdentityOf;
    OneClaims(a, b);
    FirstOfTwo(a, b);
    var s0 := State([], [Idle, Idle, Idle, Idle], map[]);
    var s1 := RegistersIsNext(s0, 0, a);
    assert s1.sites == [a] && s1.clients == [Activating(a), Idle, Idle, Idle] && b.id !in s1.issued;
    var s2 := RegistersIsNext(s1, 1, b);
    assert s2.sites == [a, b] && s2.clients == [Activating(a), Activating(b), Idle, Idle];
    var s3 := CompletesIsNext(s2, 0, 0);
    assert s3.sites == [a, b] && s3.clients == [Finished, Activating(b), Idle, Idle];
    var s4 := CompletesIsNext(s3, 1, 0);
    assert s4.sites == [a, b] && s4.clients == [Finished, Finished, Idle, Idle];
    run := [s0, s1, s2, s3, s4];
  }

  /** Two updates that check before either writes give two sites the same domain: from the empty registry, two
      activations run to their end, and two updates interleave. */
  lemma UpdatesRace() returns (run: seq<State>)
    ensures |run| == 9 && IsRun(run[..5]) && Inv(run[4]) && |run[4].sites| == 2
    ensures ChecksUpdate(run[4], run[5], 2, run[4].sites[0], run[4].sites[0].(domain := "x.test"))
    ensures ChecksUpdate(run[5], run[6], 3, run[4].sites[1], run[4].sites[1].(domain := "x.test"))
    ensures WritesUpdate(run[6], run[7], 2, 1) && WritesUpdate(run[7], run[8], 3, 2)
    ensures |run[8].sites| == 2 && run[8].sites[0].domain == run[8].sites[1].domain && !NoDuplicates(run[8].sites)
  {
    hide Inv, EqualFold, IsRun, Stored, Has;
    var a := SiteRecord("site-a", "a", "/a", "a.test", "8.2", 0, 0, 0);
    var b := SiteRecord("site-b", "b", "/b", "b.test", "8.2", 0, 0, 0);
    var x := "x.test";
    LettersDiffer();
    assert a.id[5] == 'a' && b.id[5] == 'b';
    var before := TwoActivations(a, b);
    var s4 := before[4];
    var s5 := With(s4, 2, Updating(a.(domain := x)));
    var s6 := With(s5, 3, Updating(b.(domain := x)));
    var s7 := With(s6, 2, Finished).(sites := Stored(s6.sites, a.(domain := x), 1));
    var s8 := With(s7, 3, Finished).(sites := Stored(s7.sites, b.(domain := x), 2));
    assert s4.sites == [a, b] && s5.sites == [a, b] && s6.sites == [a, b];
    FirstOfTwo(a, b);
    var moved := Stamped(a, a.(domain := x), 1);
    assert s7.sites == [moved, b];
    FirstOfTwo(moved, b);
    assert !Apart(s8.sites[0], s8.sites[1]) by { FoldsToItself(x); }
    run := before + [s5, s6, s7, s8];
    assert run[..5] == before;
    NeverDuplicates(before);
  }

  // ---- Rollbacks spare completed records ----

  predicate Owns(client: Client, id: string) {
    match client
    case Activating(rec) => rec.id == id
    case RollingBack(x) => x == id
    case _ => false
  }

  /** A record is settled once no request that is still running activates it or rolls it back. */
  ghost predicate SettledRecord(s: State, id: string) {
    && Has(s.sites, id) && id in s.issued
    && forall client | client in s.clients :: !Owns(client, id)
  }

  lemma OwnersStay(s: State, t: State, c: nat, client: Client, id: string)
    requires c < |s.clients| && t.clients == s.clients[c := client] && !Owns(client, id)
    requires forall x | x in s.clients :: !Owns(x, id)
    ensures forall x | x in t.clients :: !Owns(x, id)
  {
    hide Owns;
    forall x | x in t.clients ensures !Owns(x, id) {
      var j :| 0 <= j < |t.clients| && t.clients[j] == x;
      if j != c {
        assert x == s.clients[j] && x in s.clients;
      }
    }
  }

  lemma DeleteSparesOthers(sites: seq<SiteRecord>, deleted: string, id: string)
    requires Has(sites, id) && deleted != id
    ensures Has(Without(sites, deleted), id)
  {
    var i, k := IndexOf(sites, deleted), IndexOf(sites, id);
    var after := Without(sites, deleted);
    if i < |sites| {
      var j := if k < i then k else k - 1;
      assert after[j] == sites[k];
    }
  }

  lemma StoreKeepsIds(sites: seq<SiteRecord>, record: SiteRecord, now: int, id: string)
    requires Has(sites, id)
    ensures Has(Stored(sites, record, now), id)
  {
    var k := IndexOf(sites, id);
    assert Stored(sites, record, now)[k].id == id;
  }

  lemma AppendKeepsIds(sites: seq<SiteRecord>, rec: SiteRecord, id: string)
    requires Has(sites, id)
    ensures Has(sites + [rec], id)
  {
    var k := IndexOf(sites, id);
    assert (sites + [rec])[k].id == id;
  }

  lemma OwnsActivating(rec: SiteRecord, id: string)
    ensures Owns(Activating(rec), id) <==> rec.id == id
  {}

  lemma OwnsRolling(x: string, id: string)
    ensures Owns(RollingBack(x), id) <==> x == id
  {}

  lemma OwnsSwitching(site: SiteRecord, id: string)
    ensures !Owns(Switching(site), id)
  {}

  lemma OwnsNothing(id: string)
    ensures !Owns(Finished, id)
  {}

  /** No step of any request takes a settled record away: a rollback deletes its own record only. */
  lemma SettledStays(s: State, t: State, id: string)
    requires Next(s, t) && SettledRecord(s, id)
    ensures SettledRecord(t, id)
  {
    hide Has, Stored, Without, Unclaimed, Owns;
    if c: nat, rec: SiteRecord :| Registers(s, t, c, rec) {
      AppendKeepsIds(s.sites, rec, id);
      assert !Owns(Activating(rec), id) by { OwnsActivating(rec, id); }
      OwnersStay(s, t, c, Activating(rec), id);
    } else if c: nat, now: int :| Completes(s, t, c, now) {
      var rec := s.clients[c].rec;
      assert s.clients[c] in s.clients && rec.id != id by { OwnsActivating(rec, id); }
      StoreKeepsIds(s.sites, rec.(checkedAt := now), now, id);
      OwnsNothing(id);
      OwnsRolling(rec.id, id);
      OwnersStay(s, t, c, if Has(s.sites, rec.id) then Finished else RollingBack(rec.id), id);
    } else if c: nat :| Fails(s, t, c) {
      var rec := s.clients[c].rec;
      assert s.clients[c] in s.clients && rec.id != id by { OwnsActivating(rec, id); }
      OwnsRolling(rec.id, id);
      OwnersStay(s, t, c, RollingBack(rec.id), id);
    } else if c: nat, ok: bool :| Deletes(s, t, c, ok) {
      assert s.clients[c] in s.clients && s.clients[c].id != id by { OwnsRolling(s.clients[c].id, id); }
      DeleteSparesOthers(s.sites, s.clients[c].id, id);
      OwnsNothing(id);
      OwnersStay(s, t, c, Finished, id);
    } else if c: nat, site: SiteRecord :| Copies(s, t, c, site) {
      OwnsSwitching(site, id);
      OwnersStay(s, t, c, Switching(site), id);
    } else if c: nat, version: string, now: int :| Switches(s, t, c, version, now) {
      StoreKeepsIds(s.sites, s.clients[c].site.(phpVersion := version), now, id);
      OwnsNothing(id);
      OwnersStay(s, t, c, Finished, id);
    } else {
      var c: nat :| Stops(s, t, c);
      OwnsNothing(id);
      OwnersStay(s, t, c, Finished, id);
    }
  }

  /** In every interleaving a record that is settled stays registered for good. */
  lemma {:induction false} SettledForGood(run: seq<State>, i: nat, j: nat, id: string)
    requires IsRun(run) && i <= j < |run| && SettledRecord(run[i], id)
    ensures SettledRecord(run[j], id)
    decreases j - i
  {
    hide Next, SettledRecord;
    if i < j {
      SettledForGood(run, i, j - 1, id);
      SettledStays(run[j - 1], run[j], id);
    }
  }

  /** No two requests own one record, and what they own was issued. */
  ghost predicate OwnedOnce(s: State) {
    && (forall client, id: string | client in s.clients && Owns(client, id) :: id in s.issued)
    && forall c, d, id: string | 0 <= c < d < |s.clients| && Owns(s.clients[c], id) :: !Owns(s.clients[d], id)
  }

  lemma OwnerChanges(s: State, t: State, c: nat, client: Client)
    requires OwnedOnce(s) && c < |s.clients| && t.clients == s.clients[c := client]
    requires forall id: string | Owns(client, id) :: id in t.issued && (Owns(s.clients[c], id) || id !in s.issued)
    requires forall id | id in s.issued :: id in t.issued
    ensures OwnedOnce(t)
  {
    hide Owns;
    forall x, id: string | x in t.clients && Owns(x, id) ensures id in t.issued {
      var k :| 0 <= k < |t.clients| && t.clients[k] == x;
      if k != c {
        assert s.clients[k] in s.clients;
      }
    }
    forall k, d, id: string | 0 <= k < d < |t.clients| && Owns(t.clients[k], id) ensures !Owns(t.clients[d], id) {
      assert s.clients[k] in s.clients && s.clients[d] in s.clients && s.clients[c] in s.clients;
      assert Owns(s.clients[k], id) ==> id in s.issued;
      assert Owns(s.clients[d], id) ==> id in s.issued;
    }
  }

  lemma IssuedIsOwned(s: State, c: nat)
    requires OwnedOnce(s) && c < |s.clients| && s.clients[c].Activating?
    ensures s.clients[c].rec.id in s.issued
  {
    assert s.clients[c] in s.clients && Owns(s.clients[c], s.clients[c].rec.id);
  }

  lemma NextOwnedOnce(s: State, t: State)
    requires OwnedOnce(s) && Next(s, t)
    ensures OwnedOnce(t)
  {
    hide OwnedOnce, Has, Stored, Without, Unclaimed, IdentityOf;
    if c: nat, rec: SiteRecord :| Registers(s, t, c, rec) {
      OwnerChanges(s, t, c, Activating(rec));
    } else if c: nat, now: int :| Completes(s, t, c, now) {
      IssuedIsOwned(s, c);
      OwnerChanges(s, t, c, if Has(s.sites, s.clients[c].rec.id) then Finished else RollingBack(s.clients[c].rec.id));
    } else if c: nat :| Fails(s, t, c) {
      IssuedIsOwned(s, c);
      OwnerChanges(s, t, c, RollingBack(s.clients[c].rec.id));
    } else if c: nat, ok: bool :| Deletes(s, t, c, ok) {
      OwnerChanges(s, t, c, Finished);
    } else if c: nat, site: SiteRecord :| Copies(s, t, c, site) {
      OwnerChanges(s, t, c, Switching(site));
    } else if c: nat, version: string, now: int :| Switches(s, t, c, version, now) {
      OwnerChanges(s, t, c, Finished);
    } else {
      var c: nat :| Stops(s, t, c);
      OwnerChanges(s, t, c, Finished);
    }
  }

  lemma {:induction false} AlwaysOwnedOnce(run: seq<State>, i: nat)
    requires IsRun(run) && i < |run|
    ensures OwnedOnce(run[i])
    decreases i
  {
    hide Next;
    if i > 0 {
      AlwaysOwnedOnce(run, i - 1);
      NextOwnedOnce(run[i - 1], run[i]);
    } else {
      assert forall client | client in run[0].clients :: client.Idle?;
      assert forall d | 0 <= d < |run[0].clients| :: run[0].clients[d] in run[0].clients;
    }
  }

  /** An activation that completes leaves its record settled. */
  lemma CompletedIsSettled(s: State, t: State, c: nat, now: int)
    requires OwnedOnce(s) && Completes(s, t, c, now) && t.clients[c].Finished?
    ensures SettledRecord(t, s.clients[c].rec.id)
  {
    hide Stored, Has;
    var id := s.clients[c].rec.id;
    IssuedIsOwned(s, c);
    StoreKeepsIds(s.sites, s.clients[c].rec.(checkedAt := now), now, id);
    assert Owns(s.clients[c], id);
    forall x | x in t.clients ensures !Owns(x, id) {
      var d :| 0 <= d < |t.clients| && t.clients[d] == x;
      if d != c {
        assert x == s.clients[d];
      }
    }
  }

  lemma CompletesOwn(s: State, t: State, c: nat, now: int)
    requires Completes(s, t, c, now)
    ensures c < |s.clients| && s.clients[c].Activating?
  {}

  /** In every interleaving the record of a completed activation stays registered for good: no other request's
      rollback takes it away. */
  lemma CompletedForGood(run: seq<State>, i: nat, j: nat, c: nat, now: int)
    requires IsRun(run) && i + 1 <= j < |run|
    requires Completes(run[i], run[i + 1], c, now) && run[i + 1].clients[c].Finished?
    ensures Has(run[j].sites, run[i].clients[c].rec.id)
  {
    hide IsRun, Next, OwnedOnce, Completes;
    AlwaysOwnedOnce(run, i);
    CompletesOwn(run[i], run[i + 1], c, now);
    CompletedIsSettled(run[i], run[i + 1], c, now);
    SettledForGood(run, i + 1, j, run[i].clients[c].rec.id);
  }
}
