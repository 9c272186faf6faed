/** The activation saga: register a site, provision the host step by step, and undo everything on failure. */
module Activation {
  import opened Text
  import opened Order
  import opened Tokens
  import opened SiteNames
  import opened ResolverStub
  import opened PhpVersions
  import opened HostModel
  import opened SiteRegistry
  import opened Worlds
  import opened Serving
  import Services
  import Caddy
  import Fpm
  import Resolved
  import PhpRegistry

  /** Everything a complete provisioning runs, in order. */
  function Script(version: string, service: string): seq<Call>
    requires version in SUPPORTED
  {
    Resolved.RELOADED + Fpm.Applied(RuntimeFor(version, service)) +
    Services.Starts(Services.ToStart(["caddy", service])) + Caddy.APPLIED
  }

  lemma RespectsIsStubOnly(a: Files, b: Files)
    requires Resolved.Respects(a, b, STUB)
    ensures Untouched(a, b) && ForeignPart(b) == ForeignPart(a)
  {
    hide Get, IsManaged;
    StubOnly(a, b);
    ForeignPartKept(a, b);
  }

  /** Where the resolver's files are the same, so is the stub. */
  lemma StubFollows(a: Files, b: Files)
    requires ResolverPart(b) == ResolverPart(a)
    ensures (StubReady(b) <==> StubReady(a)) && ForeignPart(b) == ForeignPart(a)
  {
    hide RenderStub, ResolverPart, ForeignPart;
    ResolverPartHolds(a, b);
  }

  /** An ensuring that failed: the stub is as before, unless only the closing inspection failed. */
  ghost predicate Stalled(a: Files, b: Files, before: seq<Call>, after: seq<Call>) {
    if after == before + Resolved.RELOADED then StubReady(b)
    else !(before + Resolved.RELOADED <= after) && Get(b, STUB) == Get(a, STUB)
  }

  /** What a refused first activation leaves in the stub's place, told by its commands. When only the closing
      inspection of the ensuring failed, they are one complete reload, and the rendered stub stays. When a
      later step failed, more follows, and there is no stub. Otherwise the stub is as before. */
  ghost predicate StubAfter(a: Files, b: Files, before: seq<Call>, after: seq<Call>) {
    if after == before + Resolved.RELOADED then StubReady(b)
    else if before + Resolved.RELOADED <= after then Get(b, STUB).None?
    else Get(b, STUB) == Get(a, STUB)
  }

  lemma StubSettled(a: Files, b: Files, c: Files, before: seq<Call>, mid: seq<Call>, after: seq<Call>, committed: bool)
    requires if committed then before + Resolved.RELOADED <= mid < after && Get(c, STUB).None?
             else c == b && after == mid && Stalled(a, b, before, mid)
    ensures StubAfter(a, c, before, after)
  {
    hide Get, StubReady;
  }

  lemma NoCommandNoChange(f: Files, calls: seq<Call>)
    ensures StubAfter(f, f, calls, calls)
  {
    hide Get, StubReady;
    assert |calls + Resolved.RELOADED| > |calls|;
  }

  lemma PutStub(f: Files)
    ensures StubReady(Put(f, STUB, Some(RenderStub(SPEC))))
  {
    hide RenderStub;
  }

  /** The rendered stub is no foreign one, so removing takes it away. */
  lemma ReadyIsOurs(f: Files)
    ensures StubReady(f) ==> !Resolved.ForeignStub(f, STUB) && Get(f, STUB).Some?
    ensures Get(Put(f, STUB, None), STUB).None?
  {
    hide RenderStub, IsManaged;
    StubIsManaged(SPEC);
  }

  // ---- The service ----

  /** How far a provisioning got: what the deferred rollback reads. */
  datatype Progress = Progress(ok: bool, committedResolver: bool, committedWeb: bool)

  lemma RefusalIgnoresVersion(sites: seq<SiteRecord>, input: SiteInput, version: string)
    ensures RefusalOf(sites, input.(phpVersion := version)) == RefusalOf(sites, input)
  {
    hide TrimSpace, DeriveSiteName, NormalizeDomain;
  }

  /** What registration accepts is canonical and unclaimed. */
  lemma NewRecordIsCanonical(sites: seq<SiteRecord>, input: SiteInput, id: string, now: int)
    requires IsRecordId(id) && input.phpVersion in SUPPORTED
    requires RefusalOf(sites, input).None?
    ensures var rec := NewRecord(input, id, now);
            && Canonical(rec) && Unclaimed(sites, {}, rec.name, rec.domain)
            && rec.id == id && rec.phpVersion == input.phpVersion && rec.createdAt == now
            && rec.rootPath == RootOf(input)
            && NormalizeDomain(input.domain, rec.name) == Domain(rec.domain)
  {
    hide IsRecordId, TrimSpace, DeriveSiteName, NormalizeDomain, NormalizeVersion, IsTestDomain, Candidate;
    var name := DeriveSiteName(RootOf(input));
    DomainAccepted(input.domain, name);
    NoClash(sites, {}, name, NormalizeDomain(input.domain, name).value);
    SupportedFixed(input.phpVersion);
  }

  lemma StampsAreFree(rec: SiteRecord, next: SiteRecord)
    requires Canonical(rec)
    requires next == rec.(updatedAt := next.updatedAt, checkedAt := next.checkedAt)
    ensures Canonical(next)
  {
    hide IsRecordId, DeriveSiteName, IsTestDomain;
  }

  lemma RestampedIsWellFormed(sites: seq<SiteRecord>, rec: SiteRecord, next: SiteRecord)
    requires next == rec.(updatedAt := next.updatedAt, checkedAt := next.checkedAt)
    ensures WellFormed(sites + [rec]) ==> WellFormed(sites + [next])
  {
    hide Canonical;
    if WellFormed(sites + [rec]) {
      var a, b := sites + [rec], sites + [next];
      assert a[|sites|] == rec;
      assert rec == a[|sites|] && rec in a;
      StampsAreFree(rec, next);
      assert forall s | s in sites :: s in a;
      forall i, j | 0 <= i < j < |b|
        ensures b[i].id != b[j].id && b[i].name != b[j].name && b[i].domain != b[j].domain
      {
        assert a[i].id != a[j].id && a[i].name != a[j].name && a[i].domain != a[j].domain;
      }
    }
  }

  lemma LastRecord(before: seq<SiteRecord>, rec: SiteRecord, next: SiteRecord, now: int)
    requires !Has(before, rec.id) && next.id == rec.id
    ensures Has(before + [rec], rec.id)
    ensures Without(before + [rec], rec.id) == before
    ensures Stored(before + [rec], next, now) == before + [Stamped(rec, next, now)]
    ensures (before + [rec])[IndexOf(before + [rec], rec.id)] == rec
    ensures before != [] ==> exists s | s in before + [rec] :: s.id != rec.id
  {
    var all := before + [rec];
    var i := IndexOf(all, rec.id);
    assert all[|before|].id == rec.id;
    assert forall j | 0 <= j < |before| :: all[j] == before[j] && before[j].id != rec.id by {
      forall j | 0 <= j < |before| ensures before[j].id != rec.id {
        NotHas(before, rec.id, before[j]);
      }
    }
    assert i == |before|;
    if before != [] {
      assert all[0] in all;
    }
  }

  lemma ServedRecordExists(a: Files, b: Files, rec: SiteRecord)
    requires Serves(a, b, rec)
    ensures Get(b, CaddySite(rec.id)).Some?
  {
    hide ConfigFor, PoolFor;
  }

  lemma OthersTransitive(a: Files, b: Files, c: Files, id: string)
    requires OthersKept(a, b, id) && OthersKept(b, c, id)
    ensures OthersKept(a, c, id)
  {
    hide Get, PoolsKept;
    PoolsTransitive(a, b, c);
    forall t: string | t != id ensures Get(c, CaddySite(t)) == Get(a, CaddySite(t)) {
      assert Get(c, CaddySite(t)) == Get(b, CaddySite(t));
    }
  }

  lemma RollbackRestores(f0: Files, f1: Files, f2: Files, rec: SiteRecord, served: bool)
    requires Get(f0, CaddySite(rec.id)).None?
    requires if served then Serves(f0, f1, rec) && SameBut(Caddy.Removed(f1, rec.id), f2, {STUB})
             else Untouched(f0, f1) && SameBut(f1, f2, {STUB})
    ensures Restored(f0, f2)
  {
    hide Get, Serves, Caddy.Removed, SiteFilesSame, PoolsKept, SameBut;
    if served {
      RollbackUndoes(f0, f1, f2, rec);
    } else {
      StubOnly(f1, f2);
      UntouchedTransitive(f0, f1, f2);
      UntouchedIsRestored(f0, f2);
    }
  }

  lemma LateLeftOnTop(a: Files, b: Files, c: Files, rec: SiteRecord)
    requires Untouched(a, b) && LateLeft(b, c, rec)
    ensures LateLeft(a, c, rec)
  {
    hide Untouched, LateLeft;
    UntouchedItself(c, rec.id);
    LateLeftAmid(a, b, c, c, rec);
  }

  lemma LateLeftBelow(a: Files, b: Files, c: Files, rec: SiteRecord)
    requires LateLeft(a, b, rec) && SameBut(b, c, {STUB})
    ensures LateLeft(a, c, rec)
  {
    hide Untouched, LateLeft, SameBut;
    UntouchedItself(a, rec.id);
    StubOnly(b, c);
    LateLeftAmid(a, a, b, c, rec);
  }

  lemma StubElsewhere(a: Files, b: Files, id: string)
    requires SameBut(a, b, {CaddyRoot, CaddySite(id)})
    ensures OthersKept(a, b, id) && (StubReady(b) <==> StubReady(a))
  {
    hide Get, RenderStub, OthersKept;
    OwnFiles(a, b, id);
  }

  lemma StubIsElsewhere(a: Files, b: Files, id: string)
    requires SameBut(a, b, {STUB})
    ensures OthersKept(a, b, id)
  {
    hide Get, PoolFor;
  }

  lemma RecordIsPresent(f: Files, id: string)
    requires IsRecordId(id)
    ensures RemoveToken(id) == id
    ensures Caddy.Present(f, id) <==> Get(f, CaddySite(id)).Some?
  {
    hide Trim, Get, SanitizeToken, ActivateToken, RemoveToken;
    RecordIdToken(id, "");
    RecordIdIsToken(id);
    TrimBare(id, SPACES);
  }

  lemma ScriptInOrder(before: seq<Call>, a: seq<Call>, b: seq<Call>, c: seq<Call>, d: seq<Call>)
    ensures before + a + b + c + d == before + (a + b + c + d)
  {}

  /** The resolver refuses: somebody else owns the stub's place or the domain. */
  ghost predicate Blocked(f: Files) {
    Resolved.Conflicted(f, STUB, SPEC.domain)
  }

  class Service {
    const host: Host
    const sites: Registry
    const runtimes: PhpRegistry.Registry
    const resolver: Resolved.Manager
    const web: Caddy.Manager
    const php: Fpm.Manager

    ghost predicate Wired() {
      sites.host == runtimes.host == resolver.host == web.host == php.host == host && resolver.stub == STUB
    }

    constructor (host: Host, sites: Registry, runtimes: PhpRegistry.Registry)
      requires sites.host == host && runtimes.host == host
      ensures Wired() && this.host == host && this.sites == sites && this.runtimes == runtimes
    {
      this.host, this.sites, this.runtimes := host, sites, runtimes;
      resolver := new Resolved.Manager(host, STUB);
      web := new Caddy.Manager(host);
      php := new Fpm.Manager(host);
    }

    ghost function Now(): World
      reads host, sites
    {
      World(sites.sites, host.files)
    }

    method EnsureResolver() returns (ok: bool)
      requires Wired()
      modifies host
      ensures ok <==> !Blocked(old(host.files)) && host.trouble.faults == old(host.trouble).faults
      ensures ok ==> host.trouble == old(host.trouble) && host.calls == old(host.calls) + Resolved.RELOADED
      ensures ok || StubReady(old(host.files)) ==> StubReady(host.files)
      ensures !ok && host.trouble.lostUndos == old(host.trouble).lostUndos ==>
                Stalled(old(host.files), host.files, old(host.calls), host.calls)
      ensures Untouched(old(host.files), host.files) && ForeignPart(host.files) == ForeignPart(old(host.files))
      ensures OnlyUndos(old(host.trouble), host.trouble)
    {
      hide Get, Put, RenderStub, Resolved.Conflicted, Resolved.Respects, Untouched, ForeignPart, Resolved.BackedOut,
        DottedTwice;
      ghost var f0, calls0 := host.files, host.calls;
      SpecIsStable();
      var status;
      ok, status := resolver.EnsureTestStub(SPEC);
      RespectsIsStubOnly(f0, host.files);
      PutStub(f0);
      if Resolved.BackedOut(calls0, host.calls) {
        Resolved.BackedOutIsNotReloaded(calls0, host.calls);
      }
      assert |calls0 + Resolved.RELOADED| > |calls0|;
    }

    /** Resolver, PHP runtime and services, in that order. */
    method Prepare(rt: PhpRegistry.RuntimeRecord) returns (p: Progress, socket: string)
      requires Wired() && rt.version in SUPPORTED
      modifies host
      ensures !p.committedWeb && (p.ok ==> p.committedResolver)
      ensures p.ok <==> !Blocked(old(host.files)) && host.trouble.faults == old(host.trouble).faults
      ensures p.ok ==> host.trouble == old(host.trouble) && socket == SocketPath(rt.version)
      ensures p.ok ==>
                host.calls == old(host.calls) + Resolved.RELOADED + Fpm.Applied(RuntimeFor(rt.version, rt.service))
                                     + Services.Starts(Services.ToStart(["caddy", rt.service]))
      ensures p.ok ==> Get(host.files, FpmPool(rt.version)) == Some(PoolFor(rt.version))
      ensures p.ok || host.trouble.lostUndos == old(host.trouble).lostUndos ==> Untouched(old(host.files), host.files)
      ensures SiteFilesSame(old(host.files), host.files) && PoolsKept(old(host.files), host.files)
      ensures StubReady(old(host.files)) || p.committedResolver ==> StubReady(host.files)
      ensures !p.committedResolver && host.trouble.lostUndos == old(host.trouble).lostUndos ==>
                Stalled(old(host.files), host.files, old(host.calls), host.calls)
      ensures p.committedResolver ==> !Blocked(old(host.files)) && old(host.calls) + Resolved.RELOADED <= host.calls
      ensures ForeignPart(host.files) == ForeignPart(old(host.files))
      ensures OnlyUndos(old(host.trouble), host.trouble)
    {
      hide Get, RenderStub, PoolFor, SocketPath, Blocked, SiteFilesSame, PoolsKept, RuntimeFor, Services.ToStart,
        Services.Starts, Stalled, ForeignPart, ResolverPart, StubReady;
      ghost var f0 := host.files;
      p, socket := Progress(false, false, false), "";
      var ensured := EnsureResolver();
      if !ensured {
        return;
      }
      p := p.(committedResolver := true);
      ghost var f1 := host.files;
      var materialized, path := MaterializeFor(php, rt.version, rt.service);
      StubFollows(f1, host.files);
      SiteFilesTransitive(f0, f1, host.files);
      PoolsTransitive(f0, f1, host.files);
      if Untouched(f1, host.files) {
        UntouchedTransitive(f0, f1, host.files);
      }
      if !materialized {
        return;
      }
      var started := Services.StartAll(host, ["caddy", rt.service]);
      if !started {
        return;
      }
      p, socket := p.(ok := true), path;
    }

    /** All host steps of an activation. */
    method Provision(rec: SiteRecord, rt: PhpRegistry.RuntimeRecord) returns (p: Progress)
      requires Wired() && Canonical(rec) && rt.version == rec.phpVersion
      modifies host
      ensures p.ok == p.committedWeb && (p.ok ==> p.committedResolver)
      ensures p.ok <==> !Blocked(old(host.files)) && host.trouble.faults == old(host.trouble).faults
      ensures p.ok ==> Serves(old(host.files), host.files, rec) && host.trouble == old(host.trouble)
      ensures p.ok ==> host.calls == old(host.calls) + Script(rt.version, rt.service)
      ensures !p.ok && Clean(old(host.trouble), host.trouble) ==> Untouched(old(host.files), host.files)
      ensures (!p.ok && host.trouble.lostUndos == old(host.trouble).lostUndos
               && host.trouble.lateChmods != old(host.trouble).lateChmods) ==>
                LateLeft(old(host.files), host.files, rec)
      ensures OthersKept(old(host.files), host.files, rec.id)
      ensures StubReady(old(host.files)) || p.committedResolver ==> StubReady(host.files)
      ensures !p.committedResolver && host.trouble.lostUndos == old(host.trouble).lostUndos ==>
                Stalled(old(host.files), host.files, old(host.calls), host.calls)
      ensures p.committedResolver ==> !Blocked(old(host.files)) && old(host.calls) + Resolved.RELOADED <= host.calls
      ensures ForeignPart(host.files) == ForeignPart(old(host.files))
      ensures Grows(old(host.trouble), host.trouble) && host.trouble.lostDeletes == old(host.trouble).lostDeletes
    {
      hide LateLeft, Get, PoolFor, SocketPath, Canonical, Untouched, Serves, Blocked, StubReady, RuntimeFor,
        Services.ToStart, Services.Starts, Stalled, ForeignPart, ResolverPart;
      ghost var f0, calls0 := host.files, host.calls;
      CanonicalIsSupported(rec);
      var socket;
      p, socket := Prepare(rt);
      if !p.ok {
        return;
      }
      ghost var f1 := host.files;
      var activated := ActivateRecord(web, rec, socket, f0);
      StubFollows(f1, host.files);
      PoolsSince(f0, f1, host.files);
      if LateLeft(f1, host.files, rec) {
        LateLeftOnTop(f0, f1, host.files, rec);
      }
      if activated {
        ScriptInOrder(calls0, Resolved.RELOADED, Fpm.Applied(RuntimeFor(rt.version, rt.service)),
                      Services.Starts(Services.ToStart(["caddy", rt.service])), Caddy.APPLIED);
      }
      p := Progress(activated, true, activated);
    }

    method HasOtherSites(id: string) returns (ok: bool, has: bool)
      requires Wired()
      modifies host`trouble
      ensures host.trouble == if ok then old(host.trouble) else old(host.Faulty())
      ensures ok ==> (has <==> exists s | s in sites.sites :: s.id != id)
    {
      var list;
      ok, list := sites.List();
      has := false;
      SortMultiset(DomainOf, sites.sites);
      if ok {
        for i := 0 to |list|
          invariant forall j | 0 <= j < i :: list[j].id == id
        {
          if list[i].id != id {
            assert list[i] in sites.sites;
            return true, true;
          }
        }
        forall s | s in sites.sites ensures s.id == id {
          assert s in list;
        }
      }
    }

    method TakeDown(id: string)
      requires Wired() && IsRecordId(id) && Get(host.files, CaddySite(id)).Some?
      modifies host
      ensures host.trouble.lostUndos == old(host.trouble).lostUndos ==> host.files == Caddy.Removed(old(host.files), id)
      ensures SameBut(old(host.files), host.files, {CaddyRoot, CaddySite(id)}) && old(host.calls) <= host.calls
      ensures host.trouble.lostUndos == old(host.trouble).lostUndos ==> host.trouble == old(host.trouble)
      ensures Grows(old(host.trouble), host.trouble) && host.trouble.lostDeletes == old(host.trouble).lostDeletes
    {
      hide Get, Put, Caddy.Present, Caddy.Removed, Caddy.Removable, RemoveToken, IsRecordId, SameBut;
      RecordIsPresent(host.files, id);
      var removed := web.RemoveSite(id);
      host.Compensated(removed);
    }

    method ReleaseStub(id: string)
      requires Wired()
      modifies host
      ensures SameBut(old(host.files), host.files, {STUB})
      ensures (exists s | s in sites.sites :: s.id != id) && StubReady(old(host.files)) ==> StubReady(host.files)
      ensures (StubReady(old(host.files)) && (forall s | s in sites.sites :: s.id == id)
               && host.trouble.faults == old(host.trouble).faults) ==>
                Get(host.files, STUB).None? && host.calls == old(host.calls) + Resolved.RELOADED
      ensures host.trouble.lateChmods == old(host.trouble).lateChmods
      ensures ForeignPart(host.files) == ForeignPart(old(host.files))
      ensures Grows(old(host.trouble), host.trouble) && host.trouble.lostDeletes == old(host.trouble).lostDeletes
    {
      hide Get, Put, StubReady, Resolved.ForeignStub, ForeignPart, Untouched, Resolved.BackedOut;
      ReadyIsOurs(host.files);
      ghost var f0 := host.files;
      var listed, others := HasOtherSites(id);
      if listed && !others {
        var cleared := resolver.RemoveManagedStub();
        RespectsIsStubOnly(f0, host.files);
      }
    }

    /** The deferred rollback: the site, then the stub unless others need it, then the record. */
    method Rollback(id: string, committedResolver: bool, committedWeb: bool)
      requires Wired() && IsRecordId(id) && Has(sites.sites, id)
      requires committedWeb ==> Get(host.files, CaddySite(id)).Some?
      modifies host, sites
      ensures sites.sites == Without(old(sites.sites), id)
              || (sites.sites == old(sites.sites) && host.trouble.lostDeletes > old(host.trouble).lostDeletes)
      ensures !committedWeb ==> SameBut(old(host.files), host.files, {STUB})
      ensures committedWeb && host.trouble.lostUndos == old(host.trouble).lostUndos ==>
                SameBut(Caddy.Removed(old(host.files), id), host.files, {STUB})
      ensures OthersKept(old(host.files), host.files, id)
      ensures StubReady(old(host.files)) && (!committedResolver || exists s | s in old(sites.sites) :: s.id != id) ==>
                StubReady(host.files)
      ensures (committedResolver && StubReady(old(host.files)) && (forall s | s in old(sites.sites) :: s.id == id)
               && host.trouble.faults == old(host.trouble).faults) ==>
                Get(host.files, STUB).None? && old(host.calls) < host.calls
      ensures (!committedWeb || host.trouble.lostUndos == old(host.trouble).lostUndos) ==>
                host.trouble.lateChmods == old(host.trouble).lateChmods
      ensures !committedResolver && !committedWeb ==> host.files == old(host.files) && host.calls == old(host.calls)
      ensures ForeignPart(host.files) == ForeignPart(old(host.files))
      ensures Grows(old(host.trouble), host.trouble)
    {
      hide OthersKept, Get, Caddy.Removed, StubReady, IsRecordId, ForeignPart, ResolverPart;
      ghost var f0 := host.files;
      if committedWeb {
        TakeDown(id);
      }
      ghost var f1 := host.files;
      StubElsewhere(f0, f1, id);
      ResolverUntouched(f0, f1, {CaddyRoot, CaddySite(id)});
      StubFollows(f0, f1);
      if committedResolver {
        ReleaseStub(id);
      }
      StubIsElsewhere(f1, host.files, id);
      OthersTransitive(f0, f1, host.files, id);
      var deleted := sites.Delete(id);
      host.Deleted(deleted);
    }

    /** Everything after the registration of `rec` behind the records `before`. */
    method Complete(rec: SiteRecord, rt: PhpRegistry.RuntimeRecord, later: int, ghost before: seq<SiteRecord>)
      returns (r: SiteResult)
      requires Wired() && Canonical(rec) && rt.version == rec.phpVersion
      requires sites.sites == before + [rec] && !Has(before, rec.id) && Get(host.files, CaddySite(rec.id)).None?
      modifies host, sites
      ensures r.Kept? <==> !Blocked(old(host.files)) && host.trouble.faults == old(host.trouble).faults
      ensures r.Kept? ==>
                && r.record == rec.(updatedAt := later, checkedAt := later)
                && sites.sites == before + [r.record] && Serves(old(host.files), host.files, r.record)
                && host.calls == old(host.calls) + Script(rt.version, rt.service) && host.trouble == old(host.trouble)
      ensures r.Refused? && host.trouble.lostDeletes == old(host.trouble).lostDeletes ==> sites.sites == before
      ensures r.Refused? ==> sites.sites == before || sites.sites == before + [rec]
      ensures r.Refused? && Clean(old(host.trouble), host.trouble) ==> Restored(old(host.files), host.files)
      ensures (!r.Kept? && host.trouble.lostUndos == old(host.trouble).lostUndos
               && host.trouble.lateChmods != old(host.trouble).lateChmods) ==>
                LateLeft(old(host.files), host.files, rec)
      ensures ((before != [] ==> StubReady(old(host.files)))
               && host.trouble.lostDeletes == old(host.trouble).lostDeletes) ==> ResolverReady(Now())
      ensures (r.Refused? && before == [] && host.trouble.faults <= old(host.trouble).faults + 1
               && host.trouble.lostUndos == old(host.trouble).lostUndos) ==>
                StubAfter(old(host.files), host.files, old(host.calls), host.calls)
      ensures OthersKept(old(host.files), host.files, rec.id)
      ensures ForeignPart(host.files) == ForeignPart(old(host.files))
      ensures Grows(old(host.trouble), host.trouble)
    {
      hide LateLeft, Get, Canonical, Serves, StubReady, Blocked, IsRecordId, Restored, OthersKept, Caddy.Removed,
        Stored, Without, Has, IndexOf, SameBut, Untouched, Script, Stalled, StubAfter, ForeignPart;
      ghost var f0, t0, calls0 := host.files, host.trouble, host.calls;
      CanonicalIsSupported(rec);
      LastRecord(before, rec, rec.(checkedAt := later), later);
      var p := Provision(rec, rt);
      ghost var f1, t1, calls1 := host.files, host.trouble, host.calls;
      if p.ok {
        ServedRecordExists(f0, f1, rec);
        r := sites.Update(rec.(checkedAt := later), later);
        if r.Kept? {
          SameConfig(f0, f1, rec, r.record);
          return;
        }
      }
      Rollback(rec.id, p.committedResolver, p.committedWeb);
      OthersTransitive(f0, f1, host.files, rec.id);
      if Clean(t1, host.trouble) && (p.ok || Untouched(f0, f1)) {
        RollbackRestores(f0, f1, host.files, rec, p.ok);
      }
      if LateLeft(f0, f1, rec) && !p.ok {
        LateLeftBelow(f0, f1, host.files, rec);
      }
      if before == [] && host.trouble.faults <= t0.faults + 1 && host.trouble.lostUndos == t0.lostUndos {
        StubSettled(f0, f1, host.files, calls0, calls1, host.calls, p.committedResolver);
      }
      r := Refused(HostFailure);
    }

    /** Activates a site under a fresh ID. On success the record is registered and served, by exactly the
        scripted commands. On failure, provided the registry delete took effect, the registry is as before;
        and provided every other compensation did too, the request left no trace in registry or site files.
        In every case the stub stays while sites exist, and other sites' files keep their bytes. */
    method Activate(input: SiteInput, newId: string, now: int, later: int) returns (r: SiteResult)
      requires Wired() && PhpRegistry.InMatrix(runtimes.state) && PhpRegistry.Consistent(runtimes.state)
      requires IsRecordId(newId) && Fresh(Now(), newId)
      modifies host, sites
      ensures r.Kept? ==>
                && Added(old(Now()), Now(), r.record)
                && r.record.id == newId && r.record.createdAt == now
                && r.record.updatedAt == later && r.record.checkedAt == later && r.record.rootPath == RootOf(input)
                && NormalizeDomain(input.domain, r.record.name) == Domain(r.record.domain)
                && r.record.phpVersion == PhpRegistry.ChosenVersion(input.phpVersion, runtimes.state)
                && host.trouble == old(host.trouble)
      ensures r.Kept? ==> exists rt | rt in runtimes.state.runtimes && rt.version in SUPPORTED ::
                rt.version == r.record.phpVersion && host.calls == old(host.calls) + Script(rt.version, rt.service)
      ensures r.Refused? && host.trouble.lostDeletes == old(host.trouble).lostDeletes ==>
                sites.sites == old(sites.sites)
      ensures sites.sites == old(sites.sites)
              || exists rec: SiteRecord | rec.id == newId && PhpRegistry.HasRuntime(runtimes.state, rec.phpVersion) ::
                   sites.sites == old(sites.sites) + [rec]
      ensures (r.Refused? && host.trouble.lostDeletes == old(host.trouble).lostDeletes
               && Clean(old(host.trouble), host.trouble)) ==> Undone(old(Now()), Now())
      ensures r.Refused? && host.trouble.faults == old(host.trouble).faults ==>
                || (r.reason.RuntimeNotFound? && PhpRegistry.Missing(input.phpVersion, runtimes.state))
                || RefusalOf(old(sites.sites), input) == Some(r.reason)
                || Blocked(old(host.files))
      ensures (r.Refused? && host.trouble.lostUndos == old(host.trouble).lostUndos
               && host.trouble.lateChmods != old(host.trouble).lateChmods) ==>
                exists rec: SiteRecord | rec.id == newId && Canonical(rec) :: LateLeft(old(host.files), host.files, rec)
      ensures (old(ResolverReady(Now())) && host.trouble.lostDeletes == old(host.trouble).lostDeletes) ==>
                ResolverReady(Now())
      ensures (r.Refused? && old(sites.sites) == [] && host.trouble.faults <= old(host.trouble).faults + 1
               && host.trouble.lostUndos == old(host.trouble).lostUndos) ==>
                StubAfter(old(host.files), host.files, old(host.calls), host.calls)
      ensures OthersKept(old(host.files), host.files, newId)
      ensures ForeignPart(host.files) == ForeignPart(old(host.files))
      ensures old(WellFormed(sites.sites)) ==> WellFormed(sites.sites)
      ensures Grows(old(host.trouble), host.trouble)
    {
      hide LateLeft, Get, Canonical, Serves, StubReady, Blocked, IsRecordId, Restored, Has, TrimSpace, NormalizeVersion,
        Script, NormalizeDomain, RefusalOf, Unclaimed, OthersKept, PhpRegistry.Consistent, PhpRegistry.Missing,
        PhpRegistry.ChosenVersion, WellFormed, StubAfter, ForeignPart;
      ghost var w0 := Now();
      UndoneItself(w0, newId);
      NoCommandNoChange(host.files, host.calls);
      var found := runtimes.Resolve(input.phpVersion);
      if !found.Found? {
        return Refused(if found.NotFound? then RuntimeNotFound else StoreFailure);
      }
      var rt := found.record;
      var chosen := input.(phpVersion := rt.version);
      var registered := sites.Register(chosen, newId, now);
      RefusalIgnoresVersion(w0.sites, input, rt.version);
      if registered.Refused? {
        return registered;
      }
      var rec := registered.record;
      NewRecordIsCanonical(w0.sites, chosen, newId, now);
      AppendedIsWellFormed(w0.sites, rec);
      r := Complete(rec, rt, later, w0.sites);
      if r.Kept? {
        RestampedIsWellFormed(w0.sites, rec, r.record);
        StampsAreFree(rec, r.record);
      } else if host.trouble.lostDeletes == old(host.trouble).lostDeletes && Restored(w0.files, host.files) {
        RestoredIsUndone(w0, Now());
      }
    }
  }

  /** The commands of an activation, spelled out. */
  lemma ScriptIs(version: string, service: string)
    requires version in SUPPORTED && service != "" && Bare(service, SPACES) && service != "caddy"
    ensures Script(version, service) ==
            [Call(Restart("systemd-resolved"), true), Call(FlushCaches, true), Call(DaemonReload, true),
             Call(FpmTest("/usr/sbin/php-fpm" + version), true), Call(Restart(service), true),
             Call(Start("caddy"), true), Call(Start(service), true), Call(CaddyValidate, true), Call(CaddyReload, true)]
  {
    hide SUPPORTED, Trim, RuntimeFor, Services.ToStart;
    AppliedIs(version, service);
    TrimBare(service, SPACES);
    Services.CaddyComesFirst(service);
    assert Services.Starts(["caddy", service]) == [Call(Start("caddy"), true), Call(Start(service), true)];
  }
}
