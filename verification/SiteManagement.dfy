/** The update saga: change a site's root, domain or PHP version, and compensate when a step fails. */
module SiteManagement {
  import opened Text
  import opened Order
  import opened Tokens
  import opened SiteNames
  import opened PhpVersions
  import opened CaddyConfig
  import opened HostModel
  import opened SiteRegistry
  import opened Worlds
  import opened Serving
  import Services
  import Caddy
  import Fpm
  import PhpRegistry

  datatype UpdateInput = UpdateInput(
    siteId: string, rootPath: Option<string>, domain: Option<string>, phpVersion: Option<string>,
    lookup: string -> string)

  datatype Plan = Planned(next: SiteRecord, target: PhpRegistry.RuntimeRecord) | Rejected(reason: Refusal)

  /** The record an update asks for: each field as asked, and otherwise as it was. */
  ghost predicate Follows(current: SiteRecord, input: UpdateInput, next: SiteRecord) {
    && next.id == current.id && next.createdAt == current.createdAt
    && (if input.rootPath.None? then next.rootPath == current.rootPath && next.name == current.name
        else next.rootPath == LeadsTo(input.lookup, input.rootPath.value) && next.name == DeriveSiteName(next.rootPath))
    && (if input.domain.None? then next.domain == current.domain
        else NormalizeDomain(input.domain.value, next.name) == Domain(next.domain))
    && next.phpVersion == (if input.phpVersion.None? || TrimSpace(input.phpVersion.value) == "" then current.phpVersion
                           else NormalizeVersion(input.phpVersion.value))
  }

  function AskedVersion(current: SiteRecord, input: UpdateInput): string {
    if input.phpVersion.Some? && TrimSpace(input.phpVersion.value) != "" then input.phpVersion.value
    else current.phpVersion
  }

  /** A reason to reject an update that lies in the request and the registries, not in a failure. */
  ghost predicate Excused(sites: seq<SiteRecord>, runtimes: PhpRegistry.State, current: SiteRecord, input: UpdateInput,
                          reason: Refusal) {
    var name := if input.rootPath.None? then current.name
                else DeriveSiteName(LeadsTo(input.lookup, input.rootPath.value));
    var parsed := if input.domain.None? then Domain(current.domain) else NormalizeDomain(input.domain.value, name);
    match reason
    case InvalidPath => input.rootPath.Some? && TrimSpace(input.rootPath.value) == ""
    case InvalidDomain(why) => why == parsed && !parsed.Domain?
    case RuntimeNotFound => PhpRegistry.Missing(AskedVersion(current, input), runtimes)
    case SiteNotFound | StoreFailure | HostFailure => false
    case DuplicateName | DuplicateDomain =>
      parsed.Domain? && FirstClash(SortBy(DomainOf, sites), {current.id}, name, parsed.value) == Some(reason)
  }

  /** Why an update is refused when no step failed: the site is unknown, or its new form is unacceptable. */
  ghost predicate Justified(sites: seq<SiteRecord>, runtimes: PhpRegistry.State, input: UpdateInput, reason: Refusal) {
    var i := IndexOf(sites, TrimSpace(input.siteId));
    if i == |sites| then reason == SiteNotFound
    else Excused(sites, runtimes, sites[i], input, reason)
  }

  /** The registry after an update: one record replaced by the one the input asks for, stamped. */
  ghost predicate Carried(a: seq<SiteRecord>, b: seq<SiteRecord>, input: UpdateInput, now: int, rec: SiteRecord) {
    var id := TrimSpace(input.siteId);
    && Has(a, id) && rec.id == id && b == a[IndexOf(a, id) := rec]
    && Canonical(rec) && Unclaimed(a, {id}, rec.name, rec.domain)
    && Follows(a[IndexOf(a, id)], input, rec) && rec.updatedAt == now && rec.checkedAt == now
    && WellFormed(b)
  }

  lemma MemberIsCanonical(sites: seq<SiteRecord>, id: string)
    requires WellFormed(sites) && Has(sites, id)
    ensures var s := sites[IndexOf(sites, id)]; s in sites && s.id == id && Canonical(s)
  {
    hide Canonical;
  }

  lemma NextKeepsId(current: SiteRecord, input: UpdateInput, next: SiteRecord)
    requires Follows(current, input, next)
    ensures next.id == current.id && next.createdAt == current.createdAt
  {
    hide NormalizeDomain, DeriveSiteName;
  }

  /** An update that changes nothing the host knows leaves the site served as it was. */
  lemma StaysServed(f: Files, current: SiteRecord, next: SiteRecord)
    requires Mirrored(f, current)
    requires next.id == current.id && next.domain == current.domain && next.rootPath == current.rootPath
             && next.phpVersion == current.phpVersion
    ensures Serves(f, f, next)
  {
    hide PoolFor, RenderSite, SocketPath, Caddy.EnsuredRoot;
    assert CaddySite(current.id) in f;
  }

  lemma StoredIsCarried(sites: seq<SiteRecord>, input: UpdateInput, current: SiteRecord, next: SiteRecord, now: int,
                        rec: SiteRecord)
    requires WellFormed(sites) && Has(sites, TrimSpace(input.siteId))
    requires current == sites[IndexOf(sites, TrimSpace(input.siteId))]
    requires Follows(current, input, next) && Canonical(next)
    requires Unclaimed(sites, {current.id}, next.name, next.domain)
    requires rec == Stamped(current, next.(checkedAt := now), now)
    ensures Carried(sites, Stored(sites, next.(checkedAt := now), now), input, now, rec)
    ensures Stored(sites, next.(checkedAt := now), now) == sites[IndexOf(sites, rec.id) := rec]
  {
    hide TrimSpace, NormalizeDomain, DeriveSiteName, NormalizeVersion, Unclaimed, IsRecordId, IsTestDomain, WellFormed,
      IndexOf;
    assert Follows(current, input, rec);
    assert Canonical(rec);
    ReplacedIsWellFormed(sites, rec);
  }

  lemma ServedPool(f0: Files, f1: Files, current: SiteRecord, next: SiteRecord)
    requires Mirrored(f0, current) && Serves(f0, f1, next)
    ensures Ready(f1, f1, current)
  {
    hide ConfigFor, PoolFor, Caddy.EnsuredRoot, Caddy.NoSites, Get;
    PoolStays(f0, f1, current);
    UntouchedItself(f1, current.id);
  }

  lemma OthersElsewhere(a: Files, b: Files, c: Files, id: string)
    requires OthersKept(a, b, id) && OthersSame(b, c, id)
    ensures OthersKept(a, c, id) && ResolverPart(c) == ResolverPart(b)
  {
    hide Get, PoolsKept, ResolverPart;
    PoolsSince(a, b, c);
    forall t: string | t != id ensures Get(c, CaddySite(t)) == Get(a, CaddySite(t)) {
      assert Get(c, CaddySite(t)) == Get(b, CaddySite(t));
    }
  }

  /** Activating the old record over the new one; an error counts as a lost compensation. */
  method Reactivate(web: Caddy.Manager, current: SiteRecord, next: SiteRecord, ghost f0: Files)
    requires Canonical(current) && next.id == current.id
    requires OthersKept(f0, web.host.files, next.id)
    modifies web.host
    ensures (Clean(old(web.host.trouble), web.host.trouble)
             && Mirrored(f0, current) && Serves(f0, old(web.host.files), next)) ==>
              Restored(f0, web.host.files)
    ensures web.host.trouble.faults == old(web.host.trouble).faults ==>
              web.host.calls == old(web.host.calls) + Caddy.APPLIED
    ensures web.host.trouble.lostUndos == old(web.host.trouble).lostUndos ==>
              web.host.trouble.lateChmods == old(web.host.trouble).lateChmods
    ensures OthersKept(f0, web.host.files, next.id)
    ensures ResolverPart(web.host.files) == ResolverPart(old(web.host.files))
    ensures Grows(old(web.host.trouble), web.host.trouble)
    ensures web.host.trouble.lostDeletes == old(web.host.trouble).lostDeletes
  {
    hide Get, ResolverPart, Canonical, Mirrored, Serves, Restored, OthersKept, OthersSame, SocketPath, Ready;
    ghost var f1 := web.host.files;
    if Mirrored(f0, current) && Serves(f0, f1, next) {
      ServedPool(f0, f1, current, next);
    }
    var restored := ActivateRecord(web, current, SocketPath(current.phpVersion), f1);
    OthersElsewhere(f0, f1, web.host.files, next.id);
    web.host.Compensated(restored);
    if Mirrored(f0, current) && Serves(f0, f1, next) && Serves(f1, web.host.files, current) {
      ReactivationRestores(f0, f1, web.host.files, current, next);
    }
  }

  /** A record stored over the first one with its ID. */
  ghost predicate Persisted(a: seq<SiteRecord>, b: seq<SiteRecord>, record: SiteRecord, now: int, r: SiteResult) {
    && r.Kept? && Has(a, record.id) && b == Stored(a, record, now)
    && r.record == Stamped(a[IndexOf(a, record.id)], record, now)
  }

  /** The service registered for a version, or else the usual one. */
  function ServiceFor(runtimes: PhpRegistry.State, version: string): string {
    match PhpRegistry.Find(runtimes.runtimes, NormalizeVersion(version))
    case Some(r) => r.service
    case None => ServiceNameOf(version)
  }

  method FormerService(runtimes: PhpRegistry.Registry, version: string) returns (service: string)
    modifies runtimes.host`trouble
    ensures runtimes.host.trouble == old(runtimes.host.trouble) ==> service == ServiceFor(runtimes.state, version)
    ensures runtimes.host.trouble in {old(runtimes.host.trouble), old(runtimes.host.Faulty())}
  {
    hide NormalizeVersion, PhpRegistry.Find, ServiceNameOf;
    var found := runtimes.Get(version);
    service := if found.Found? then found.record.service else ServiceNameOf(version);
  }

  /** The commands of materialising a version again. */
  function BackTo(runtimes: PhpRegistry.State, version: string): seq<Call>
    requires version in SUPPORTED
  {
    Fpm.Applied(RuntimeFor(version, ServiceFor(runtimes, version)))
  }

  /** The host has nothing to do for a record whose root, domain and version are as they were. */
  predicate SameHosting(sites: seq<SiteRecord>, rec: SiteRecord) {
    && Has(sites, rec.id)
    && var was := sites[IndexOf(sites, rec.id)];
    was.rootPath == rec.rootPath && was.domain == rec.domain && was.phpVersion == rec.phpVersion
  }

  /** A served record of another version talks to another socket than before. */
  lemma KeptIsMoved(a: World, b: World, current: SiteRecord, rec: SiteRecord)
    requires current in a.sites && rec.id == current.id && Canonical(rec)
    requires Inv(a) && current.phpVersion != rec.phpVersion ==> Serves(a.files, b.files, rec)
    ensures Inv(a) && current.phpVersion != rec.phpVersion ==> Moved(a.files, b.files, rec.id, rec.phpVersion)
  {
    hide Canonical, Mirrored, Caddy.SitesAreImported, Moved;
    if Inv(a) && current.phpVersion != rec.phpVersion {
      MovedSiteReads(a.files, b.files, current, rec);
    }
  }

  function VersionAt(sites: seq<SiteRecord>, id: string): string {
    if Has(sites, id) then sites[IndexOf(sites, id)].phpVersion else ""
  }

  /** The commands of a complete reconfiguration, in order. */
  function Script(previous: string, version: string, service: string): seq<Call>
    requires version in SUPPORTED
  {
    (if previous != version then Fpm.Applied(RuntimeFor(version, service)) else [])
    + Services.Starts(Services.ToStart(["caddy", service])) + Caddy.APPLIED
  }

  lemma ScriptInOrder(before: seq<Call>, a: seq<Call>, b: seq<Call>, c: seq<Call>)
    ensures before + a + b + c == before + (a + b + c)
    ensures before + [] + b + c == before + b + c
  {
    assert before + [] == before;
  }

  lemma MirroredPool(f: Files, rec: SiteRecord)
    requires Mirrored(f, rec)
    ensures Get(f, FpmPool(rec.phpVersion)) == Some(PoolFor(rec.phpVersion))
  {}

  lemma SameSitesElsewhere(a: Files, b: Files, id: string)
    requires SiteFilesSame(a, b) && PoolsKept(a, b)
    ensures OthersKept(a, b, id)
  {
    hide Get, PoolsKept;
  }

  lemma AfterRollback(a: Files, b: Files, c: Files, id: string)
    requires OthersKept(a, b, id) && SiteFilesSame(b, c) && PoolsKept(b, c)
    ensures OthersKept(a, c, id)
    ensures Untouched(a, b) && Untouched(b, c) ==> Untouched(a, c)
  {
    hide Get, ResolverPart, PoolsKept;
    forall t: string | t != id ensures Get(c, CaddySite(t)) == Get(a, CaddySite(t)) {
      assert Get(c, CaddySite(t)) == Get(b, CaddySite(t));
    }
    PoolsTransitive(a, b, c);
    if Untouched(a, b) && Untouched(b, c) {
      UntouchedTransitive(a, b, c);
    }
  }

  lemma ServiceIsNamed(version: string)
    ensures Bare(ServiceNameOf(version), SPACES) && TrimSpace(ServiceNameOf(version)) == ServiceNameOf(version) != ""
  {
    hide Trim, NormalizeVersion;
    BareAround("php", NormalizeVersion(version), "-fpm", SPACES);
    TrimBare(ServiceNameOf(version), SPACES);
  }

  lemma SupportedIsNamed(version: string)
    requires version in SUPPORTED
    ensures TrimSpace(version) != "" && NormalizeVersion(version) == version
  {
    hide Trim, NormalizeVersion;
    SupportedFixed(version);
    NormalShape(version);
    TrimBare(version, SPACES);
  }

  /** The duplicate check on the sorted list covers the registry. */
  lemma SortedUnclaimed(sites: seq<SiteRecord>, skip: set<string>, name: string, domain: string)
    ensures Unclaimed(SortBy(DomainOf, sites), skip, name, domain) <==> Unclaimed(sites, skip, name, domain)
  {
    hide EqualFold;
    SortMultiset(DomainOf, sites);
  }

  class Service {
    const host: Host
    const sites: Registry
    const runtimes: PhpRegistry.Registry
    const web: Caddy.Manager
    const php: Fpm.Manager

    ghost predicate Wired() {
      sites.host == runtimes.host == web.host == php.host == host
    }

    constructor (host: Host, sites: Registry, runtimes: PhpRegistry.Registry)
      requires sites.host == host && runtimes.host == host
      ensures Wired() && this.host == host && this.sites == sites && this.runtimes == runtimes
    {
      this.host, this.sites, this.runtimes := host, sites, runtimes;
      web := new Caddy.Manager(host);
      php := new Fpm.Manager(host);
    }

    ghost function Now(): World
      reads host, sites
    {
      World(sites.sites, host.files)
    }

    /** The checks before any effect: root, name, domain, runtime, and duplicates among the other sites. */
    method PrepareUpdatedSite(current: SiteRecord, input: UpdateInput) returns (p: Plan)
      requires Wired() && Canonical(current) && PhpRegistry.InMatrix(runtimes.state)
      modifies host`trouble
      ensures p.Planned? ==>
                && Follows(current, input, p.next) && Canonical(p.next)
                && p.target in runtimes.state.runtimes && p.next.phpVersion == p.target.version
                && Unclaimed(sites.sites, {current.id}, p.next.name, p.next.domain)
                && host.trouble == old(host.trouble)
      ensures p.Rejected? && host.trouble.faults == old(host.trouble).faults ==>
                Excused(sites.sites, runtimes.state, current, input, p.reason)
      ensures Grows(old(host.trouble), host.trouble) && Clean(old(host.trouble), host.trouble)
      ensures host.trouble.lostDeletes == old(host.trouble).lostDeletes
    {
      hide TrimSpace, NormalizeVersion, NormalizeDomain, DeriveSiteName, IsTestDomain, IsRecordId, Unclaimed,
        FirstClash, SortBy, PhpRegistry.Missing, PhpRegistry.Consistent;
      var rootPath, name := current.rootPath, current.name;
      if input.rootPath.Some? {
        if TrimSpace(input.rootPath.value) == "" {
          return Rejected(InvalidPath);
        }
        var resolved, path := host.ResolveRoot(TrimSpace(input.rootPath.value), input.lookup);
        if !resolved {
          return Rejected(InvalidPath);
        }
        var isProject := host.Attempt();
        if !isProject {
          return Rejected(InvalidPath);
        }
        rootPath := path;
        name := DeriveName(rootPath);
      }
      var domain := current.domain;
      if input.domain.Some? {
        DomainAccepted(input.domain.value, name);
        var parsed := NormalizeDomain(input.domain.value, name);
        if !parsed.Domain? {
          return Rejected(InvalidDomain(parsed));
        }
        domain := parsed.value;
      }
      var version := current.phpVersion;
      if input.phpVersion.Some? && TrimSpace(input.phpVersion.value) != "" {
        version := input.phpVersion.value;
      }
      SupportedIsNamed(current.phpVersion);
      var found := runtimes.Resolve(version);
      if !found.Found? {
        return Rejected(if found.NotFound? then RuntimeNotFound else StoreFailure);
      }
      var listed, list := sites.List();
      if !listed {
        return Rejected(StoreFailure);
      }
      var clash := sites.FindClash(list, {current.id}, name, domain);
      if clash.Some? {
        return Rejected(clash.value);
      }
      NoClash(list, {current.id}, name, domain);
      SortedUnclaimed(sites.sites, {current.id}, name, domain);
      p := Planned(current.(name := name, rootPath := rootPath, domain := domain, phpVersion := found.record.version),
                   found.record);
    }

    /** Compensation: materialise the previous version again, whatever comes of it. */
    method RollbackRuntime(previous: SiteRecord, failed: PhpRegistry.RuntimeRecord)
      requires Wired() && previous.phpVersion in SUPPORTED
      modifies host
      ensures host.trouble.lostUndos == old(host.trouble).lostUndos ==> Untouched(old(host.files), host.files)
      ensures host.trouble.faults == old(host.trouble).faults ==>
                && host.calls == old(host.calls) + BackTo(runtimes.state, previous.phpVersion)
                && Get(host.files, FpmPool(previous.phpVersion)) == Some(PoolFor(previous.phpVersion))
      ensures SiteFilesSame(old(host.files), host.files) && PoolsKept(old(host.files), host.files)
      ensures ResolverPart(host.files) == ResolverPart(old(host.files))
      ensures OnlyUndos(old(host.trouble), host.trouble)
    {
      hide Get, ResolverPart, Untouched, SiteFilesSame, PoolsKept, RuntimeFor, PoolFor, ServiceFor, SocketPath,
        Fpm.Applied;
      var service := FormerService(runtimes, previous.phpVersion);
      var ok, _ := SwitchFor(php, failed.service, previous.phpVersion, service);
    }

    /** Services and site on top of a switched runtime. When one fails, the last thing that happens is that
        the previous version is materialised and its service restarted. */
    method StartAndServe(current: SiteRecord, next: SiteRecord, target: PhpRegistry.RuntimeRecord, phpChanged: bool,
                         ghost f0: Files) returns (ok: bool)
      requires Wired() && Canonical(current) && Canonical(next) && next.phpVersion == target.version
      requires OthersKept(f0, host.files, next.id)
      modifies host
      ensures ok ==> host.trouble == old(host.trouble)
      ensures ok && Ready(f0, old(host.files), next) ==> Serves(f0, host.files, next)
      ensures ok ==> host.calls == old(host.calls) + Services.Starts(Services.ToStart(["caddy", target.service]))
                                   + Caddy.APPLIED
      ensures !ok && Clean(old(host.trouble), host.trouble) && Untouched(f0, old(host.files)) ==>
                Untouched(f0, host.files)
      ensures !ok && phpChanged && host.trouble.faults == old(host.trouble).faults + 1 ==>
                && EndsWith(host.calls, BackTo(runtimes.state, current.phpVersion))
                && Get(host.files, FpmPool(current.phpVersion)) == Some(PoolFor(current.phpVersion))
      ensures !ok ==> host.trouble.faults > old(host.trouble).faults
      ensures (!ok && host.trouble.lostUndos == old(host.trouble).lostUndos
               && host.trouble.lateChmods != old(host.trouble).lateChmods && Untouched(f0, old(host.files))) ==>
                LateLeft(f0, host.files, next)
      ensures OthersKept(f0, host.files, next.id)
      ensures ResolverPart(host.files) == ResolverPart(old(host.files))
      ensures Grows(old(host.trouble), host.trouble) && host.trouble.lostDeletes == old(host.trouble).lostDeletes
    {
      hide LateLeft, Get, ResolverPart, Untouched, SiteFilesSame, PoolsKept, RuntimeFor, PoolFor, Canonical, Serves,
        SocketPath, OthersKept, BackTo, OthersSame, Services.Starts, Services.ToStart, NormalizeVersion;
      ghost var f1 := host.files;
      CanonicalIsSupported(current);
      CanonicalIsSupported(next);
      var started := Services.StartAll(host, ["caddy", target.service]);
      if !started {
        if phpChanged {
          RollbackRuntime(current, target);
          AfterRollback(f0, f1, host.files, next.id);
        }
        return false;
      }
      ok := ActivateRecord(web, next, SocketPath(target.version), f0);
      ghost var f2 := host.files;
      OthersElsewhere(f0, f1, f2, next.id);
      UntouchedItself(f2, next.id);
      if LateLeft(f1, f2, next) && Untouched(f0, f1) {
        LateLeftAmid(f0, f1, f2, f2, next);
      }
      if !ok && phpChanged {
        RollbackRuntime(current, target);
        AfterRollback(f0, f2, host.files, next.id);
        if LateLeft(f1, f2, next) && Untouched(f0, f1) && Untouched(f2, host.files) {
          LateLeftAmid(f0, f1, f2, host.files, next);
        }
      }
    }

    /** Runtime, services and site, in that order; when one fails, the runtime is switched back. */
    method Apply(current: SiteRecord, next: SiteRecord, target: PhpRegistry.RuntimeRecord) returns (ok: bool)
      requires Wired() && Canonical(current) && Canonical(next) && next.phpVersion == target.version
      modifies host
      ensures ok ==> host.trouble == old(host.trouble)
      ensures ok && Mirrored(old(host.files), current) ==> Serves(old(host.files), host.files, next)
      ensures ok ==> host.calls == old(host.calls) + Script(current.phpVersion, target.version, target.service)
      ensures !ok && Clean(old(host.trouble), host.trouble) ==> Untouched(old(host.files), host.files)
      ensures !ok && current.phpVersion != target.version && host.trouble.faults == old(host.trouble).faults + 1 ==>
                || RestartedLast(host.calls, ServiceNameOf(current.phpVersion))
                || EndsWith(host.calls, BackTo(runtimes.state, current.phpVersion))
      ensures !ok ==> host.trouble.faults > old(host.trouble).faults
      ensures (!ok && host.trouble.lostUndos == old(host.trouble).lostUndos
               && host.trouble.lateChmods != old(host.trouble).lateChmods) ==>
                LateLeft(old(host.files), host.files, next)
      ensures OthersKept(old(host.files), host.files, next.id)
      ensures ResolverPart(host.files) == ResolverPart(old(host.files))
      ensures Grows(old(host.trouble), host.trouble) && host.trouble.lostDeletes == old(host.trouble).lostDeletes
    {
      hide LateLeft, Get, ResolverPart, Untouched, SiteFilesSame, PoolsKept, RuntimeFor, PoolFor, Canonical, Mirrored,
        Serves, SocketPath, OthersKept, OthersSame, Services.Starts, Services.ToStart, NormalizeVersion, BackTo,
        ServiceNameOf;
      ghost var f0, calls0 := host.files, host.calls;
      CanonicalIsSupported(current);
      CanonicalIsSupported(next);
      ServiceIsNamed(current.phpVersion);
      SupportedIsNamed(current.phpVersion);
      UntouchedItself(f0, next.id);
      var phpChanged := NormalizeVersion(current.phpVersion) != target.version;
      if phpChanged {
        var switched, _ := SwitchFor(php, ServiceNameOf(current.phpVersion), target.version, target.service);
        SameSitesElsewhere(f0, host.files, next.id);
        if !switched {
          return false;
        }
      } else if Mirrored(f0, current) {
        MirroredPool(f0, current);
      }
      ok := StartAndServe(current, next, target, phpChanged, f0);
      if ok {
        ScriptInOrder(calls0, if phpChanged then Fpm.Applied(RuntimeFor(target.version, target.service)) else [],
                      Services.Starts(Services.ToStart(["caddy", target.service])), Caddy.APPLIED);
      }
    }

    /** Compensation of a refused update: activate the old record, switch the runtime back. */
    method BackOut(current: SiteRecord, next: SiteRecord, target: PhpRegistry.RuntimeRecord, ghost f0: Files)
      requires Wired() && Canonical(current) && next.id == current.id
      requires OthersKept(f0, host.files, next.id)
      modifies host
      ensures host.trouble.faults == old(host.trouble).faults ==>
                && host.calls == old(host.calls) + Caddy.APPLIED
                   + (if current.phpVersion == target.version then [] else BackTo(runtimes.state, current.phpVersion))
                && (current.phpVersion != target.version ==>
                      Get(host.files, FpmPool(current.phpVersion)) == Some(PoolFor(current.phpVersion)))
      ensures (Clean(old(host.trouble), host.trouble) && Mirrored(f0, current) && Serves(f0, old(host.files), next)) ==>
                Restored(f0, host.files)
      ensures host.trouble.lostUndos == old(host.trouble).lostUndos ==>
                host.trouble.lateChmods == old(host.trouble).lateChmods
      ensures OthersKept(f0, host.files, next.id)
      ensures ResolverPart(host.files) == ResolverPart(old(host.files))
      ensures Grows(old(host.trouble), host.trouble) && host.trouble.lostDeletes == old(host.trouble).lostDeletes
    {
      hide LateLeft, Get, ResolverPart, Untouched, Canonical, Mirrored, Serves, Restored, OthersKept, SocketPath,
        NormalizeVersion, SiteFilesSame, PoolsKept, PoolFor, BackTo, SUPPORTED, Caddy.APPLIED, TrimSpace;
      CanonicalIsSupported(current);
      SupportedIsNamed(current.phpVersion);
      Reactivate(web, current, next, f0);
      ghost var f2 := host.files;
      if NormalizeVersion(current.phpVersion) != target.version {
        RollbackRuntime(current, target);
        AfterRollback(f0, f2, host.files, next.id);
        if Restored(f0, f2) && Untouched(f2, host.files) {
          RestoredThenUntouched(f0, f2, host.files);
        }
      }
    }

    /** Effects, then the registry; when only the registry refuses, the old site is activated again and the
        runtime switched back. */
    method Reconfigure(current: SiteRecord, next: SiteRecord, target: PhpRegistry.RuntimeRecord, now: int)
      returns (r: SiteResult)
      requires Wired() && Canonical(current) && Canonical(next) && next.phpVersion == target.version
      requires next.id == current.id && Has(sites.sites, next.id)
      modifies host, sites
      ensures r.Kept? ==> Persisted(old(sites.sites), sites.sites, next.(checkedAt := now), now, r)
      ensures r.Kept? ==> host.trouble == old(host.trouble)
      ensures r.Kept? && Mirrored(old(host.files), current) ==> Serves(old(host.files), host.files, r.record)
      ensures r.Kept? ==> host.calls == old(host.calls) + Script(current.phpVersion, target.version, target.service)
      ensures r.Refused? ==> sites.sites == old(sites.sites) && host.trouble.faults > old(host.trouble).faults
      ensures (r.Refused? && Clean(old(host.trouble), host.trouble) && Mirrored(old(host.files), current)) ==>
                Restored(old(host.files), host.files)
      ensures (!r.Kept? && host.trouble.lostUndos == old(host.trouble).lostUndos
               && host.trouble.lateChmods != old(host.trouble).lateChmods) ==>
                LateLeft(old(host.files), host.files, next)
      ensures OthersKept(old(host.files), host.files, next.id)
      ensures ResolverPart(host.files) == ResolverPart(old(host.files))
      ensures Grows(old(host.trouble), host.trouble) && host.trouble.lostDeletes == old(host.trouble).lostDeletes
    {
      hide LateLeft, Get, ResolverPart, Untouched, Canonical, Mirrored, Serves, Restored, OthersKept, Stored, IndexOf,
        Script, SocketPath, NormalizeVersion, SiteFilesSame, PoolsKept, OthersSame;
      ghost var f0 := host.files;
      CanonicalIsSupported(current);
      var applied := Apply(current, next, target);
      ghost var f1 := host.files;
      if !applied {
        if Untouched(f0, f1) {
          UntouchedIsRestored(f0, f1);
        }
        return Refused(HostFailure);
      }
      r := sites.Update(next.(checkedAt := now), now);
      if r.Kept? {
        if Serves(f0, f1, next) {
          SameConfig(f0, f1, next, r.record);
        }
        return;
      }
      BackOut(current, next, target, f0);
    }

    /** Updates a site. The registry stays canonical and free of duplicates whatever fails. When the host
        mirrored the registry, the request is either carried out, or, if every compensation took effect,
        leaves no trace in the registry or the site files. The stub and other sites are never touched. */
    method Update(input: UpdateInput, now: int) returns (r: SiteResult)
      requires Wired() && WellFormed(sites.sites) && PhpRegistry.InMatrix(runtimes.state)
      modifies host, sites
      ensures WellFormed(sites.sites)
      ensures r.Kept? ==>
                Carried(old(sites.sites), sites.sites, input, now, r.record) && host.trouble == old(host.trouble)
      ensures r.Kept? && old(Inv(Now())) ==> Changed(old(Now()), Now(), r.record)
      ensures r.Refused? ==> sites.sites == old(sites.sites)
      ensures (r.Refused? && Clean(old(host.trouble), host.trouble) && old(Inv(Now()))) ==> Undone(old(Now()), Now())
      ensures !Has(old(sites.sites), TrimSpace(input.siteId)) ==> r.Refused? && host.files == old(host.files)
      ensures r.Kept? ==> PhpRegistry.HasRuntime(runtimes.state, r.record.phpVersion)
      ensures r.Refused? && host.trouble.faults == old(host.trouble).faults ==>
                Justified(old(sites.sites), runtimes.state, input, r.reason)
      ensures r.Kept? ==>
                if SameHosting(old(sites.sites), r.record) then host.calls == old(host.calls)
                else exists rt | rt in runtimes.state.runtimes && rt.version in SUPPORTED ::
                       && rt.version == r.record.phpVersion
                       && host.calls == old(host.calls)
                                        + Script(VersionAt(old(sites.sites), r.record.id), rt.version, rt.service)
      ensures (r.Kept? && old(Inv(Now())) && VersionAt(old(sites.sites), r.record.id) != r.record.phpVersion) ==>
                Moved(old(host.files), host.files, r.record.id, r.record.phpVersion)
      ensures (r.Refused? && host.trouble.lostUndos == old(host.trouble).lostUndos
               && host.trouble.lateChmods != old(host.trouble).lateChmods) ==>
                exists next: SiteRecord | next.id == TrimSpace(input.siteId) && Canonical(next) ::
                  LateLeft(old(host.files), host.files, next)
      ensures OthersKept(old(host.files), host.files, TrimSpace(input.siteId))
      ensures ResolverPart(host.files) == ResolverPart(old(host.files))
      ensures Grows(old(host.trouble), host.trouble) && host.trouble.lostDeletes == old(host.trouble).lostDeletes
    {
      hide LateLeft, Get, ResolverPart, Canonical, Mirrored, Serves, Restored, OthersKept, Stored, IndexOf, Script,
        WellFormed, TrimSpace, NormalizeVersion, Follows, Unclaimed, Caddy.SitesAreImported, Undone, Untouched, Excused,
        Moved;
      ghost var w0 := Now();
      var id := TrimSpace(input.siteId);
      UndoneItself(w0, id);
      var got := sites.Get(id);
      if got.Refused? {
        return got;
      }
      var current := got.record;
      MemberIsCanonical(sites.sites, id);
      var plan := PrepareUpdatedSite(current, input);
      if plan.Rejected? {
        return Refused(plan.reason);
      }
      var next := plan.next;
      NextKeepsId(current, input, next);
      var phpChanged := NormalizeVersion(current.phpVersion) != plan.target.version;
      var configChanged := current.rootPath != next.rootPath || current.domain != next.domain || phpChanged;
      CanonicalIsSupported(current);
      SupportedIsNamed(current.phpVersion);
      if configChanged {
        r := Reconfigure(current, next, plan.target, now);
        if r.Refused? && Restored(w0.files, host.files) {
          RestoredIsUndone(w0, Now());
        }
      } else {
        r := sites.Update(next.(checkedAt := now), now);
        if r.Kept? && Mirrored(w0.files, current) {
          StaysServed(w0.files, current, r.record);
        }
      }
      if r.Kept? {
        StoredIsCarried(w0.sites, input, current, next, now, r.record);
        KeptIsMoved(w0, Now(), current, r.record);
      }
    }
  }

  /** The commands of an update, spelled out. */
  lemma ScriptIs(previous: string, version: string, service: string)
    requires version in SUPPORTED && service != "" && Bare(service, SPACES) && service != "caddy"
    ensures Script(previous, version, service) ==
            (if previous == version then []
             else [Call(DaemonReload, true), Call(FpmTest("/usr/sbin/php-fpm" + version), true),
                   Call(Restart(service), true)])
            + [Call(Start("caddy"), true), Call(Start(service), true),
               Call(CaddyValidate, true), Call(CaddyReload, true)]
  {
    hide SUPPORTED, Trim, RuntimeFor, Services.ToStart;
    AppliedIs(version, service);
    TrimBare(service, SPACES);
    Services.CaddyComesFirst(service);
    assert Services.Starts(["caddy", service]) == [Call(Start("caddy"), true), Call(Start(service), true)];
  }

  /** An update has no excuse exactly when its path is not blank, its domain is a `.test` domain, its version is
      registered, and no other site has its name or domain. */
  lemma UnexcusedExactly(sites: seq<SiteRecord>, runtimes: PhpRegistry.State, current: SiteRecord, input: UpdateInput)
    ensures var name := if input.rootPath.None? then current.name
                        else DeriveSiteName(LeadsTo(input.lookup, input.rootPath.value));
            var domain := if input.domain.None? then current.domain else Candidate(input.domain.value, name);
            (forall reason :: !Excused(sites, runtimes, current, input, reason)) <==>
            && (input.rootPath.None? || TrimSpace(input.rootPath.value) != "")
            && (input.domain.None? || IsTestDomain(domain))
            && !PhpRegistry.Missing(AskedVersion(current, input), runtimes)
            && Unclaimed(sites, {current.id}, name, domain)
  {
    hide TrimSpace, DeriveSiteName, NormalizeDomain, IsTestDomain, Candidate, Unclaimed, FirstClash, SortBy,
      PhpRegistry.Missing, AskedVersion;
    var name := if input.rootPath.None? then current.name
                else DeriveSiteName(LeadsTo(input.lookup, input.rootPath.value));
    var domain := if input.domain.None? then current.domain else Candidate(input.domain.value, name);
    if input.domain.Some? {
      DomainAccepted(input.domain.value, name);
    }
    SortedUnclaimed(sites, {current.id}, name, domain);
    NoClash(SortBy(DomainOf, sites), {current.id}, name, domain);
    var clash := FirstClash(SortBy(DomainOf, sites), {current.id}, name, domain);
    var parsed := if input.domain.None? then Domain(current.domain) else NormalizeDomain(input.domain.value, name);
    if !Unclaimed(sites, {current.id}, name, domain) && parsed.Domain? {
      assert Excused(sites, runtimes, current, input, clash.value);
    }
    if input.rootPath.Some? && TrimSpace(input.rootPath.value) == "" {
      assert Excused(sites, runtimes, current, input, InvalidPath);
    }
    if !parsed.Domain? {
      assert Excused(sites, runtimes, current, input, InvalidDomain(parsed));
    }
    if PhpRegistry.Missing(AskedVersion(current, input), runtimes) {
      assert Excused(sites, runtimes, current, input, RuntimeNotFound);
    }
  }

  /** The service of a version is that of its runtime's record, or, without one, the usual. */
  lemma ServiceForIs(runtimes: PhpRegistry.State, version: string)
    requires version in SUPPORTED && PhpRegistry.Consistent(runtimes)
    ensures forall r | r in runtimes.runtimes && r.version == version :: ServiceFor(runtimes, version) == r.service
    ensures !PhpRegistry.HasRuntime(runtimes, version) ==> ServiceFor(runtimes, version) == "php" + version + "-fpm"
  {
    hide SUPPORTED, NormalizeVersion, ServiceNameOf, PhpRegistry.Find, PhpRegistry.Accepted;
    SupportedFixed(version);
    NamesOfVersion(version);
    PhpRegistry.FindSome(runtimes.runtimes, version);
    PhpRegistry.StrictIsDistinct(runtimes.runtimes);
    forall r | r in runtimes.runtimes && r.version == version ensures ServiceFor(runtimes, version) == r.service {
      PhpRegistry.FindMember(runtimes.runtimes, r);
    }
  }
}
