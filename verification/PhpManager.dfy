/** The runtime switch saga: move one site to another PHP version, and compensate when a step fails. */
module PhpManager {
  import opened Text
  import opened Tokens
  import opened SiteNames
  import opened PhpVersions
  import opened HostModel
  import opened SiteRegistry
  import opened Worlds
  import opened Serving
  import opened SiteManagement
  import Caddy
  import Fpm
  import PhpRegistry

  /** The registry after a switch: the site's record has the version, and nothing else of it changed but its
      update time; when it had the version already, nothing changed at all. */
  ghost predicate Switched(a: seq<SiteRecord>, b: seq<SiteRecord>, id: string, version: string, now: int,
                           rec: SiteRecord) {
    && Has(a, id)
    && var i := IndexOf(a, id);
    && rec == (if a[i].phpVersion == version then a[i] else a[i].(phpVersion := version, updatedAt := now))
    && b == a[i := rec]
  }

  /** A record clashes with no other record of a registry without duplicates. */
  lemma SelfUnclaimed(sites: seq<SiteRecord>, site: SiteRecord)
    requires WellFormed(sites) && site in sites
    ensures Unclaimed(sites, {site.id}, site.name, site.domain)
  {
    hide Canonical, Unclaimed;
    UnclaimedIsDistinct(sites, {site.id}, site);
    var k :| 0 <= k < |sites| && sites[k] == site;
    forall s | s in sites && s.id != site.id ensures s.name != site.name && s.domain != site.domain {
      var i :| 0 <= i < |sites| && sites[i] == s;
      if i < k {
        assert sites[i].name != sites[k].name && sites[i].domain != sites[k].domain;
      } else {
        assert sites[k].name != sites[i].name && sites[k].domain != sites[i].domain;
      }
    }
  }

  /** Asking for the version a site already has changes nothing. */
  lemma Unswitched(w: World, id: string, now: int)
    requires Has(w.sites, id)
    ensures var site := w.sites[IndexOf(w.sites, id)];
            && Switched(w.sites, w.sites, id, site.phpVersion, now, site)
            && (Inv(w) ==> Changed(w, w, site))
  {
    hide Canonical, Mirrored, IndexOf, Caddy.SitesAreImported;
    var i := IndexOf(w.sites, id);
    var site := w.sites[i];
    assert w.sites[i := site] == w.sites;
    if Inv(w) {
      assert site in w.sites && Canonical(site) && Mirrored(w.files, site);
      SelfUnclaimed(w.sites, site);
      StaysServed(w.files, site, site);
    }
  }

  lemma SwitchIsCanonical(sites: seq<SiteRecord>, id: string, version: string, now: int)
    requires WellFormed(sites) && Has(sites, id) && version in SUPPORTED
    ensures var site := sites[IndexOf(sites, id)];
            var updated := site.(phpVersion := version);
            var rec := Stamped(site, updated, now);
            && Canonical(updated) && Canonical(rec) && Has(sites, updated.id)
            && Unclaimed(sites, {id}, rec.name, rec.domain)
            && Stored(sites, updated, now) == sites[IndexOf(sites, id) := rec]
            && IndexOf(sites, rec.id) == IndexOf(sites, id)
            && WellFormed(sites[IndexOf(sites, id) := rec])
  {
    hide IsRecordId, DeriveSiteName, IsTestDomain, Unclaimed, WellFormed, IndexOf, Distinct;
    MemberIsCanonical(sites, id);
    var site := sites[IndexOf(sites, id)];
    SelfUnclaimed(sites, site);
    var rec := Stamped(site, site.(phpVersion := version), now);
    assert Canonical(rec);
    ReplacedIsWellFormed(sites, rec);
  }

  /** Materialising a version with its usual service ends in a restart of that service. */
  lemma BackRestarts(calls: seq<Call>, version: string)
    requires version in SUPPORTED && EndsWith(calls, Fpm.Applied(RuntimeFor(version, ServiceNameOf(version))))
    ensures RestartedLast(calls, ServiceNameOf(version))
  {
    hide TrimSpace, ServiceNameOf, SocketPath, AdapterVersion;
    RuntimeOfSupported(version, ServiceNameOf(version));
    ServiceIsNamed(version);
    assert RuntimeFor(version, ServiceNameOf(version)).service == ServiceNameOf(version);
  }

  class Manager {
    const host: Host
    const sites: Registry
    const runtimes: PhpRegistry.Registry
    const web: Caddy.Manager
    const php: Fpm.Manager

    ghost predicate Wired() {
      sites.host == runtimes.host == web.host == php.host == host
    }

    constructor (host: Host, sites: Registry, runtimes: PhpRegistry.Registry)
      requires sites.host == host && runtimes.host == host
      ensures Wired() && this.host == host && this.sites == sites && this.runtimes == runtimes
    {
      this.host, this.sites, this.runtimes := host, sites, runtimes;
      web := new Caddy.Manager(host);
      php := new Fpm.Manager(host);
    }

    ghost function Now(): World
      reads host, sites
    {
      World(sites.sites, host.files)
    }

    /** The site on top of the switched runtime. When it is refused, the last thing that happens is that the
        previous version is materialised and its usual service restarted. */
    method ServeOrSwitchBack(site: SiteRecord, updated: SiteRecord, target: PhpRegistry.RuntimeRecord, socket: string,
                             ghost f0: Files) returns (ok: bool)
      requires Wired() && Canonical(site) && Canonical(updated) && updated == site.(phpVersion := target.version)
      requires socket == SocketPath(target.version) && OthersKept(f0, host.files, site.id)
      modifies host
      ensures ok ==> host.trouble == old(host.trouble) && host.calls == old(host.calls) + Caddy.APPLIED
      ensures ok && Ready(f0, old(host.files), updated) ==> Serves(f0, host.files, updated)
      ensures !ok && Clean(old(host.trouble), host.trouble) && Untouched(f0, old(host.files)) ==>
                Untouched(f0, host.files)
      ensures !ok && host.trouble.faults == old(host.trouble).faults + 1 ==>
                && EndsWith(host.calls, Fpm.Applied(RuntimeFor(site.phpVersion, ServiceNameOf(site.phpVersion))))
                && Get(host.files, FpmPool(site.phpVersion)) == Some(PoolFor(site.phpVersion))
      ensures !ok ==> host.trouble.faults > old(host.trouble).faults
      ensures (!ok && host.trouble.lostUndos == old(host.trouble).lostUndos
               && host.trouble.lateChmods != old(host.trouble).lateChmods && Untouched(f0, old(host.files))) ==>
                LateLeft(f0, host.files, updated)
      ensures OthersKept(f0, host.files, site.id)
      ensures ResolverPart(host.files) == ResolverPart(old(host.files))
      ensures Grows(old(host.trouble), host.trouble) && host.trouble.lostDeletes == old(host.trouble).lostDeletes
    {
      hide LateLeft, Get, ResolverPart, Untouched, SiteFilesSame, PoolsKept, RuntimeFor, PoolFor, Canonical, Serves,
        SocketPath, OthersKept, OthersSame, ServiceNameOf;
      ghost var f1 := host.files;
      CanonicalIsSupported(site);
      CanonicalIsSupported(updated);
      ok := ActivateRecord(web, updated, socket, f0);
      ghost var f2 := host.files;
      OthersElsewhere(f0, f1, f2, site.id);
      if !ok {
        var back, _ := SwitchFor(php, target.service, site.phpVersion, ServiceNameOf(site.phpVersion));
        AfterRollback(f0, f2, host.files, site.id);
        if LateLeft(f1, f2, updated) && Untouched(f0, f1) && Untouched(f2, host.files) {
          LateLeftAmid(f0, f1, f2, host.files, updated);
        }
      }
    }

    /** Runtime, then site; when the site is refused, the previous version is materialised again. */
    method Apply(site: SiteRecord, updated: SiteRecord, target: PhpRegistry.RuntimeRecord) returns (ok: bool)
      requires Wired() && Canonical(site) && Canonical(updated)
      requires updated == site.(phpVersion := target.version)
      modifies host
      ensures ok ==> host.trouble == old(host.trouble) && Serves(old(host.files), host.files, updated)
      ensures ok ==>
                host.calls == old(host.calls) + Fpm.Applied(RuntimeFor(target.version, target.service)) + Caddy.APPLIED
      ensures !ok && Clean(old(host.trouble), host.trouble) ==> Untouched(old(host.files), host.files)
      ensures !ok && host.trouble.faults == old(host.trouble).faults + 1 ==>
                RestartedLast(host.calls, ServiceNameOf(site.phpVersion))
      ensures !ok ==> host.trouble.faults > old(host.trouble).faults
      ensures (!ok && host.trouble.lostUndos == old(host.trouble).lostUndos
               && host.trouble.lateChmods != old(host.trouble).lateChmods) ==>
                LateLeft(old(host.files), host.files, updated)
      ensures OthersKept(old(host.files), host.files, site.id)
      ensures ResolverPart(host.files) == ResolverPart(old(host.files))
      ensures Grows(old(host.trouble), host.trouble) && host.trouble.lostDeletes == old(host.trouble).lostDeletes
    {
      hide LateLeft, Get, ResolverPart, Untouched, SiteFilesSame, PoolsKept, RuntimeFor, PoolFor, Canonical, Serves,
        SocketPath, OthersKept, OthersSame, ServiceNameOf;
      ghost var f0 := host.files;
      ServiceIsNamed(site.phpVersion);
      CanonicalIsSupported(site);
      CanonicalIsSupported(updated);
      UntouchedItself(f0, site.id);
      var switched, socket := SwitchFor(php, ServiceNameOf(site.phpVersion), target.version, target.service);
      ghost var f1 := host.files;
      SameSitesElsewhere(f0, f1, site.id);
      if !switched {
        return false;
      }
      ok := ServeOrSwitchBack(site, updated, target, socket, f0);
      if EndsWith(host.calls, Fpm.Applied(RuntimeFor(site.phpVersion, ServiceNameOf(site.phpVersion)))) {
        BackRestarts(host.calls, site.phpVersion);
      }
    }

    /** Compensation of a refused update: activate the old record, then restart the service of its version. */
    method BackOut(site: SiteRecord, updated: SiteRecord, ghost f0: Files)
      requires Wired() && Canonical(site) && updated.id == site.id
      requires OthersKept(f0, host.files, site.id)
      modifies host
      ensures (Clean(old(host.trouble), host.trouble) && Mirrored(f0, site) && Serves(f0, old(host.files), updated)) ==>
                Restored(f0, host.files)
      ensures host.trouble.faults == old(host.trouble).faults ==>
                exists restarted :: host.calls == old(host.calls) + Caddy.APPLIED
                                      + [Call(Restart(ServiceFor(runtimes.state, site.phpVersion)), restarted)]
      ensures host.trouble.lostUndos == old(host.trouble).lostUndos ==>
                host.trouble.lateChmods == old(host.trouble).lateChmods
      ensures OthersKept(f0, host.files, site.id)
      ensures ResolverPart(host.files) == ResolverPart(old(host.files))
      ensures Grows(old(host.trouble), host.trouble) && host.trouble.lostDeletes == old(host.trouble).lostDeletes
    {
      hide LateLeft, Get, ResolverPart, Canonical, Mirrored, Serves, Restored, OthersKept, ServiceFor;
      ghost var calls0, t0 := host.calls, host.trouble;
      Reactivate(web, site, updated, f0);
      var service := FormerService(runtimes, site.phpVersion);
      var restarted := host.RunQuietly(Restart(service));
      if host.trouble.faults == t0.faults {
        var last := Call(Restart(ServiceFor(runtimes.state, site.phpVersion)), restarted);
        assert host.calls == calls0 + Caddy.APPLIED + [last];
      }
    }

    /** Switches a site to a registered version. The registry stays canonical and free of duplicates whatever
        fails; the request is either carried out, or, if the host mirrored the registry and every
        compensation took effect, leaves no trace in the registry or the site files. */
    method SwitchSiteRuntime(siteId: string, version: string, now: int) returns (r: SiteResult)
      requires Wired() && WellFormed(sites.sites) && PhpRegistry.InMatrix(runtimes.state)
      modifies host, sites
      ensures WellFormed(sites.sites)
      ensures r.Kept? ==> Switched(old(sites.sites), sites.sites, siteId, NormalizeVersion(version), now, r.record)
      ensures r.Kept? ==>
                host.trouble == old(host.trouble) && PhpRegistry.HasRuntime(runtimes.state, r.record.phpVersion)
      ensures r.Kept? && old(Inv(Now())) ==> Changed(old(Now()), Now(), r.record)
      ensures (r.Kept? && old(Inv(Now())) && VersionAt(old(sites.sites), siteId) != r.record.phpVersion) ==>
                Moved(old(host.files), host.files, siteId, r.record.phpVersion)
      ensures r.Refused? ==> sites.sites == old(sites.sites)
      ensures (r.Refused? && Clean(old(host.trouble), host.trouble) && old(Inv(Now()))) ==> Undone(old(Now()), Now())
      ensures r.Refused? && host.trouble.faults == old(host.trouble).faults ==>
                || (r.reason.SiteNotFound? && !Has(sites.sites, siteId))
                || (r.reason.RuntimeNotFound?
                    && PhpRegistry.Find(runtimes.state.runtimes, NormalizeVersion(version)).None?)
      ensures !Has(old(sites.sites), siteId) ==> r.Refused? && host.files == old(host.files)
      ensures r.Kept? ==>
                || (host.calls == old(host.calls) && sites.sites == old(sites.sites))
                || exists rt | rt in runtimes.state.runtimes && rt.version in SUPPORTED ::
                     && rt.version == r.record.phpVersion
                     && host.calls == old(host.calls) + Fpm.Applied(RuntimeFor(rt.version, rt.service)) + Caddy.APPLIED
      ensures (r.Refused? && host.trouble.lostUndos == old(host.trouble).lostUndos
               && host.trouble.lateChmods != old(host.trouble).lateChmods) ==>
                exists next: SiteRecord | next.id == siteId && Canonical(next) ::
                  LateLeft(old(host.files), host.files, next)
      ensures OthersKept(old(host.files), host.files, siteId)
      ensures ResolverPart(host.files) == ResolverPart(old(host.files))
      ensures Grows(old(host.trouble), host.trouble) && host.trouble.lostDeletes == old(host.trouble).lostDeletes
    {
      hide LateLeft, Get, ResolverPart, Canonical, Mirrored, Serves, Restored, OthersKept, Stored, IndexOf, WellFormed,
        NormalizeVersion, Unclaimed, Caddy.SitesAreImported, Undone, Untouched, RuntimeFor, PhpRegistry.Find, Moved;
      ghost var w0 := Now();
      UndoneItself(w0, siteId);
      var got := sites.Get(siteId);
      if got.Refused? {
        return got;
      }
      var site := got.record;
      MemberIsCanonical(sites.sites, siteId);
      var found := runtimes.Get(version);
      PhpRegistry.FindSome(runtimes.state.runtimes, NormalizeVersion(version));
      if !found.Found? {
        return Refused(if found.NotFound? then RuntimeNotFound else StoreFailure);
      }
      var target := found.record;
      if site.phpVersion == target.version {
        Unswitched(w0, siteId, now);
        return Kept(site);
      }
      var updated := site.(phpVersion := target.version);
      SwitchIsCanonical(w0.sites, siteId, target.version, now);
      var applied := Apply(site, updated, target);
      ghost var f1 := host.files;
      if !applied {
        if Untouched(w0.files, f1) {
          UntouchedIsRestored(w0.files, f1);
          RestoredIsUndone(w0, Now());
        }
        return Refused(HostFailure);
      }
      r := sites.Update(updated, now);
      if r.Kept? {
        SameConfig(w0.files, f1, updated, r.record);
        KeptIsMoved(w0, Now(), site, r.record);
        return;
      }
      BackOut(site, updated, w0.files);
      if Restored(w0.files, host.files) {
        RestoredIsUndone(w0, Now());
      }
    }
  }
}
