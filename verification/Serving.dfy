/** The adapter calls of the sagas, summed up: what they do to the files of a record and of everybody else. */
module Serving {
  import opened Text
  import opened Tokens
  import opened SiteNames
  import opened RootImport
  import opened PhpVersions
  import opened CaddyConfig
  import opened HostModel
  import opened SiteRegistry
  import opened Worlds
  import Caddy
  import Fpm

  // ---- How the adapters' effects compose ----

  /** Site files and root as before, pools as before or proper. */
  ghost predicate Untouched(a: Files, b: Files) {
    SiteFilesSame(a, b) && PoolsKept(a, b) && Get(b, CaddyRoot) == Get(a, CaddyRoot)
  }

  lemma UntouchedTransitive(a: Files, b: Files, c: Files)
    requires Untouched(a, b) && Untouched(b, c)
    ensures Untouched(a, c)
  {
    hide Get, PoolFor;
    forall v: string ensures Get(c, FpmPool(v)) == Get(a, FpmPool(v)) || Get(c, FpmPool(v)) == Some(PoolFor(v)) {
      assert Get(c, FpmPool(v)) == Get(b, FpmPool(v)) || Get(c, FpmPool(v)) == Some(PoolFor(v));
    }
    forall t: string ensures Get(c, CaddySite(t)) == Get(a, CaddySite(t)) {
      assert Get(c, CaddySite(t)) == Get(b, CaddySite(t));
    }
  }

  lemma StubOnly(a: Files, b: Files)
    requires SameBut(a, b, {STUB})
    ensures Untouched(a, b)
  {
    hide Get, PoolFor;
  }

  /** A materialisation of a supported version. */
  lemma FpmOnly(a: Files, b: Files, version: string, service: string, t0: Trouble, t: Trouble, ok: bool)
    requires version in SUPPORTED
    requires Fpm.Outcome(a, b, HostRuntime(version, service), t0, t, ok)
    ensures t.lostUndos == t0.lostUndos ==> Untouched(a, b)
    ensures ok ==> Get(b, FpmPool(version)) == Some(PoolFor(version))
    ensures ok <==> t.faults == t0.faults
    ensures PoolsKept(a, b)
    ensures SiteFilesSame(a, b) && Get(b, CaddyRoot) == Get(a, CaddyRoot)
    ensures ResolverPart(b) == ResolverPart(a)
  {
    hide Get, Put, RenderPool, RenderOverride, SocketPath, Fpm.NormalizeRuntime, ResolverPart;
    RuntimeOfSupported(version, service);
    var r := Fpm.NormalizeRuntime(HostRuntime(version, service)).value;
    var pool := Some(RenderPool(r.socket));
    GetPut(a, FpmPool(r.version), pool);
    GetPut(Put(a, FpmPool(r.version), pool), FpmOverride(r.service), Some(RenderOverride()));
    ResolverUntouched(a, b, {FpmPool(r.version), FpmOverride(r.service)});
  }

  lemma PoolsSince(f0: Files, f: Files, g: Files)
    requires PoolsKept(f0, f) && forall v: string :: Get(g, FpmPool(v)) == Get(f, FpmPool(v))
    ensures PoolsKept(f0, g)
  {
    hide Get, PoolFor;
    forall v: string ensures Get(g, FpmPool(v)) == Get(f0, FpmPool(v)) || Get(g, FpmPool(v)) == Some(PoolFor(v)) {
      assert Get(g, FpmPool(v)) == Get(f, FpmPool(v));
    }
  }

  /** A completed activation on top of a proper pool serves the record. */
  lemma WebDone(f0: Files, f: Files, rec: SiteRecord)
    requires Canonical(rec) && Untouched(f0, f) && Get(f, FpmPool(rec.phpVersion)) == Some(PoolFor(rec.phpVersion))
    ensures var g := Caddy.Activated(f, NormalizeSite(WebSiteOf(rec, SocketPath(rec.phpVersion))));
            Serves(f0, g, rec) && Get(g, STUB) == Get(f, STUB)
  {
    hide Get, Put, RenderSite, SiteToken, NormalizeSite, WebSiteOf, EnsureImport, ConfigFor, PoolFor, SocketPath,
      Canonical, PoolsKept;
    var site := NormalizeSite(WebSiteOf(rec, SocketPath(rec.phpVersion)));
    SiteOfCanonical(rec);
    GetPut(f, CaddyRoot, Caddy.EnsuredRoot(f));
    GetPut(Put(f, CaddyRoot, Caddy.EnsuredRoot(f)), CaddySite(rec.id), Some(RenderSite(site)));
    PoolsSince(f0, f, Caddy.Activated(f, site));
  }

  /** Removing the site again, and the stub or not, leaves an undone world. */
  lemma RollbackUndoes(f0: Files, fs: Files, fb: Files, rec: SiteRecord)
    requires Serves(f0, fs, rec) && Get(f0, CaddySite(rec.id)).None?
    requires SameBut(Caddy.Removed(fs, rec.id), fb, {STUB})
    ensures SiteFilesSame(f0, fb) && PoolsKept(f0, fb) && RootKept(f0, fb)
  {
    hide Get, Put, EnsureImport, RemoveImport, ConfigFor, PoolFor, Caddy.NoSites;
    var g := Put(fs, CaddySite(rec.id), None);
    GetPut(fs, CaddySite(rec.id), None);
    GetPut(g, CaddyRoot, RemoveImport(Get(g, CaddyRoot)).content);
    var h := Caddy.Removed(fs, rec.id);
    assert SiteFilesSame(f0, g);
    assert SiteFilesSame(g, h) && SiteFilesSame(h, fb);
    SameSitesPresent(g, fb);
    SameSitesPresent(f0, g);
    forall v: string ensures Get(fb, FpmPool(v)) == Get(f0, FpmPool(v)) || Get(fb, FpmPool(v)) == Some(PoolFor(v)) {
      assert Get(fb, FpmPool(v)) == Get(fs, FpmPool(v));
    }
  }

  lemma SiteFilesTransitive(a: Files, b: Files, c: Files)
    requires SiteFilesSame(a, b) && SiteFilesSame(b, c)
    ensures SiteFilesSame(a, c)
  {
    hide Get;
    forall t: string ensures Get(c, CaddySite(t)) == Get(a, CaddySite(t)) {
      assert Get(c, CaddySite(t)) == Get(b, CaddySite(t));
    }
  }

  /** Nothing went wrong but forward steps and restores. */
  ghost predicate OnlyUndos(t0: Trouble, t: Trouble) {
    Grows(t0, t) && t.lateChmods == t0.lateChmods && t.lostDeletes == t0.lostDeletes
  }

  /** Site files other than one's own, pools and the stub stay. */
  ghost predicate OthersSame(a: Files, b: Files, id: string) {
    && (forall t: string | t != id :: Get(b, CaddySite(t)) == Get(a, CaddySite(t)))
    && (forall v: string :: Get(b, FpmPool(v)) == Get(a, FpmPool(v)))
    && ResolverPart(b) == ResolverPart(a)
  }

  /** Site files other than one's own are as before, and every pool file is as before or proper. */
  ghost predicate OthersKept(a: Files, b: Files, id: string) {
    (forall t: string | t != id :: Get(b, CaddySite(t)) == Get(a, CaddySite(t))) && PoolsKept(a, b)
  }

  lemma PoolsTransitive(a: Files, b: Files, c: Files)
    requires PoolsKept(a, b) && PoolsKept(b, c)
    ensures PoolsKept(a, c)
  {
    hide Get, PoolFor;
    forall v: string ensures Get(c, FpmPool(v)) == Get(a, FpmPool(v)) || Get(c, FpmPool(v)) == Some(PoolFor(v)) {
      assert Get(c, FpmPool(v)) == Get(b, FpmPool(v)) || Get(c, FpmPool(v)) == Some(PoolFor(v));
    }
  }

  /** Every other record that the host mirrored is mirrored still. */
  lemma OthersStayMirrored(a: Files, b: Files, id: string, rec: SiteRecord)
    requires OthersKept(a, b, id) && rec.id != id && Mirrored(a, rec)
    ensures Mirrored(b, rec)
  {
    hide Get, ConfigFor, PoolFor, PoolsKept;
    PoolStays(a, b, rec);
  }

  function RuntimeFor(version: string, service: string): Fpm.Runtime
    requires version in SUPPORTED
  {
    RuntimeOfSupported(version, service);
    Fpm.NormalizeRuntime(HostRuntime(version, service)).value
  }

  /** What materialising a supported version does, for all files at once. */
  ghost predicate Pooled(a: Files, b: Files, version: string, t0: Trouble, t: Trouble, ok: bool) {
    && (ok <==> t.faults == t0.faults)
    && (ok ==> t == t0 && Get(b, FpmPool(version)) == Some(PoolFor(version)))
    && (ok || t.lostUndos == t0.lostUndos ==> Untouched(a, b))
    && SiteFilesSame(a, b) && PoolsKept(a, b) && ResolverPart(b) == ResolverPart(a)
    && OnlyUndos(t0, t)
  }

  method MaterializeFor(php: Fpm.Manager, version: string, service: string) returns (ok: bool, socket: string)
    requires version in SUPPORTED
    modifies php.host
    ensures Pooled(old(php.host.files), php.host.files, version, old(php.host.trouble), php.host.trouble, ok)
    ensures ok ==> socket == SocketPath(version)
    ensures old(php.host.calls) <= php.host.calls
    ensures ok ==> php.host.calls == old(php.host.calls) + Fpm.Applied(RuntimeFor(version, service))
  {
    hide Get, SocketPath, PoolFor, Untouched, SiteFilesSame, PoolsKept, Fpm.NormalizeRuntime, Fpm.Materialized,
      Fpm.Touched, Fpm.Unserved, Fpm.Configured;
    ghost var f0, t0 := php.host.files, php.host.trouble;
    ok, socket := php.MaterializeRuntime(HostRuntime(version, service));
    FpmOnly(f0, php.host.files, version, service, t0, php.host.trouble, ok);
    RuntimeOfSupported(version, service);
  }

  method SwitchFor(php: Fpm.Manager, previousService: string, version: string, service: string)
    returns (ok: bool, socket: string)
    requires version in SUPPORTED
    modifies php.host
    ensures Pooled(old(php.host.files), php.host.files, version, old(php.host.trouble), php.host.trouble, ok)
    ensures ok ==> socket == SocketPath(version)
    ensures !ok && TrimSpace(previousService) != "" ==> RestartedLast(php.host.calls, previousService)
    ensures ok ==> php.host.calls == old(php.host.calls) + Fpm.Applied(RuntimeFor(version, service))
  {
    hide Get, SocketPath, PoolFor, Untouched, SiteFilesSame, PoolsKept, Fpm.NormalizeRuntime, Fpm.Materialized,
      Fpm.Touched, Fpm.Unserved, Fpm.Configured, TrimSpace;
    ghost var f0, t0 := php.host.files, php.host.trouble;
    ok, socket := php.SwitchRuntime(previousService, HostRuntime(version, service));
    FpmOnly(f0, php.host.files, version, service, t0, php.host.trouble, ok);
    RuntimeOfSupported(version, service);
  }

  /** The record's pool is proper, and nothing but pools was changed since `f0`. */
  ghost predicate Ready(f0: Files, f: Files, rec: SiteRecord) {
    Untouched(f0, f) && Get(f, FpmPool(rec.phpVersion)) == Some(PoolFor(rec.phpVersion))
  }

  /** What a write that failed late leaves of an activation, restores aside: the root file ensured, or the
      record's own site file written. */
  ghost predicate LateLeft(a: Files, b: Files, rec: SiteRecord) {
    && OthersKept(a, b, rec.id)
    && (|| (Get(b, CaddySite(rec.id)) == Get(a, CaddySite(rec.id))
            && EnsureImport(Get(a, CaddyRoot)).changed && Get(b, CaddyRoot) == Caddy.EnsuredRoot(a))
        || (Get(b, CaddySite(rec.id)) == Some(ConfigFor(rec)) && Get(b, CaddyRoot) == Get(a, CaddyRoot)))
  }

  lemma OwnFiles(a: Files, b: Files, id: string)
    requires SameBut(a, b, {CaddyRoot, CaddySite(id)})
    ensures OthersKept(a, b, id)
  {
    hide Get, PoolFor;
  }

  lemma LateIsLeft(a: Files, b: Files, rec: SiteRecord)
    requires Canonical(rec)
    requires Caddy.LeftByLateChmod(a, b, NormalizeSite(WebSiteOf(rec, SocketPath(rec.phpVersion))))
    ensures LateLeft(a, b, rec)
  {
    hide Get, Put, RenderSite, SiteToken, NormalizeSite, WebSiteOf, EnsureImport, ConfigFor, OthersKept, SocketPath,
      Canonical, Caddy.EnsuredRoot;
    var site := NormalizeSite(WebSiteOf(rec, SocketPath(rec.phpVersion)));
    SiteOfCanonical(rec);
    GetPut(a, CaddyRoot, Caddy.EnsuredRoot(a));
    GetPut(a, CaddySite(rec.id), Some(RenderSite(site)));
    OwnFiles(a, b, rec.id);
  }

  /** What is left stays left by steps that touch neither site files nor the root file. */
  lemma LateLeftAmid(a: Files, b: Files, c: Files, d: Files, rec: SiteRecord)
    requires Untouched(a, b) && LateLeft(b, c, rec) && Untouched(c, d)
    ensures LateLeft(a, d, rec)
  {
    hide Get, PoolsKept, ConfigFor, EnsureImport;
    PoolsTransitive(a, b, c);
    PoolsTransitive(a, c, d);
    forall t: string | t != rec.id ensures Get(d, CaddySite(t)) == Get(a, CaddySite(t)) {
      assert Get(c, CaddySite(t)) == Get(b, CaddySite(t));
      assert Get(d, CaddySite(t)) == Get(c, CaddySite(t));
    }
    assert Get(b, CaddySite(rec.id)) == Get(a, CaddySite(rec.id));
    assert Get(d, CaddySite(rec.id)) == Get(c, CaddySite(rec.id));
  }

  /** Activates a record's site; over a proper pool, the host then serves it. `f0` are files that differ from
      the present ones by proper pools only. */
  method ActivateRecord(web: Caddy.Manager, rec: SiteRecord, socket: string, ghost f0: Files) returns (ok: bool)
    requires Canonical(rec) && socket == SocketPath(rec.phpVersion)
    modifies web.host
    ensures ok <==> web.host.trouble.faults == old(web.host.trouble).faults
    ensures ok ==> web.host.trouble == old(web.host.trouble)
    ensures ok && Ready(f0, old(web.host.files), rec) ==> Serves(f0, web.host.files, rec)
    ensures old(web.host.calls) <= web.host.calls
    ensures ok ==> web.host.calls == old(web.host.calls) + Caddy.APPLIED
    ensures !ok && Clean(old(web.host.trouble), web.host.trouble) ==> web.host.files == old(web.host.files)
    ensures (!ok && web.host.trouble.lostUndos == old(web.host.trouble).lostUndos
             && web.host.trouble.lateChmods != old(web.host.trouble).lateChmods) ==>
              LateLeft(old(web.host.files), web.host.files, rec)
    ensures OthersSame(old(web.host.files), web.host.files, rec.id)
    ensures Grows(old(web.host.trouble), web.host.trouble)
    ensures web.host.trouble.lostDeletes == old(web.host.trouble).lostDeletes
  {
    hide TrimSpace, Get, SocketPath, PoolFor, Untouched, Serves, Canonical, WebSiteOf, NormalizeSite, SiteToken,
      Complete, Caddy.Activated, Caddy.LeftByLateChmod, Caddy.Rejected, ResolverPart, LateLeft;
    SiteOfCanonical(rec);
    if Ready(f0, web.host.files, rec) {
      WebDone(f0, web.host.files, rec);
    }
    ghost var f := web.host.files;
    ok := web.ActivateSite(WebSiteOf(rec, socket));
    ResolverUntouched(f, web.host.files, {CaddyRoot, CaddySite(rec.id)});
    if Caddy.LeftByLateChmod(f, web.host.files, NormalizeSite(WebSiteOf(rec, socket))) {
      LateIsLeft(f, web.host.files, rec);
    }
  }

  /** Time stamps do not show in the configuration. */
  lemma SameConfig(a: Files, b: Files, rec: SiteRecord, next: SiteRecord)
    requires Serves(a, b, rec)
    requires next.id == rec.id && next.domain == rec.domain
    requires next.rootPath == rec.rootPath && next.phpVersion == rec.phpVersion
    ensures Serves(a, b, next)
  {
    hide PoolFor, RenderSite, Get, SocketPath, Caddy.EnsuredRoot, Caddy.NoSites;
  }

  function FirstRecord(id: string, root: string, version: string, now: int): SiteRecord {
    SiteRecord(id, DeriveSiteName(root), root, DeriveSiteName(root) + TLD, version, now, now, now)
  }

  lemma FirstIsCanonical(id: string, root: string, version: string, now: int)
    requires IsRecordId(id) && Absolute(root) && version in SUPPORTED
    ensures Canonical(FirstRecord(id, root, version, now))
  {
    hide IsRecordId, DeriveSiteName, NormalizeDomain, IsTestDomain, Candidate, Trim;
    var name := DeriveSiteName(root);
    TrimBare("", SPACES);
    DerivedNameRegisters("", root);
    DomainAccepted("", name);
  }

  lemma NoFile(f: Files, id: string)
    requires Caddy.NoSites(f)
    ensures Get(f, CaddySite(id)).None?
  {}

  lemma NothingServed(f: Files)
    requires Caddy.NoSites(f)
    ensures Inv(World([], f))
  {}

  /** Any project can be the first site: its derived name and domain are canonical, and a completed
      activation leads from the empty registry to a world in which the host mirrors it. */
  lemma FirstSiteIsServed(f: Files, id: string, root: string, version: string, now: int)
    requires Caddy.NoSites(f) && IsRecordId(id) && Absolute(root) && version in SUPPORTED
    ensures var rec := FirstRecord(id, root, version, now);
            var ready := Put(f, FpmPool(version), Some(PoolFor(version)));
            var g := Caddy.Activated(ready, NormalizeSite(WebSiteOf(rec, SocketPath(version))));
            Added(World([], f), World([rec], g), rec) && Inv(World([rec], g))
  {
    hide Get, Put, PoolFor, Canonical, Serves, IsRecordId, WebSiteOf, NormalizeSite, Caddy.Activated, SocketPath, Inv,
      DeriveSiteName;
    var rec := FirstRecord(id, root, version, now);
    FirstIsCanonical(id, root, version, now);
    var ready := Put(f, FpmPool(version), Some(PoolFor(version)));
    GetPut(f, FpmPool(version), Some(PoolFor(version)));
    WebDone(f, ready, rec);
    var g := Caddy.Activated(ready, NormalizeSite(WebSiteOf(rec, SocketPath(version))));
    assert Get(f, CaddySite(id)).None? by { NoFile(f, id); }
    assert World([], f).sites + [rec] == [rec];
    NothingServed(f);
    AddedKeepsInv(World([], f), World([rec], g), rec);
  }

  // ---- What late writes do to the mirror ----

  lemma LateRoot(a: Files, b: Files, rec: SiteRecord)
    requires LateLeft(a, b, rec)
    ensures Caddy.Imported(a) ==> Caddy.Imported(b)
    ensures Get(b, CaddySite(rec.id)) != Get(a, CaddySite(rec.id)) ==> (Caddy.Imported(b) <==> Caddy.Imported(a))
    ensures Get(b, CaddySite(rec.id)) == Get(a, CaddySite(rec.id)) ==> SiteFilesSame(a, b)
  {
    hide Get, ConfigFor, PoolsKept, Contains, EnsureImport;
    EnsureIdempotent(Get(a, CaddyRoot));
  }

  lemma SomeSite(f: Files, id: string)
    requires Get(f, CaddySite(id)).Some?
    ensures !Caddy.NoSites(f)
  {}

  lemma LateOthers(a: Files, b: Files, rec: SiteRecord, other: SiteRecord)
    requires LateLeft(a, b, rec) && other.id != rec.id && Mirrored(a, other)
    ensures Mirrored(b, other)
  {
    hide OthersKept, Mirrored;
    OthersStayMirrored(a, b, rec.id, other);
  }

  lemma LateSiteIsThere(a: Files, b: Files, rec: SiteRecord)
    requires LateLeft(a, b, rec) && Get(b, CaddySite(rec.id)) != Get(a, CaddySite(rec.id))
    ensures Get(b, CaddySite(rec.id)) == Some(ConfigFor(rec))
  {
    hide OthersKept, ConfigFor, Get;
  }

  /** A late write of a refused activation keeps the invariant exactly when the sites on the host are imported
      afterwards: always if the root file had the import before, and, if the site file is what was left, only
      then. */
  lemma LateActivationKeepsInv(a: World, b: World, rec: SiteRecord)
    requires Inv(a) && b.sites == a.sites && !Has(a.sites, rec.id) && LateLeft(a.files, b.files, rec)
    ensures Inv(b) <==> Caddy.SitesAreImported(b.files)
    ensures Caddy.Imported(a.files) ==> Inv(b)
    ensures Get(b.files, CaddySite(rec.id)) != Get(a.files, CaddySite(rec.id)) ==> (Inv(b) <==> Caddy.Imported(a.files))
  {
    hide Get, Mirrored, LateLeft, WellFormed, Caddy.Imported, Has, Caddy.NoSites, ConfigFor;
    LateRoot(a.files, b.files, rec);
    forall s | s in a.sites ensures Mirrored(b.files, s) {
      NotHas(a.sites, rec.id, s);
      LateOthers(a.files, b.files, rec, s);
    }
    if Get(b.files, CaddySite(rec.id)) != Get(a.files, CaddySite(rec.id)) {
      LateSiteIsThere(a.files, b.files, rec);
      SomeSite(b.files, rec.id);
    }
  }

  lemma OneOfId(sites: seq<SiteRecord>, x: SiteRecord, y: SiteRecord)
    requires WellFormed(sites) && x in sites && y in sites && x.id == y.id
    ensures x == y
  {
    hide Canonical;
    var i :| 0 <= i < |sites| && sites[i] == x;
    var j :| 0 <= j < |sites| && sites[j] == y;
    assert i == j;
  }

  lemma LatePools(a: Files, b: Files, rec: SiteRecord)
    requires LateLeft(a, b, rec)
    ensures PoolsKept(a, b)
  {
    hide PoolsKept;
  }

  /** Where the root file has the import, a late write was that of the site file. */
  lemma ImportedRootIsKept(a: Files, b: Files, rec: SiteRecord)
    requires LateLeft(a, b, rec) && Caddy.Imported(a)
    ensures Get(b, CaddySite(rec.id)) == Some(ConfigFor(rec)) && Get(b, CaddyRoot) == Get(a, CaddyRoot)
  {
    hide OthersKept, ConfigFor, Get, Contains;
  }

  /** A late write of a refused update or switch keeps the invariant exactly when the site's file has the
      bytes it had: the other late write, of the root file, never happens once a site is imported. */
  lemma LateChangeKeepsInv(a: World, b: World, next: SiteRecord)
    requires Inv(a) && b.sites == a.sites && Has(a.sites, next.id) && LateLeft(a.files, b.files, next)
    ensures Inv(b) <==> Get(b.files, CaddySite(next.id)) == Get(a.files, CaddySite(next.id))
    ensures Get(b.files, CaddySite(next.id)) == Some(ConfigFor(next))
  {
    hide Get, LateLeft, WellFormed, Caddy.Imported, ConfigFor, PoolFor, Caddy.NoSites;
    var i := IndexOf(a.sites, next.id);
    var current := a.sites[i];
    assert current in a.sites && Mirrored(a.files, current);
    SomeSite(a.files, next.id);
    LateRoot(a.files, b.files, next);
    ImportedRootIsKept(a.files, b.files, next);
    LatePools(a.files, b.files, next);
    PoolStays(a.files, b.files, current);
    if Get(b.files, CaddySite(next.id)) == Get(a.files, CaddySite(next.id)) {
      forall s | s in a.sites ensures Mirrored(b.files, s) {
        if s.id != next.id {
          LateOthers(a.files, b.files, next, s);
        } else {
          OneOfId(a.sites, s, current);
        }
      }
    }
  }

  // ---- Undoing ----

  lemma UndoneItself(w: World, id: string)
    ensures Undone(w, w) && OthersKept(w.files, w.files, id)
  {
    hide Get, PoolFor;
  }

  lemma UntouchedItself(f: Files, id: string)
    ensures Untouched(f, f) && OthersKept(f, f, id)
  {
    hide Get, PoolFor;
  }

  /** The files of an undone request. */
  ghost predicate Restored(a: Files, b: Files) {
    SiteFilesSame(a, b) && PoolsKept(a, b) && RootKept(a, b)
  }

  lemma UntouchedIsRestored(a: Files, b: Files)
    requires Untouched(a, b)
    ensures Restored(a, b)
  {
    hide SiteFilesSame, PoolsKept;
  }

  lemma RestoredThenUntouched(a: Files, b: Files, c: Files)
    requires Restored(a, b) && Untouched(b, c)
    ensures Restored(a, c)
  {
    hide Get, PoolFor, Caddy.NoSites, EnsureImport, RemoveImport;
    SiteFilesTransitive(a, b, c);
    SameSitesPresent(b, c);
    forall v: string ensures Get(c, FpmPool(v)) == Get(a, FpmPool(v)) || Get(c, FpmPool(v)) == Some(PoolFor(v)) {
      assert Get(c, FpmPool(v)) == Get(b, FpmPool(v)) || Get(c, FpmPool(v)) == Some(PoolFor(v));
    }
  }

  lemma RestoredIsUndone(a: World, b: World)
    requires b.sites == a.sites && Restored(a.files, b.files)
    ensures Undone(a, b)
  {
    hide SiteFilesSame, PoolsKept, RootKept;
  }

  /** Activating the old record over the new one restores the old site file, because the old file was the
      printing of the old record. */
  lemma ReactivationRestores(f0: Files, f1: Files, f2: Files, current: SiteRecord, next: SiteRecord)
    requires Mirrored(f0, current) && next.id == current.id
    requires Serves(f0, f1, next) && Serves(f1, f2, current)
    ensures Restored(f0, f2)
  {
    hide Get, PoolFor, ConfigFor, EnsureImport, RemoveImport, Caddy.NoSites;
    EnsureIdempotent(Get(f0, CaddyRoot));
    forall t: string ensures Get(f2, CaddySite(t)) == Get(f0, CaddySite(t)) {
      if t != current.id {
        assert Get(f2, CaddySite(t)) == Get(f1, CaddySite(t));
      }
    }
    forall v: string ensures Get(f2, FpmPool(v)) == Get(f0, FpmPool(v)) || Get(f2, FpmPool(v)) == Some(PoolFor(v)) {
      assert Get(f2, FpmPool(v)) == Get(f1, FpmPool(v)) || Get(f2, FpmPool(v)) == Some(PoolFor(v));
    }
  }

  /** The commands of a materialisation for a supported version, spelled out. */
  lemma AppliedIs(version: string, service: string)
    requires version in SUPPORTED && service != "" && Bare(service, SPACES)
    ensures Fpm.Applied(RuntimeFor(version, service)) ==
            [Call(DaemonReload, true), Call(FpmTest("/usr/sbin/php-fpm" + version), true), Call(Restart(service), true)]
  {
    hide SUPPORTED, Trim, AdapterVersion, SocketPath;
    SupportedFixed(version);
    RuntimeOfSupported(version, service);
    TrimBare(service, SPACES);
    TrimBare("", SPACES);
  }
}
