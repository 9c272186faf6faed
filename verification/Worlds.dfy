/** The four stores together: the registry, the Caddy files, the FPM pools and the resolver stub. */
module Worlds {
  import opened Text
  import opened Tokens
  import opened SiteNames
  import opened RootImport
  import opened ResolverStub
  import opened PhpVersions
  import opened CaddyConfig
  import opened HostModel
  import opened SiteRegistry
  import Caddy
  import Fpm
  import Resolved

  const SPEC := Spec("test", "127.0.0.1")
  const STUB: Path := DropIn("lara-nux-test.conf")

  datatype World = World(sites: seq<SiteRecord>, files: Files)

  // ---- From records to host arguments ----

  function SitePublicDir(rootPath: string): string {
    if TrimSpace(rootPath) == "" then "" else rootPath + "/public"
  }

  function WebSiteOf(rec: SiteRecord, socket: string): WebSite {
    var s := TrimSpace(socket);
    WebSite(rec.id, rec.domain, rec.rootPath, SitePublicDir(rec.rootPath),
            if s != "" then s else TrimSpace(SocketPath(rec.phpVersion)))
  }

  function HostRuntime(version: string, service: string): Fpm.Runtime {
    Fpm.Runtime(version, service, "", SocketPath(version))
  }

  // ---- What the host should hold for a record ----

  /** The configuration of a site: a printing of its domain, root and PHP version. */
  function ConfigFor(rec: SiteRecord): string {
    RenderSite(WebSite(rec.id, rec.domain, rec.rootPath, rec.rootPath + "/public", SocketPath(rec.phpVersion)))
  }

  function PoolFor(version: string): string {
    RenderPool(SocketPath(version))
  }

  ghost predicate Mirrored(f: Files, rec: SiteRecord) {
    && Get(f, CaddySite(rec.id)) == Some(ConfigFor(rec))
    && Get(f, FpmPool(rec.phpVersion)) == Some(PoolFor(rec.phpVersion))
  }

  /** Records in the form in which the registry keeps them. */
  ghost predicate Canonical(rec: SiteRecord) {
    && IsRecordId(rec.id) && Absolute(rec.rootPath) && rec.name == DeriveSiteName(rec.rootPath)
    && IsTestDomain(rec.domain) && rec.phpVersion in SUPPORTED
  }

  lemma CanonicalIsSupported(rec: SiteRecord)
    requires Canonical(rec)
    ensures rec.phpVersion in SUPPORTED && IsRecordId(rec.id)
  {}

  /** No two records share an ID, a name or a domain. */
  ghost predicate Distinct(sites: seq<SiteRecord>) {
    forall i, j | 0 <= i < j < |sites| ::
      sites[i].id != sites[j].id && sites[i].name != sites[j].name && sites[i].domain != sites[j].domain
  }

  /** Canonical records without duplicates: what every request keeps, whatever fails. */
  ghost predicate WellFormed(sites: seq<SiteRecord>) {
    Distinct(sites) && forall rec | rec in sites :: Canonical(rec)
  }

  /** Host mirrors registry, and the registry is well formed. */
  ghost predicate Inv(w: World) {
    && WellFormed(w.sites)
    && (forall rec | rec in w.sites :: Mirrored(w.files, rec))
    && Caddy.SitesAreImported(w.files)
  }

  ghost predicate StubReady(f: Files) {
    Get(f, STUB) == Some(RenderStub(SPEC))
  }

  /** While any site is registered, the resolver stub is the rendered one. */
  ghost predicate ResolverReady(w: World) {
    w.sites != [] ==> StubReady(w.files)
  }

  // ---- Files of the resolver ----

  predicate IsResolverFile(p: Path) {
    p.ResolvedMain? || p.DropIn?
  }

  /** The resolver's files: its main configuration and all drop-ins. */
  ghost function ResolverPart(f: Files): Files {
    map p | p in f && IsResolverFile(p) :: f[p]
  }

  /** Those of them that are not the daemon's: all but the stub, and the stub when somebody else wrote it. */
  ghost function ForeignPart(f: Files): Files {
    map p | p in f && IsResolverFile(p) && (p != STUB || Resolved.ForeignStub(f, STUB)) :: f[p]
  }

  lemma ForeignPartHolds(f: Files)
    ensures forall p :: Get(ForeignPart(f), p) ==
                        if IsResolverFile(p) && (p != STUB || Resolved.ForeignStub(f, STUB)) then Get(f, p) else None
  {
    hide IsManaged;
  }

  /** What keeping the foreign part means: every other resolver file keeps its bytes, so does a foreign stub,
      and no stub becomes foreign. */
  lemma ForeignPartKept(a: Files, b: Files)
    ensures ForeignPart(b) == ForeignPart(a) <==>
            && (forall p | IsResolverFile(p) && p != STUB :: Get(b, p) == Get(a, p))
            && (Resolved.ForeignStub(a, STUB) ==> Get(b, STUB) == Get(a, STUB))
            && (Resolved.ForeignStub(b, STUB) ==> Resolved.ForeignStub(a, STUB))
  {
    hide IsManaged;
    ForeignPartHolds(a);
    ForeignPartHolds(b);
    if ForeignPart(b) == ForeignPart(a) {
      forall p | IsResolverFile(p) && p != STUB ensures Get(b, p) == Get(a, p) {
        assert Get(ForeignPart(b), p) == Get(ForeignPart(a), p);
      }
      assert Get(ForeignPart(b), STUB) == Get(ForeignPart(a), STUB);
    }
  }

  lemma ResolverPartHolds(a: Files, b: Files)
    requires ResolverPart(b) == ResolverPart(a)
    ensures forall p | IsResolverFile(p) :: Get(b, p) == Get(a, p)
    ensures ForeignPart(b) == ForeignPart(a)
  {
    hide IsManaged;
    forall p | IsResolverFile(p) ensures Get(b, p) == Get(a, p) {
      assert Get(ResolverPart(b), p) == Get(ResolverPart(a), p);
      assert Get(ResolverPart(b), p) == Get(b, p) && Get(ResolverPart(a), p) == Get(a, p);
    }
    ForeignPartKept(a, b);
  }

  /** Changes elsewhere leave the resolver's files alone. */
  lemma ResolverUntouched(a: Files, b: Files, changed: set<Path>)
    requires SameBut(a, b, changed) && forall p | p in changed :: !IsResolverFile(p)
    ensures ResolverPart(b) == ResolverPart(a)
  {
    var x, y := ResolverPart(a), ResolverPart(b);
    forall p ensures (p in x <==> p in y) && (p in x ==> x[p] == y[p]) {
      if p !in changed {
        assert Get(a, p) == Get(b, p);
      }
    }
  }

  // ---- Canonical records on the host ----

  lemma SocketText(version: string)
    requires version != "" && NormalizeVersion(version) == version
    ensures var s := SocketPath(version); s != "" && TrimSpace(s) == s
  {
    hide NormalizeVersion, Trim, Bare;
    var pre, post := "/run/php/lara-nux-php", "-fpm.sock";
    BareAround(pre, version, post, SPACES);
    TrimBare(pre + version + post, SPACES);
  }

  lemma SocketIsBare(version: string)
    requires version in SUPPORTED
    ensures var s := SocketPath(version); s != "" && TrimSpace(s) == s
  {
    hide NormalizeVersion, Trim, SocketPath;
    SupportedFixed(version);
    SocketText(version);
  }

  lemma OneLineCat(a: string, b: string, c: string)
    requires '\n' !in a && '\n' !in b && '\n' !in c
    ensures '\n' !in a + b + c
  {}

  lemma VersionIsOneLine(version: string)
    requires version in SUPPORTED
    ensures '\n' !in version
  {}

  lemma SocketIsOneLine(version: string)
    requires version in SUPPORTED
    ensures '\n' !in SocketPath(version)
  {
    hide NormalizeVersion, SUPPORTED;
    SupportedFixed(version);
    VersionIsOneLine(version);
    OneLineCat("/run/php/lara-nux-php", version, "-fpm.sock");
  }

  lemma PublicDirIsBare(rootPath: string)
    requires Absolute(rootPath)
    ensures SitePublicDir(rootPath) == rootPath + "/public"
    ensures TrimSpace(rootPath + "/public") == rootPath + "/public"
    ensures TrimSpace(rootPath) != ""
  {
    hide Trim;
    TrimBare(rootPath + "/public", SPACES);
    var pre, post := TrimParts(rootPath, SPACES);
  }

  /** Activating a canonical record writes its configuration, under its own ID. */
  lemma SiteOfCanonical(rec: SiteRecord)
    requires Canonical(rec)
    ensures var raw := WebSiteOf(rec, SocketPath(rec.phpVersion));
            && Complete(raw)
            && SiteToken(NormalizeSite(raw)) == rec.id
            && RenderSite(NormalizeSite(raw)) == ConfigFor(rec)
  {
    hide SanitizeToken, TrimSpace, Trim, SocketPath, IsRecordId, IsTestDomain, SiteBlock;
    SocketIsBare(rec.phpVersion);
    PublicDirIsBare(rec.rootPath);
    DomainCanonical(rec.domain);
    RecordIdToken(rec.id, rec.domain);
    var raw := WebSiteOf(rec, SocketPath(rec.phpVersion));
    var site := NormalizeSite(raw);
    SameLines(site, WebSite(rec.id, rec.domain, rec.rootPath, rec.rootPath + "/public", SocketPath(rec.phpVersion)));
  }

  lemma RuntimeOfSupported(version: string, service: string)
    requires version in SUPPORTED
    ensures var r := Fpm.NormalizeRuntime(HostRuntime(version, service));
            r.Some? && r.value.version == version && r.value.socket == SocketPath(version)
  {
    hide Trim, SocketPath, AdapterVersion;
    SupportedFixed(version);
    SocketIsBare(version);
  }

  lemma DomainIsOneLine(domain: string)
    requires forall i | 0 <= i < |domain| :: DomainChar(domain[i])
    ensures '\n' !in domain
  {}

  /** What a mirrored site's file says, read back: its record's domain, the public directory under its root, and
      its version's socket; over https with an internal certificate. */
  lemma MirroredSiteReads(f: Files, rec: SiteRecord)
    requires Canonical(rec) && Mirrored(f, rec)
    ensures var text, socket := f[CaddySite(rec.id)], "/run/php/lara-nux-php" + rec.phpVersion + "-fpm.sock";
            && ReadSite(text, "http://") ==
               Some(Served(rec.domain, Some(rec.rootPath + "/public"), Some(socket), true, true, false))
            && ReadSite(text, "https://") ==
               Some(Served(rec.domain, Some(rec.rootPath + "/public"), Some(socket), true, true, true))
  {
    hide SocketPath, RenderSite, IsTestDomain, IsRecordId, ReadSite, DeriveSiteName;
    SocketIsOneLine(rec.phpVersion);
    NamesOfVersion(rec.phpVersion);
    DomainCanonical(rec.domain);
    DomainIsOneLine(rec.domain);
    SiteReads(WebSite(rec.id, rec.domain, rec.rootPath, rec.rootPath + "/public", SocketPath(rec.phpVersion)));
  }

  /** What a pool of another version listens on is not what the site of this one talks to. */
  lemma PoolsApart(version: string, other: string)
    requires version in SUPPORTED && other in SUPPORTED && version != other
    ensures ListenSocket(PoolFor(other)) != Some(SocketPath(version))
  {
    hide SocketPath, RenderPool, ListenSocket;
    SocketIsOneLine(other);
    PoolListens(SocketPath(other));
    VersionsApart(version, other);
  }

  lemma MirroredIsThere(f: Files, rec: SiteRecord)
    requires Mirrored(f, rec)
    ensures Get(f, CaddySite(rec.id)).Some? && Get(f, FpmPool(rec.phpVersion)) == Some(PoolFor(rec.phpVersion))
  {
    hide ConfigFor, PoolFor;
  }

  /** The socket in a site's file changed, to the one that its version's pool listens on and no other's. */
  ghost predicate Moved(a: Files, b: Files, id: string, version: string) {
    var before, after := Get(a, CaddySite(id)), Get(b, CaddySite(id));
    && before.Some? && after.Some?
    && var socket := FastcgiSocket(after.value);
    && FastcgiSocket(before.value) != socket
    && Get(b, FpmPool(version)) == Some(PoolFor(version)) && ListenSocket(PoolFor(version)) == socket
    && forall v | v in SUPPORTED && v != version :: ListenSocket(PoolFor(v)) != socket
  }

  /** What mirroring means to a request: the socket in the site file is the one the pool listens on. */
  lemma MirroredSocketsAgree(f: Files, rec: SiteRecord)
    requires Canonical(rec) && Mirrored(f, rec)
    ensures var site, pool := Get(f, CaddySite(rec.id)), Get(f, FpmPool(rec.phpVersion));
            && FastcgiSocket(site.value) == Some(SocketPath(rec.phpVersion))
            && ListenSocket(pool.value) == Some(SocketPath(rec.phpVersion))
  {
    hide SocketPath, RenderSite, RenderPool, IsTestDomain, IsRecordId, FastcgiSocket, ListenSocket;
    SocketIsOneLine(rec.phpVersion);
    DomainCanonical(rec.domain);
    DomainIsOneLine(rec.domain);
    PoolListens(SocketPath(rec.phpVersion));
    SiteServesSocket(WebSite(rec.id, rec.domain, rec.rootPath, rec.rootPath + "/public", SocketPath(rec.phpVersion)));
  }

  /** A site that moved to another version talks to another socket, and to no other version's pool. */
  lemma MovedSiteReads(a: Files, b: Files, before: SiteRecord, after: SiteRecord)
    requires Canonical(before) && Canonical(after) && Mirrored(a, before) && Mirrored(b, after)
    requires before.id == after.id && before.phpVersion != after.phpVersion
    ensures Moved(a, b, after.id, after.phpVersion)
  {
    hide SocketPath, RenderPool, FastcgiSocket, ListenSocket, Mirrored, PoolFor, ConfigFor, Canonical, SUPPORTED, Get;
    CanonicalIsSupported(before);
    CanonicalIsSupported(after);
    MirroredIsThere(a, before);
    MirroredIsThere(b, after);
    MirroredSocketsAgree(a, before);
    MirroredSocketsAgree(b, after);
    VersionsApart(before.phpVersion, after.phpVersion);
    forall v | v in SUPPORTED && v != after.phpVersion
      ensures ListenSocket(PoolFor(v)) != Some(SocketPath(after.phpVersion))
    {
      PoolsApart(after.phpVersion, v);
    }
  }

  lemma DomainUnderTest(domain: string)
    requires IsTestDomain(domain)
    ensures exists host: string :: host != "" && domain == host + ".test"
  {
    var labels: seq<string> :| domain == Join(labels, ".") + TLD && labels != [] && AllValid(labels);
    JoinedChars(labels);
    assert domain == Join(labels, ".") + ".test";
  }

  lemma SpecIsStable()
    ensures NormalizeSpec(SPEC) == SPEC
  {
    hide Trim;
    LowerFixed("test");
    TrimBare("test", SPACES);
    TrimBare("127.0.0.1", SPACES);
  }

  lemma StubIsDropIn()
    ensures exists name :: STUB == DropIn(name + ".conf")
  {
    var name := "lara-nux-test";
    assert name + ".conf" == "lara-nux-test.conf";
    assert STUB == DropIn(name + ".conf");
  }

  lemma SpecIsPlain()
    ensures SPEC == Spec("test", "127.0.0.1") && NoSpace("test") && '\n' !in "test" && '\n' !in "127.0.0.1"
  {}

  lemma CanonicalUnderTest(rec: SiteRecord)
    requires Canonical(rec)
    ensures exists host: string :: host != "" && rec.domain == host + ".test"
  {
    hide IsRecordId, DeriveSiteName, IsTestDomain;
    DomainUnderTest(rec.domain);
  }

  /** What the daemon's stub says: it is a drop-in that the resolver reads, it routes "test" to the loopback
      address, and every registered domain lies under "test". */
  lemma ReadyStubRoutes(f: Files)
    requires StubReady(f)
    ensures (exists name :: STUB == DropIn(name + ".conf")) && STUB in f && OwnsDomain(f[STUB], "test")
    ensures Split(f[STUB], '\n') == ["# Managed by Lara Nux", "[Resolve]", "DNS=127.0.0.1", "Domains=~test", ""]
    ensures forall rec | Canonical(rec) :: exists host: string :: host != "" && rec.domain == host + ".test"
  {
    hide RenderStub, OwnsDomain, Canonical, Split, SPEC, STUB, NormalizeSpec, AddressClaims;
    StubIsDropIn();
    SpecIsPlain();
    StubReads(SPEC);
    SpecIsStable();
    StubClaimsItsDomain(SPEC);
    assert "DNS=" + "127.0.0.1" == "DNS=127.0.0.1" && "Domains=~" + "test" == "Domains=~test";
    forall rec | Canonical(rec) ensures exists host: string :: host != "" && rec.domain == host + ".test" {
      CanonicalUnderTest(rec);
    }
  }

  // ---- Requests as steps between worlds ----

  ghost predicate SiteFilesSame(a: Files, b: Files) {
    forall t: string :: Get(b, CaddySite(t)) == Get(a, CaddySite(t))
  }

  /** Every pool file is as before, or is the proper one of its version. */
  ghost predicate PoolsKept(a: Files, b: Files) {
    forall v: string :: Get(b, FpmPool(v)) == Get(a, FpmPool(v)) || Get(b, FpmPool(v)) == Some(PoolFor(v))
  }

  /** The root file is as before, or has gained the import, or has lost it with the last site file. */
  ghost predicate RootKept(a: Files, b: Files) {
    var root := Get(b, CaddyRoot);
    || root == Get(a, CaddyRoot)
    || root == Caddy.EnsuredRoot(a)
    || (Caddy.NoSites(b) && root == RemoveImport(Caddy.EnsuredRoot(a)).content)
  }

  /** A request that failed and was undone: the registry sequence and the set and bytes of the site files
      are what they were. */
  ghost predicate Undone(a: World, b: World) {
    b.sites == a.sites && SiteFilesSame(a.files, b.files) && PoolsKept(a.files, b.files) && RootKept(a.files, b.files)
  }

  /** The host now serves a record, and every other site as before. */
  ghost predicate Serves(a: Files, b: Files, rec: SiteRecord) {
    && Mirrored(b, rec)
    && (forall t: string | t != rec.id :: Get(b, CaddySite(t)) == Get(a, CaddySite(t)))
    && PoolsKept(a, b)
    && (Get(b, CaddyRoot) == Caddy.EnsuredRoot(a) || (!Caddy.NoSites(a) && Get(b, CaddyRoot) == Get(a, CaddyRoot)))
  }

  /** An ID that names neither a record nor a site file. */
  ghost predicate Fresh(w: World, id: string) {
    !Has(w.sites, id) && Get(w.files, CaddySite(id)).None?
  }

  /** A request that registered a record and activated its site. */
  ghost predicate Added(a: World, b: World, rec: SiteRecord) {
    && b.sites == a.sites + [rec] && Canonical(rec) && Fresh(a, rec.id)
    && Unclaimed(a.sites, {}, rec.name, rec.domain)
    && Serves(a.files, b.files, rec)
  }

  /** A request that changed a record and re-activated its site. */
  ghost predicate Changed(a: World, b: World, rec: SiteRecord) {
    && Has(a.sites, rec.id) && b.sites == a.sites[IndexOf(a.sites, rec.id) := rec] && Canonical(rec)
    && Unclaimed(a.sites, {rec.id}, rec.name, rec.domain)
    && Serves(a.files, b.files, rec)
  }

  ghost predicate Step(a: World, b: World) {
    Undone(a, b) || (exists rec: SiteRecord :: Added(a, b, rec)) || (exists rec: SiteRecord :: Changed(a, b, rec))
  }

  // ---- Every step keeps the invariant ----

  lemma CanonicalIsLower(rec: SiteRecord)
    requires Canonical(rec)
    ensures IsLower(rec.name) && IsLower(rec.domain)
  {
    hide DeriveSiteName, IsTestDomain, IsRecordId;
    DomainCanonical(rec.domain);
    DerivedNameIsLabel(rec.rootPath);
    LabelChars(rec.name);
  }

  /** Among canonical records, an unclaimed name and domain differ from every other. */
  lemma UnclaimedIsDistinct(sites: seq<SiteRecord>, skip: set<string>, rec: SiteRecord)
    requires Canonical(rec) && forall s | s in sites :: Canonical(s)
    ensures Unclaimed(sites, skip, rec.name, rec.domain) <==>
            forall s | s in sites && s.id !in skip :: s.name != rec.name && s.domain != rec.domain
  {
    hide EqualFold, IsTestDomain, DeriveSiteName, IsRecordId;
    CanonicalIsLower(rec);
    forall s | s in sites
      ensures EqualFold(s.name, rec.name) <==> s.name == rec.name
      ensures EqualFold(s.domain, rec.domain) <==> s.domain == rec.domain
    {
      CanonicalIsLower(s);
      FoldIsEquality(s.name, rec.name);
      FoldIsEquality(s.domain, rec.domain);
    }
  }

  lemma PoolStays(a: Files, b: Files, rec: SiteRecord)
    requires PoolsKept(a, b) && Get(a, FpmPool(rec.phpVersion)) == Some(PoolFor(rec.phpVersion))
    ensures Get(b, FpmPool(rec.phpVersion)) == Some(PoolFor(rec.phpVersion))
  {
    hide Get, PoolFor;
  }

  lemma SameSitesPresent(a: Files, b: Files)
    requires SiteFilesSame(a, b)
    ensures Caddy.NoSites(a) <==> Caddy.NoSites(b)
  {
    if !Caddy.NoSites(a) {
      var p :| p in a && p.CaddySite?;
      assert Get(b, CaddySite(p.token)) == Get(a, CaddySite(p.token));
    }
    if !Caddy.NoSites(b) {
      var p :| p in b && p.CaddySite?;
      assert Get(b, CaddySite(p.token)) == Get(a, CaddySite(p.token));
    }
  }

  lemma UndoneKeepsInv(a: World, b: World)
    requires Inv(a) && Undone(a, b)
    ensures Inv(b)
  {
    hide Canonical, ConfigFor, PoolFor, EnsureImport, RemoveImport, Contains;
    forall rec | rec in b.sites ensures Mirrored(b.files, rec) {
      assert Mirrored(a.files, rec);
      PoolStays(a.files, b.files, rec);
    }
    SameSitesPresent(a.files, b.files);
    EnsureIdempotent(Get(a.files, CaddyRoot));
  }

  lemma ServesKeepsFiles(a: World, b: World, rec: SiteRecord)
    requires Inv(a) && Serves(a.files, b.files, rec)
    ensures Caddy.SitesAreImported(b.files)
    ensures forall s | s in a.sites && s.id != rec.id :: Mirrored(b.files, s)
  {
    hide Canonical, ConfigFor, PoolFor, EnsureImport, Contains;
    forall s | s in a.sites && s.id != rec.id ensures Mirrored(b.files, s) {
      assert Mirrored(a.files, s);
      PoolStays(a.files, b.files, s);
    }
    EnsureIdempotent(Get(a.files, CaddyRoot));
  }

  /** Appending a canonical, unclaimed record under a new ID keeps names and domains distinct. */
  lemma AppendedIsWellFormed(sites: seq<SiteRecord>, rec: SiteRecord)
    requires Canonical(rec) && !Has(sites, rec.id) && Unclaimed(sites, {}, rec.name, rec.domain)
    ensures WellFormed(sites) ==> WellFormed(sites + [rec])
  {
    hide Canonical, Unclaimed;
    if WellFormed(sites) {
      UnclaimedIsDistinct(sites, {}, rec);
      assert forall i | 0 <= i < |sites| :: sites[i].id != rec.id && sites[i] in sites;
    }
  }

  /** So does replacing a record by one that nobody else's name and domain clash with. */
  lemma ReplacedIsWellFormed(sites: seq<SiteRecord>, rec: SiteRecord)
    requires Canonical(rec) && Has(sites, rec.id) && Unclaimed(sites, {rec.id}, rec.name, rec.domain)
    requires WellFormed(sites)
    ensures WellFormed(sites[IndexOf(sites, rec.id) := rec])
  {
    hide Canonical, Unclaimed;
    UnclaimedIsDistinct(sites, {rec.id}, rec);
    var k := IndexOf(sites, rec.id);
    assert forall i | 0 <= i < |sites| && i != k :: sites[i].id != rec.id && sites[i] in sites;
    var after := sites[k := rec];
    forall s | s in after ensures Canonical(s) {
      var i :| 0 <= i < |after| && after[i] == s;
      if i != k {
        assert s == sites[i];
      }
    }
  }

  lemma NotHas(sites: seq<SiteRecord>, id: string, s: SiteRecord)
    requires !Has(sites, id) && s in sites
    ensures s.id != id
  {}

  lemma AddedKeepsInv(a: World, b: World, rec: SiteRecord)
    requires Inv(a) && Added(a, b, rec)
    ensures Inv(b)
  {
    hide Canonical, Mirrored, Unclaimed, PoolsKept, WellFormed, Has;
    ServesKeepsFiles(a, b, rec);
    AppendedIsWellFormed(a.sites, rec);
    forall s | s in a.sites ensures s.id != rec.id {
      NotHas(a.sites, rec.id, s);
    }
  }

  lemma ChangedKeepsInv(a: World, b: World, rec: SiteRecord)
    requires Inv(a) && Changed(a, b, rec)
    ensures Inv(b)
  {
    hide Canonical, Mirrored, Unclaimed, PoolsKept;
    ServesKeepsFiles(a, b, rec);
    ReplacedIsWellFormed(a.sites, rec);
    var k := IndexOf(a.sites, rec.id);
    forall s | s in b.sites ensures Mirrored(b.files, s) {
      var i :| 0 <= i < |b.sites| && b.sites[i] == s;
      if i != k {
        assert s == a.sites[i] && s in a.sites && s.id != rec.id;
      }
    }
  }

  lemma StepKeepsInv(a: World, b: World)
    requires Inv(a) && Step(a, b)
    ensures Inv(b)
  {
    hide Inv, Undone, Added, Changed;
    if Undone(a, b) {
      UndoneKeepsInv(a, b);
    } else if rec: SiteRecord :| Added(a, b, rec) {
      AddedKeepsInv(a, b, rec);
    } else {
      var rec: SiteRecord :| Changed(a, b, rec);
      ChangedKeepsInv(a, b, rec);
    }
  }

  /** Host mirrors registry over every run: from a world that satisfies the invariant (the empty
      registry, in particular), any sequence of requests, each carried out or undone, leads to worlds
      that satisfy it. */
  lemma {:induction false} RunsKeepInv(run: seq<World>)
    requires run != [] && Inv(run[0])
    requires forall i | 0 <= i < |run| - 1 :: Step(run[i], run[i + 1])
    ensures forall w | w in run :: Inv(w)
  {
    hide Inv, Undone, Added, Changed;
    var n := |run| - 1;
    if n > 0 {
      RunsKeepInv(run[..n]);
      var a, b := run[n - 1], run[n];
      assert a == run[..n][n - 1] && Step(a, b);
      StepKeepsInv(a, b);
      assert run == run[..n] + [b];
    } else {
      assert run == [run[0]];
    }
  }
}
