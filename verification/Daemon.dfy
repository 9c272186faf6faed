/** The daemon serving requests one at a time, whatever fails. */
module Daemon {
  import opened Text
  import opened Tokens
  import opened ResolverStub
  import opened HostModel
  import opened SiteRegistry
  import opened SiteNames
  import opened Worlds
  import opened Serving
  import Caddy
  import Activation
  import SiteManagement
  import PhpManager
  import PhpRegistry
  import PhpVersions

  datatype Request =
    | Activate(input: SiteInput, newId: string)
    | Update(changes: SiteManagement.UpdateInput)
    | Switch(siteId: string, version: string)
    | AddRuntime(runtime: PhpRegistry.Input, printed: string)
    | ChooseDefault(version: string)

  /** The IDs that random generation will hand out: record IDs, all different, none in use. */
  ghost predicate FreshIds(requests: seq<Request>, w: World) {
    && (forall i | 0 <= i < |requests| && requests[i].Activate? ::
          IsRecordId(requests[i].newId) && Fresh(w, requests[i].newId))
    && (forall i, j | 0 <= i < j < |requests| && requests[i].Activate? && requests[j].Activate? ::
          requests[i].newId != requests[j].newId)
  }

  /** Nothing named by a fresh ID comes into being but through its own activation. */
  ghost predicate Spares(a: World, b: World, used: Option<string>) {
    forall id: string | Fresh(a, id) && used != Some(id) :: Fresh(b, id)
  }

  function UsedId(request: Request): Option<string> {
    if request.Activate? then Some(request.newId) else None
  }

  /** The site a request names. */
  function NamedId(request: Request): Option<string> {
    match request
    case Activate(_, newId) => Some(newId)
    case Update(changes) => Some(TrimSpace(changes.siteId))
    case Switch(siteId, _) => Some(siteId)
    case AddRuntime(_, _) => None
    case ChooseDefault(_) => None
  }

  /** Everything at one moment: the four stores, the runtimes, and the account of what went wrong. */
  datatype Moment = Moment(world: World, runtimes: PhpRegistry.State, trouble: Trouble)

  /** The runtime a binary reports is recorded in the place of its version. */
  ghost predicate RuntimeAdded(input: PhpRegistry.Input, printed: string, a: PhpRegistry.State, b: PhpRegistry.State,
                               now: int) {
    exists r: PhpRegistry.RuntimeRecord ::
      && r.version == PhpVersions.NormalizeVersion(printed) && r.binaryPath == TrimSpace(input.binaryPath)
      && r.source == TrimSpace(input.source) && r.registeredAt == now
      && r.service == (if TrimSpace(input.service) == "" then PhpVersions.ServiceNameOf(r.version)
                       else TrimSpace(input.service))
      && b.defaultVersion == (if a.defaultVersion == "" then r.version else a.defaultVersion)
      && forall v :: PhpRegistry.Find(b.runtimes, v) ==
                     if v == r.version then Some(r) else PhpRegistry.Find(a.runtimes, v)
  }

  /** A registered version becomes the default, and nothing else changes. */
  predicate DefaultChosen(version: string, a: PhpRegistry.State, b: PhpRegistry.State) {
    && PhpRegistry.Find(a.runtimes, PhpVersions.NormalizeVersion(version)).Some?
    && b == a.(defaultVersion := PhpVersions.NormalizeVersion(version))
  }

  /** The record an activation adds, field by field. */
  ghost predicate AddedFor(input: SiteInput, newId: string, a: Moment, b: Moment, now: int, rec: SiteRecord) {
    && Added(a.world, b.world, rec)
    && rec.id == newId && rec.rootPath == RootOf(input) && rec.name == DeriveSiteName(rec.rootPath)
    && NormalizeDomain(input.domain, rec.name) == Domain(rec.domain)
    && rec.phpVersion == (if TrimSpace(input.phpVersion) == "" then a.runtimes.defaultVersion
                          else PhpVersions.NormalizeVersion(input.phpVersion))
    && rec.createdAt == now && rec.updatedAt == now && rec.checkedAt == now
  }

  /** A request that was not refused did what it asks for. */
  ghost predicate CarriedOut(request: Request, a: Moment, b: Moment, now: int) {
    match request
    case Activate(input, newId) =>
      b.runtimes == a.runtimes && exists rec: SiteRecord :: AddedFor(input, newId, a, b, now, rec)
    case Update(changes) =>
      && b.runtimes == a.runtimes
      && exists rec: SiteRecord ::
           && SiteManagement.Carried(a.world.sites, b.world.sites, changes, now, rec)
           && (Inv(a.world) ==> Changed(a.world, b.world, rec))
    case Switch(siteId, version) =>
      && b.runtimes == a.runtimes
      && exists rec: SiteRecord ::
           && PhpManager.Switched(a.world.sites, b.world.sites, siteId, PhpVersions.NormalizeVersion(version), now, rec)
           && (Inv(a.world) ==> Changed(a.world, b.world, rec))
    case AddRuntime(input, printed) => b.world == a.world && RuntimeAdded(input, printed, a.runtimes, b.runtimes, now)
    case ChooseDefault(version) => b.world == a.world && DefaultChosen(version, a.runtimes, b.runtimes)
  }

  /** Every compensation and every registry delete took effect. */
  ghost predicate AllUndone(t0: Trouble, t: Trouble) {
    Clean(t0, t) && t.lostDeletes == t0.lostDeletes
  }

  /** Every site's version has a registered runtime. */
  ghost predicate Registered(m: Moment) {
    forall rec | rec in m.world.sites :: PhpRegistry.HasRuntime(m.runtimes, rec.phpVersion)
  }

  /** The damage stays with the site a request names: every other record stays registered, and mirrored when it
      was. */
  ghost predicate Contained(request: Request, a: World, b: World) {
    forall rec | rec in a.sites && NamedId(request) != Some(rec.id) ::
      rec in b.sites && (Mirrored(a.files, rec) ==> Mirrored(b.files, rec))
  }

  /** What a refused request leaves when a write failed late and nothing else was lost: the registry as it was,
      and one of two files of the form it asked for. */
  ghost predicate Late(request: Request, a: World, b: World) {
    && b.sites == a.sites
    && exists rec: SiteRecord | NamedId(request) == Some(rec.id) && Canonical(rec) :: LateLeft(a.files, b.files, rec)
  }

  ghost predicate LateOnly(t0: Trouble, t: Trouble) {
    t.lostUndos == t0.lostUndos && t.lostDeletes == t0.lostDeletes && t.lateChmods != t0.lateChmods
  }

  /** What one request does, whatever fails. */
  ghost predicate Handled(request: Request, a: Moment, b: Moment, refused: bool) {
    && WellFormed(b.world.sites) && ForeignPart(b.world.files) == ForeignPart(a.world.files)
    && (Registered(a) ==> Registered(b)) && (refused ==> b.runtimes == a.runtimes)
    && Contained(request, a.world, b.world)
    && (Inv(a.world) && AllUndone(a.trouble, b.trouble) ==>
          Step(a.world, b.world) && (refused ==> Undone(a.world, b.world)))
    && (refused && LateOnly(a.trouble, b.trouble) ==> Late(request, a.world, b.world))
    && (ResolverReady(a.world) && b.trouble.lostDeletes == a.trouble.lostDeletes ==> ResolverReady(b.world))
    && Spares(a.world, b.world, UsedId(request))
    && Grows(a.trouble, b.trouble)
  }

  lemma NothingHappened(request: Request, a: Moment, b: Moment, refused: bool)
    requires WellFormed(a.world.sites) && b.world == a.world
    requires Grows(a.trouble, b.trouble) && Clean(a.trouble, b.trouble)
    requires Registered(a) ==> Registered(b)
    requires refused ==> b.runtimes == a.runtimes
    ensures Handled(request, a, b, refused)
  {
    hide WellFormed, Inv, Undone, Fresh, ForeignPart, Registered, Mirrored;
    UndoneItself(a.world, "");
  }

  /** Runtimes are only ever added. */
  lemma VersionsStay(a: Moment, b: Moment, op: PhpRegistry.Op)
    requires PhpRegistry.Consistent(a.runtimes) && b.world.sites == a.world.sites
    requires op.Record? ==> op.record.version != "" && PhpRegistry.Accepted(op.record.version)
    requires b.runtimes == PhpRegistry.Applied(a.runtimes, op)
    ensures Registered(a) ==> Registered(b)
  {
    hide PhpRegistry.Consistent, PhpRegistry.Accepted, PhpRegistry.Applied, PhpRegistry.HasRuntime;
    if Registered(a) {
      forall rec | rec in b.world.sites ensures PhpRegistry.HasRuntime(b.runtimes, rec.phpVersion) {
        PhpRegistry.OpKeepsVersions(a.runtimes, op, rec.phpVersion);
      }
    }
  }

  ghost predicate ReplacedAt(a: seq<SiteRecord>, b: seq<SiteRecord>, i: nat, rec: SiteRecord) {
    i < |a| && b == a[i := rec]
  }

  /** At most one record, with the given ID, was replaced by one with the same ID. */
  ghost predicate OneReplaced(a: seq<SiteRecord>, b: seq<SiteRecord>, id: string) {
    b == a || exists i: nat, rec: SiteRecord :: i < |a| && rec.id == id == a[i].id && b == a[i := rec]
  }

  lemma CarriedIsOne(a: seq<SiteRecord>, b: seq<SiteRecord>, changes: SiteManagement.UpdateInput, now: int,
                     rec: SiteRecord)
    requires SiteManagement.Carried(a, b, changes, now, rec)
    ensures OneReplaced(a, b, TrimSpace(changes.siteId)) && exists i: nat :: ReplacedAt(a, b, i, rec)
  {
    hide TrimSpace, SiteManagement.Follows, WellFormed;
    var i := IndexOf(a, TrimSpace(changes.siteId));
    assert b == a[i := rec] && ReplacedAt(a, b, i, rec);
  }

  lemma SwitchedIsOne(a: seq<SiteRecord>, b: seq<SiteRecord>, id: string, version: string, now: int, rec: SiteRecord)
    requires PhpManager.Switched(a, b, id, version, now, rec)
    ensures OneReplaced(a, b, id) && exists i: nat :: ReplacedAt(a, b, i, rec)
  {
    var i := IndexOf(a, id);
    assert b == a[i := rec] && ReplacedAt(a, b, i, rec);
  }

  lemma StubKeptIsReady(a: World, b: World)
    requires ResolverPart(b.files) == ResolverPart(a.files) && |b.sites| == |a.sites|
    ensures ResolverReady(a) ==> ResolverReady(b)
    ensures ForeignPart(b.files) == ForeignPart(a.files)
  {
    hide Get, RenderStub, ResolverPart, ForeignPart;
    ResolverPartHolds(a.files, b.files);
  }

  lemma InvIsWellFormed(w: World)
    requires Inv(w)
    ensures WellFormed(w.sites)
  {}

  lemma OthersContained(request: Request, a: World, b: World, id: string)
    requires NamedId(request) == Some(id) && OthersKept(a.files, b.files, id)
    requires forall rec | rec in a.sites && rec.id != id :: rec in b.sites
    ensures Contained(request, a, b)
  {
    hide Mirrored, OthersKept;
    forall rec | rec in a.sites && NamedId(request) != Some(rec.id)
      ensures Mirrored(a.files, rec) ==> Mirrored(b.files, rec)
    {
      if Mirrored(a.files, rec) {
        OthersStayMirrored(a.files, b.files, id, rec);
      }
    }
  }

  lemma NamedAfterRoot(rec: SiteRecord, a: World, b: World)
    requires Added(a, b, rec)
    ensures rec.name == DeriveSiteName(rec.rootPath)
  {
    hide DeriveSiteName, IsTestDomain, IsRecordId, Serves, Unclaimed;
  }

  lemma ActivationCarriedOut(request: Request, a: Moment, b: Moment, now: int, rec: SiteRecord)
    requires request.Activate? && Added(a.world, b.world, rec) && b.runtimes == a.runtimes
    requires rec.id == request.newId && rec.rootPath == RootOf(request.input)
    requires NormalizeDomain(request.input.domain, rec.name) == Domain(rec.domain)
    requires rec.phpVersion == PhpRegistry.ChosenVersion(request.input.phpVersion, a.runtimes)
    requires rec.createdAt == now && rec.updatedAt == now && rec.checkedAt == now
    ensures CarriedOut(request, a, b, now)
    ensures Step(a.world, b.world)
  {
    hide Added, DeriveSiteName, NormalizeDomain, PhpVersions.NormalizeVersion, TrimSpace, Undone, Changed;
    NamedAfterRoot(rec, a.world, b.world);
    assert AddedFor(request.input, request.newId, a, b, now, rec);
  }

  lemma ActivationContained(request: Request, a: Moment, b: Moment)
    requires request.Activate? && OthersKept(a.world.files, b.world.files, request.newId) && b.runtimes == a.runtimes
    requires b.world.sites == a.world.sites
             || exists rec: SiteRecord |
                  rec.id == request.newId && PhpRegistry.HasRuntime(a.runtimes, rec.phpVersion) ::
                  b.world.sites == a.world.sites + [rec]
    ensures Spares(a.world, b.world, Some(request.newId)) && Contained(request, a.world, b.world)
    ensures Registered(a) ==> Registered(b)
  {
    hide Get, PoolsKept, Mirrored, PhpRegistry.HasRuntime;
    OthersContained(request, a.world, b.world, request.newId);
  }

  lemma ActivationHandled(request: Request, a: Moment, b: Moment, refused: bool)
    requires request.Activate? && OthersKept(a.world.files, b.world.files, request.newId) && b.runtimes == a.runtimes
    requires b.world.sites == a.world.sites
             || exists rec: SiteRecord |
                  rec.id == request.newId && PhpRegistry.HasRuntime(a.runtimes, rec.phpVersion) ::
                  b.world.sites == a.world.sites + [rec]
    requires WellFormed(b.world.sites) && ForeignPart(b.world.files) == ForeignPart(a.world.files)
    requires Grows(a.trouble, b.trouble)
    requires !refused ==> Step(a.world, b.world)
    requires refused && AllUndone(a.trouble, b.trouble) ==> Undone(a.world, b.world)
    requires (refused && b.trouble.lostDeletes == a.trouble.lostDeletes) ==> b.world.sites == a.world.sites
    requires (refused && b.trouble.lostUndos == a.trouble.lostUndos && b.trouble.lateChmods != a.trouble.lateChmods) ==>
               exists rec: SiteRecord | rec.id == request.newId && Canonical(rec) ::
                 LateLeft(a.world.files, b.world.files, rec)
    requires ResolverReady(a.world) && b.trouble.lostDeletes == a.trouble.lostDeletes ==> ResolverReady(b.world)
    ensures Handled(request, a, b, refused)
  {
    hide Undone, Added, Changed, WellFormed, ResolverReady, OthersKept, ForeignPart, PhpRegistry.HasRuntime, LateLeft,
      Canonical, Registered, Contained, Spares, Inv;
    ActivationContained(request, a, b);
  }

  lemma ChangeContained(request: Request, a: Moment, b: Moment, id: string)
    requires NamedId(request) == Some(id) && OthersKept(a.world.files, b.world.files, id) && b.runtimes == a.runtimes
    requires OneReplaced(a.world.sites, b.world.sites, id)
    requires !Has(a.world.sites, id) ==> b.world.files == a.world.files
    ensures Spares(a.world, b.world, None) && Contained(request, a.world, b.world) && |b.world.sites| == |a.world.sites|
  {
    hide Get, PoolsKept, Mirrored;
    forall rec | rec in a.world.sites && rec.id != id ensures rec in b.world.sites {
      var i :| 0 <= i < |a.world.sites| && a.world.sites[i] == rec;
      assert b.world.sites[i] == rec;
    }
    OthersContained(request, a.world, b.world, id);
  }

  lemma ReplacedIsRegistered(a: Moment, b: Moment, rec: SiteRecord)
    requires b.runtimes == a.runtimes
    requires exists i: nat :: ReplacedAt(a.world.sites, b.world.sites, i, rec)
    requires PhpRegistry.HasRuntime(a.runtimes, rec.phpVersion)
    ensures Registered(a) ==> Registered(b)
  {
    hide PhpRegistry.HasRuntime;
  }

  lemma NextIsFresh(requests: seq<Request>, w: World)
    requires requests != [] && FreshIds(requests, w)
    ensures requests[0].Activate? ==> IsRecordId(requests[0].newId) && Fresh(w, requests[0].newId)
  {
    hide IsRecordId, Fresh;
  }

  lemma StillFresh(requests: seq<Request>, a: World, b: World)
    requires requests != [] && FreshIds(requests, a)
    requires Spares(a, b, if requests[0].Activate? then Some(requests[0].newId) else None)
    ensures FreshIds(requests[1..], b)
  {
    hide IsRecordId, Fresh;
    var rest := requests[1..];
    assert forall i | 0 <= i < |rest| :: rest[i] == requests[i + 1];
  }

  // ---- Over whole runs ----

  /** A record the host mirrors stays registered and mirrored for as long as no request names it, whatever fails. */
  lemma {:induction false} MirroredUntilNamed(requests: seq<Request>, trace: seq<Moment>, i: nat, j: nat,
                                              rec: SiteRecord)
    requires |trace| == |requests| + 1 && i <= j <= |requests|
    requires forall k | 0 <= k < |requests| :: Contained(requests[k], trace[k].world, trace[k + 1].world)
    requires rec in trace[i].world.sites && Mirrored(trace[i].world.files, rec)
    requires forall k | i <= k < j :: NamedId(requests[k]) != Some(rec.id)
    ensures rec in trace[j].world.sites && Mirrored(trace[j].world.files, rec)
    decreases j - i
  {
    hide Mirrored, NamedId;
    if i < j {
      MirroredUntilNamed(requests, trace, i, j - 1, rec);
      assert Contained(requests[j - 1], trace[j - 1].world, trace[j].world);
    }
  }

  lemma SameIsRegistered(a: Moment, b: Moment)
    requires b.world.sites == a.world.sites && b.runtimes == a.runtimes
    ensures Registered(a) ==> Registered(b)
  {
    hide PhpRegistry.HasRuntime;
  }

  /** What holds at every moment after `start`, each part for as long as nothing was lost that it needs. */
  ghost predicate Steady(start: Moment, m: Moment) {
    && WellFormed(m.world.sites) && Registered(m) && ForeignPart(m.world.files) == ForeignPart(start.world.files)
    && (m.trouble.lostDeletes == start.trouble.lostDeletes ==> ResolverReady(m.world))
    && (AllUndone(start.trouble, m.trouble) ==> Inv(m.world))
    && Grows(start.trouble, m.trouble)
  }

  lemma SteadyStart(m: Moment)
    requires Inv(m.world) && ResolverReady(m.world) && Registered(m)
    ensures Steady(m, m) && WellFormed(m.world.sites)
  {
    hide Inv, ResolverReady, Registered, WellFormed;
    InvIsWellFormed(m.world);
  }

  lemma SteadyNext(start: Moment, request: Request, a: Moment, b: Moment, refused: bool)
    requires Steady(start, a) && Handled(request, a, b, refused)
    ensures Steady(start, b) && WellFormed(b.world.sites)
  {
    hide Inv, ResolverReady, Registered, WellFormed, Step, Undone, ForeignPart, Contained, Late, Spares;
    if Inv(a.world) && Step(a.world, b.world) {
      StepKeepsInv(a.world, b.world);
    }
  }

  class Daemon {
    const host: Host
    const sites: Registry
    const runtimes: PhpRegistry.Registry
    const activation: Activation.Service
    const management: SiteManagement.Service
    const manager: PhpManager.Manager

    ghost predicate Wired() {
      && activation.Wired() && management.Wired() && manager.Wired()
      && activation.host == management.host == manager.host == host
      && activation.sites == management.sites == manager.sites == sites
      && activation.runtimes == management.runtimes == manager.runtimes == runtimes
    }

    constructor (host: Host)
      ensures Wired() && this.host == host && sites.sites == [] && runtimes.state == PhpRegistry.EMPTY
    {
      var sites := new Registry(host);
      var runtimes := new PhpRegistry.Registry(host);
      this.host, this.sites, this.runtimes := host, sites, runtimes;
      activation := new Activation.Service(host, sites, runtimes);
      management := new SiteManagement.Service(host, sites, runtimes);
      manager := new PhpManager.Manager(host, sites, runtimes);
    }

    ghost function Now(): Moment
      reads host, sites, runtimes
    {
      Moment(World(sites.sites, host.files), runtimes.state, host.trouble)
    }

    ghost predicate Matrix()
      reads runtimes
    {
      PhpRegistry.InMatrix(runtimes.state) && PhpRegistry.Consistent(runtimes.state)
    }

    method HandleActivate(request: Request, now: int) returns (refused: bool)
      requires Wired() && Matrix() && WellFormed(sites.sites)
      requires request.Activate? && IsRecordId(request.newId) && Fresh(Now().world, request.newId)
      modifies host, sites
      ensures Handled(request, old(Now()), Now(), refused)
      ensures !refused ==> CarriedOut(request, old(Now()), Now(), now)
    {
      hide Undone, Added, Fresh, WellFormed, IsRecordId, ResolverReady, OthersKept, PhpRegistry.Missing,
        Activation.Script, Activation.Blocked, Activation.StubAfter, PhpRegistry.ChosenVersion, ForeignPart,
        PhpRegistry.HasRuntime, LateLeft, Canonical, PhpRegistry.Consistent, PhpRegistry.InMatrix, DeriveSiteName,
        NormalizeDomain, Handled, CarriedOut, TrimSpace;
      ghost var m := Now();
      var r := activation.Activate(request.input, request.newId, now, now);
      refused := r.Refused?;
      if r.Kept? {
        ActivationCarriedOut(request, m, Now(), now, r.record);
      }
      ActivationHandled(request, m, Now(), refused);
    }

    method HandleUpdate(request: Request, now: int) returns (refused: bool)
      requires Wired() && Matrix() && WellFormed(sites.sites) && request.Update?
      modifies host, sites
      ensures Handled(request, old(Now()), Now(), refused)
      ensures !refused ==> CarriedOut(request, old(Now()), Now(), now)
    {
      hide Undone, Changed, WellFormed, Inv, OthersKept, Spares, TrimSpace, Has, IndexOf, Get, RenderStub,
        SiteManagement.Script, SiteManagement.VersionAt, SiteManagement.Follows, SiteManagement.Justified, ResolverPart,
        ForeignPart, Registered, Contained, PhpRegistry.HasRuntime, LateLeft, Canonical, PhpRegistry.Consistent,
        PhpRegistry.InMatrix, Unclaimed;
      ghost var m := Now();
      var r := management.Update(request.changes, now);
      if r.Kept? {
        CarriedIsOne(m.world.sites, sites.sites, request.changes, now, r.record);
        ReplacedIsRegistered(m, Now(), r.record);
      } else {
        SameIsRegistered(m, Now());
      }
      ChangeContained(request, m, Now(), TrimSpace(request.changes.siteId));
      StubKeptIsReady(m.world, Now().world);
      refused := r.Refused?;
    }

    method HandleSwitch(request: Request, now: int) returns (refused: bool)
      requires Wired() && Matrix() && WellFormed(sites.sites) && request.Switch?
      modifies host, sites
      ensures Handled(request, old(Now()), Now(), refused)
      ensures !refused ==> CarriedOut(request, old(Now()), Now(), now)
    {
      hide Undone, Changed, WellFormed, Inv, OthersKept, Spares, Has, IndexOf, Get, RenderStub, RuntimeFor,
        ResolverPart, ForeignPart, Registered, Contained, PhpRegistry.HasRuntime, LateLeft, Canonical,
        PhpRegistry.Consistent, PhpRegistry.InMatrix, PhpRegistry.Find;
      ghost var m := Now();
      var r := manager.SwitchSiteRuntime(request.siteId, request.version, now);
      if r.Kept? {
        SwitchedIsOne(m.world.sites, sites.sites, request.siteId, PhpVersions.NormalizeVersion(request.version), now,
                      r.record);
        ReplacedIsRegistered(m, Now(), r.record);
      } else {
        SameIsRegistered(m, Now());
      }
      ChangeContained(request, m, Now(), request.siteId);
      StubKeptIsReady(m.world, Now().world);
      refused := r.Refused?;
    }

    /** Requests to the runtime registry leave sites and host files alone, and keep the matrix. */
    method HandleAddRuntime(request: Request, now: int) returns (refused: bool)
      requires Wired() && Matrix() && WellFormed(sites.sites)
      requires request.AddRuntime? && PhpRegistry.Prints(request.printed)
      modifies host`trouble, runtimes
      ensures Matrix()
      ensures Handled(request, old(Now()), Now(), refused)
      ensures !refused ==> CarriedOut(request, old(Now()), Now(), now)
    {
      hide PhpRegistry.Find, Handled, WellFormed, PhpVersions.NormalizeVersion, PhpRegistry.Consistent,
        PhpRegistry.InMatrix, PhpRegistry.Accepted, PhpRegistry.Recorded, PhpRegistry.Prints, TrimSpace,
        PhpVersions.ServiceNameOf, Registered;
      ghost var m := Now();
      var r := runtimes.Register(request.runtime, request.printed, now);
      refused := !r.Registered?;
      if r.Registered? {
        PhpRegistry.OpKeepsMatrix(m.runtimes, PhpRegistry.Record(r.record));
        VersionsStay(m, Now(), PhpRegistry.Record(r.record));
      } else {
        SameIsRegistered(m, Now());
      }
      NothingHappened(request, m, Now(), refused);
    }

    method HandleChooseDefault(request: Request, now: int) returns (refused: bool)
      requires Wired() && Matrix() && WellFormed(sites.sites) && request.ChooseDefault?
      modifies host`trouble, runtimes
      ensures Matrix()
      ensures Handled(request, old(Now()), Now(), refused)
      ensures !refused ==> CarriedOut(request, old(Now()), Now(), now)
    {
      hide Handled, WellFormed, PhpVersions.NormalizeVersion, PhpRegistry.Consistent, PhpRegistry.InMatrix,
        PhpRegistry.Find, Registered;
      ghost var m := Now();
      var r := runtimes.SetDefault(request.version);
      refused := !r.Found?;
      if r.Found? {
        PhpRegistry.OpKeepsMatrix(m.runtimes, PhpRegistry.Choose(request.version));
        VersionsStay(m, Now(), PhpRegistry.Choose(request.version));
      } else {
        SameIsRegistered(m, Now());
      }
      NothingHappened(request, m, Now(), refused);
    }

    /** One request. When every compensation and registry delete took effect, it is a step of the world: carried
        out, or undone. The stub stays while sites exist unless a registry delete was lost. In every case the
        registry stays canonical and free of duplicates, and other sites stay registered and mirrored. */
    method Handle(request: Request, now: int) returns (refused: bool)
      requires Wired() && Matrix() && WellFormed(sites.sites)
      requires request.Activate? ==> IsRecordId(request.newId) && Fresh(Now().world, request.newId)
      requires request.AddRuntime? ==> PhpRegistry.Prints(request.printed)
      modifies host, sites, runtimes
      ensures Matrix()
      ensures Handled(request, old(Now()), Now(), refused)
      ensures !refused ==> CarriedOut(request, old(Now()), Now(), now)
    {
      hide Handled, CarriedOut, Wired, PhpRegistry.Consistent, PhpRegistry.InMatrix, PhpRegistry.Prints, WellFormed,
        IsRecordId, Fresh;
      match request
      case Activate(_, _) => refused := HandleActivate(request, now);
      case Update(_) => refused := HandleUpdate(request, now);
      case Switch(_, _) => refused := HandleSwitch(request, now);
      case AddRuntime(_, _) => refused := HandleAddRuntime(request, now);
      case ChooseDefault(_) => refused := HandleChooseDefault(request, now);
    }

    /** The next of the requests still to come; the IDs of the others stay fresh. */
    method ServeNext(requests: seq<Request>, now: int) returns (refused: bool)
      requires Wired() && Matrix() && WellFormed(sites.sites) && requests != [] && FreshIds(requests, Now().world)
      requires requests[0].AddRuntime? ==> PhpRegistry.Prints(requests[0].printed)
      modifies host, sites, runtimes
      ensures Matrix() && FreshIds(requests[1..], Now().world)
      ensures Handled(requests[0], old(Now()), Now(), refused)
      ensures !refused ==> CarriedOut(requests[0], old(Now()), Now(), now)
    {
      hide Wired, Matrix, Inv, ResolverReady, Step, Undone, Fresh, WellFormed, IsRecordId, Spares, FreshIds,
        PhpRegistry.Prints, ForeignPart, CarriedOut, Contained, Late, Registered;
      ghost var m := Now();
      NextIsFresh(requests, m.world);
      refused := Handle(requests[0], now);
      StillFresh(requests, m.world, Now().world);
    }

    /** Any requests, one at a time, with any failures. At every moment: the registry is canonical and free of
        duplicates, every site's version has a registered runtime, and every resolver file that is not the
        daemon's keeps its bytes. Until a registry delete is lost, the stub stays while sites exist. Until any
        compensation is lost too, the host mirrors the registry, and what was refused was undone. What was not
        refused was carried out. `Handled` says what each request does beyond that, whatever fails. */
    method Serve(requests: seq<Request>, clock: int -> int) returns (ghost trace: seq<Moment>, refused: seq<bool>)
      requires Wired() && Matrix() && Inv(Now().world) && ResolverReady(Now().world) && Registered(Now())
      requires FreshIds(requests, Now().world)
      requires forall r | r in requests && r.AddRuntime? :: PhpRegistry.Prints(r.printed)
      modifies host, sites, runtimes
      ensures |trace| == |requests| + 1 && trace[0] == old(Now()) && trace[|requests|] == Now()
      ensures |refused| == |requests| && Matrix()
      ensures forall i | 0 <= i < |requests| :: Handled(requests[i], trace[i], trace[i + 1], refused[i])
      ensures forall i | 0 <= i < |requests| && !refused[i] :: CarriedOut(requests[i], trace[i], trace[i + 1], clock(i))
      ensures forall i | 0 <= i <= |requests| :: Steady(trace[0], trace[i])
    {
      hide Wired, Matrix, FreshIds, PhpRegistry.Prints, CarriedOut, Handled, Steady;
      assert requests[0..] == requests;
      SteadyStart(Now());
      trace, refused := [Now()], [];
      for i := 0 to |requests|
        invariant |trace| == i + 1 && |refused| == i && trace[0] == old(Now()) && trace[i] == Now()
        invariant Matrix() && WellFormed(sites.sites)
        invariant forall k | 0 <= k < i :: Handled(requests[k], trace[k], trace[k + 1], refused[k])
        invariant forall k | 0 <= k < i && !refused[k] :: CarriedOut(requests[k], trace[k], trace[k + 1], clock(k))
        invariant forall k | 0 <= k <= i :: Steady(trace[0], trace[k])
        invariant FreshIds(requests[i..], Now().world)
      {
        assert requests[i..][0] == requests[i] && requests[i..][1..] == requests[i + 1..];
        ghost var m := Now();
        var rejected := ServeNext(requests[i..], clock(i));
        SteadyNext(trace[0], requests[i], m, Now(), rejected);
        trace, refused := trace + [Now()], refused + [rejected];
      }
    }
  }

  /** Where everything begins: no sites registered and none on the host, whatever the other files hold. */
  lemma EmptyStart(f: Files, t: Trouble)
    requires Caddy.NoSites(f)
    ensures var m := Moment(World([], f), PhpRegistry.EMPTY, t);
            Inv(m.world) && ResolverReady(m.world) && Registered(m)
  {}
}
