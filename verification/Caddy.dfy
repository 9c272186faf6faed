/** The Caddy adapter: site files and the root import, changed step by step and undone on failure. */
module Caddy {
  import opened Text
  import opened Tokens
  import opened RootImport
  import opened CaddyConfig
  import opened HostModel

  function EnsuredRoot(f: Files): Option<string> {
    EnsureImport(Get(f, CaddyRoot)).content
  }

  /** The files after activating a normalised site. */
  function Activated(f: Files, site: WebSite): Files {
    Put(Put(f, CaddyRoot, EnsuredRoot(f)), CaddySite(SiteToken(site)), Some(RenderSite(site)))
  }

  predicate NoSites(f: Files) {
    forall p | p in f :: !p.CaddySite?
  }

  /** The files after removing a site: its file, and with the last site file the import block. */
  function Removed(f: Files, token: string): Files {
    var g := Put(f, CaddySite(token), None);
    if NoSites(g) then Put(g, CaddyRoot, RemoveImport(Get(g, CaddyRoot)).content) else g
  }

  const APPLIED := [Call(CaddyValidate, true), Call(CaddyReload, true)]

  function AfterReloadFailure(v: bool, r: bool): seq<Call> {
    [Call(CaddyValidate, true), Call(CaddyReload, false), Call(CaddyValidate, v), Call(CaddyReload, r)]
  }

  /** What a rejected configuration leaves in the command log. */
  ghost predicate Rejected(calls: seq<Call>) {
    || calls == []
    || calls == [Call(CaddyValidate, false)]
    || exists v: bool, r: bool :: calls == AfterReloadFailure(v, r)
  }

  /** The root file was replaced by the ensured one, and that write then failed. */
  ghost predicate LateEnsure(a: Files, b: Files) {
    EnsureImport(Get(a, CaddyRoot)).changed && b == Put(a, CaddyRoot, EnsuredRoot(a))
  }

  /** The site file was replaced, and that write then failed; the root file is as before. */
  ghost predicate LateSite(a: Files, b: Files, site: WebSite) {
    b == Put(a, CaddySite(SiteToken(site)), Some(RenderSite(site)))
  }

  ghost predicate LeftByLateChmod(a: Files, b: Files, site: WebSite) {
    LateEnsure(a, b) || LateSite(a, b, site)
  }

  /** The root file was replaced by the filtered one, and that write then failed; the last site's file is
      back. */
  ghost predicate LateRemoval(a: Files, b: Files, token: string) {
    && Get(a, CaddySite(token)).Some? && NoSites(Put(a, CaddySite(token), None))
    && var next := RemoveImport(Get(a, CaddyRoot));
    && next.changed && next.content.Some? && b == Put(a, CaddyRoot, next.content)
  }

  /** The outcome of writing a site file when the activation started from the
      files `f0`. */
  ghost predicate Replaced(f0: Files, after: Files, site: WebSite, t0: Trouble, t: Trouble, ok: bool) {
    && (ok <==> t.faults == t0.faults)
    && (ok ==> after == Activated(f0, site) && t == t0)
    && (!ok && Clean(t0, t) ==> after == f0)
    && (!ok && t.lostUndos == t0.lostUndos && t.lateChmods != t0.lateChmods ==> LateSite(f0, after, site))
    && SameBut(f0, after, {CaddyRoot, CaddySite(SiteToken(site))})
    && Grows(t0, t) && t.lostDeletes == t0.lostDeletes
  }

  /** A site ID is blank, names no file, or names a file that carries the managed marker. */
  predicate Removable(f: Files, siteId: string) {
    TrimSpace(siteId) == "" || var c := Get(f, CaddySite(RemoveToken(siteId))); c.Some? ==> Contains(c.value, MARKER)
  }

  predicate Present(f: Files, siteId: string) {
    TrimSpace(siteId) != "" && Get(f, CaddySite(RemoveToken(siteId))).Some?
  }

  lemma EnsuredIsSome(root: Option<string>)
    ensures EnsureImport(root).content.Some?
    ensures !EnsureImport(root).changed ==> EnsureImport(root).content == root
  {
    hide Contains, TrimRight, Block;
  }

  lemma RemoveUnchanged(root: Option<string>)
    ensures !RemoveImport(root).changed ==> RemoveImport(root).content == root
  {
    hide Contains, Tidied, Survivors;
  }

  ghost predicate Imported(f: Files) {
    var root := Get(f, CaddyRoot);
    root.Some? && Contains(root.value, LINE)
  }

  /** As long as some site file exists, the root file holds the import line. */
  ghost predicate SitesAreImported(f: Files) {
    NoSites(f) || Imported(f)
  }

  datatype Op = Activate(site: WebSite) | Remove(siteId: string)

  function OpPath(op: Op): Path {
    match op
    case Activate(raw) => CaddySite(SiteToken(NormalizeSite(raw)))
    case Remove(siteId) => CaddySite(RemoveToken(siteId))
  }

  /** The root file and the files of the sites that some request names. */
  ghost function Touched(ops: seq<Op>): set<Path> {
    if ops == [] then {CaddyRoot} else Touched(ops[..|ops| - 1]) + {OpPath(ops[|ops| - 1])}
  }

  lemma {:induction false} RootIsTouched(ops: seq<Op>)
    ensures CaddyRoot in Touched(ops)
  {
    hide OpPath;
    if ops != [] {
      RootIsTouched(ops[..|ops| - 1]);
    }
  }

  /** A request that was carried out, or undone. */
  ghost predicate Settled(op: Op, a: Files, b: Files) {
    || b == a
    || match op
       case Activate(raw) => Complete(raw) && b == Activated(a, NormalizeSite(raw))
       case Remove(siteId) => Present(a, siteId) && b == Removed(a, RemoveToken(siteId))
  }

  /** A request whose write failed after replacing its file. */
  ghost predicate Late(op: Op, a: Files, b: Files) {
    match op
    case Activate(raw) => LeftByLateChmod(a, b, NormalizeSite(raw))
    case Remove(siteId) => LateRemoval(a, b, RemoveToken(siteId))
  }

  /** The late writes that leave a site without its import: a site file where the root file had no import,
      and a filtered root file that had it in its managed blocks only. */
  ghost predicate Breaks(op: Op, a: Files, b: Files) {
    match op
    case Activate(raw) => LateSite(a, b, NormalizeSite(raw)) && !Imported(a)
    case Remove(siteId) => LateRemoval(a, b, RemoveToken(siteId)) && !ImportsOutside(Get(a, CaddyRoot).value)
  }

  lemma ActivatedIsImported(f: Files, site: WebSite)
    ensures Imported(Activated(f, site))
  {
    hide Contains, EnsureImport, Get, Put, SiteToken, RenderSite;
    EnsureIdempotent(Get(f, CaddyRoot));
    GetPut(f, CaddyRoot, EnsuredRoot(f));
    GetPut(Put(f, CaddyRoot, EnsuredRoot(f)), CaddySite(SiteToken(site)), Some(RenderSite(site)));
  }

  lemma RemovedIsImported(f: Files, token: string)
    requires SitesAreImported(f)
    ensures SitesAreImported(Removed(f, token))
  {
    hide Contains, RemoveImport;
    var g := Put(f, CaddySite(token), None);
    if NoSites(g) {
      assert NoSites(Removed(f, token));
    } else {
      assert Get(g, CaddyRoot) == Get(f, CaddyRoot);
    }
  }

  lemma ImportedSuffices(f: Files)
    requires Imported(f)
    ensures SitesAreImported(f)
  {}

  /** A site file written late without its import breaks the rule exactly when the root file had no
      import before. */
  lemma LateSiteIsImported(f: Files, site: WebSite)
    ensures SitesAreImported(Put(f, CaddySite(SiteToken(site)), Some(RenderSite(site)))) <==> Imported(f)
  {
    hide Contains, SiteToken, RenderSite;
    var p := CaddySite(SiteToken(site));
    var g := Put(f, p, Some(RenderSite(site)));
    assert p in g;
    GetPut(f, p, Some(RenderSite(site)));
  }

  /** A root file ensured late has the import. */
  lemma LateEnsureIsImported(a: Files, b: Files)
    requires LateEnsure(a, b)
    ensures Imported(b)
  {
    hide Contains, EnsureImport, Get, Put;
    EnsureIdempotent(Get(a, CaddyRoot));
    GetPut(a, CaddyRoot, EnsuredRoot(a));
  }

  /** A root file filtered late keeps the rule exactly when a line outside its managed blocks had the
      import: the site's file is back, so there is a site to import. */
  lemma LateRemovalIsImported(a: Files, b: Files, token: string)
    requires LateRemoval(a, b, token)
    ensures RemoveImport(Get(a, CaddyRoot)).changed && Get(a, CaddyRoot).Some?
    ensures SitesAreImported(b) <==> ImportsOutside(Get(a, CaddyRoot).value)
  {
    hide Contains, Tidied, Survivors, ImportsOutside;
    var next := RemoveImport(Get(a, CaddyRoot)).content;
    GetPut(a, CaddyRoot, next);
    assert CaddySite(token) in b;
    FilteredImport(Get(a, CaddyRoot).value);
  }

  /** One request keeps the rule unless it ends in one of the two breaking late writes. */
  lemma OutcomeKeepsImport(op: Op, a: Files, b: Files)
    requires SitesAreImported(a) && (Settled(op, a, b) || Late(op, a, b))
    ensures SitesAreImported(b) <==> !Breaks(op, a, b)
    ensures Settled(op, a, b) ==> SitesAreImported(b)
  {
    hide Activated, Removed, SitesAreImported, Imported, ImportsOutside, RemoveImport, EnsureImport, Get, Put;
    match op
    case Activate(raw) =>
      var site := NormalizeSite(raw);
      LateSiteIsImported(a, site);
      if b == Activated(a, site) {
        ActivatedIsImported(a, site);
        ImportedSuffices(b);
      } else if LateEnsure(a, b) {
        LateEnsureIsImported(a, b);
        ImportedSuffices(b);
      }
    case Remove(siteId) =>
      if LateRemoval(a, b, RemoveToken(siteId)) {
        LateRemovalIsImported(a, b, RemoveToken(siteId));
      }
      if b == Removed(a, RemoveToken(siteId)) {
        RemovedIsImported(a, RemoveToken(siteId));
      }
  }

  /** Over any sequence of requests, late writes included, the rule holds throughout exactly when no request
      ended in a breaking late write. */
  lemma {:induction false} SitesAreImportedThroughout(ops: seq<Op>, run: seq<Files>)
    requires |run| == |ops| + 1 && SitesAreImported(run[0])
    requires forall i | 0 <= i < |ops| :: Settled(ops[i], run[i], run[i + 1]) || Late(ops[i], run[i], run[i + 1])
    ensures (forall f | f in run :: SitesAreImported(f)) <==>
            (forall i | 0 <= i < |ops| :: !Breaks(ops[i], run[i], run[i + 1]))
  {
    hide Settled, Late, Breaks, SitesAreImported;
    var n := |ops| - 1;
    if n >= 0 {
      SitesAreImportedThroughout(ops[..n], run[..n + 1]);
      assert run == run[..n + 1] + [run[n + 1]];
      assert run[n] in run[..n + 1];
      if SitesAreImported(run[n]) {
        OutcomeKeepsImport(ops[n], run[n], run[n + 1]);
      }
    } else {
      assert run == [run[0]];
    }
  }

  lemma CompleteIs(raw: WebSite)
    ensures Complete(raw) <==>
            TrimSpace(raw.domain) != "" && TrimSpace(raw.rootPath) != "" && TrimSpace(raw.socket) != ""
  {
    hide TrimSpace;
  }

  class Manager {
    const host: Host

    constructor (host: Host)
      ensures this.host == host
    {
      this.host := host;
    }

    ghost function LostUndo(): Trouble
      reads host
    {
      host.trouble.(lostUndos := host.trouble.lostUndos + 1)
    }

    method UndoRoot(changed: bool, previous: Option<string>)
      modifies host`files, host`trouble
      ensures host.trouble == old(host.trouble) || host.trouble == old(LostUndo())
      ensures host.files == if changed && host.trouble == old(host.trouble)
                            then Put(old(host.files), CaddyRoot, previous) else old(host.files)
      ensures SameBut(old(host.files), host.files, {CaddyRoot})
    {
      if changed {
        host.Undo(CaddyRoot, previous);
      }
    }

    /** Restores a site file, then the root file if it was changed. */
    method UndoSite(path: Path, previous: Option<string>, rootChanged: bool, rootPrevious: Option<string>)
      modifies host`files, host`trouble
      ensures Grows(old(host.trouble), host.trouble)
      ensures host.trouble == old(host.trouble).(lostUndos := host.trouble.lostUndos)
      ensures host.trouble == old(host.trouble) ==>
                var f := Put(old(host.files), path, previous);
                host.files == if rootChanged then Put(f, CaddyRoot, rootPrevious) else f
      ensures SameBut(old(host.files), host.files, {CaddyRoot, path})
    {
      hide Get, Put;
      host.Undo(path, previous);
      UndoRoot(rootChanged, rootPrevious);
    }

    /** Writes the site file, validates and reloads. */
    method ApplySite(site: WebSite, previous: Option<string>, rootChanged: bool, rootPrevious: Option<string>,
                     ghost f0: Files)
      returns (ok: bool)
      requires previous == Get(host.files, CaddySite(SiteToken(site)))
      requires rootPrevious == Get(f0, CaddyRoot)
      requires host.files == Put(f0, CaddyRoot, EnsuredRoot(f0))
      requires !rootChanged ==> host.files == f0
      modifies host
      ensures Replaced(f0, host.files, site, old(host.trouble), host.trouble, ok)
      ensures ok ==> host.calls == old(host.calls) + APPLIED
      ensures !ok ==> exists tail :: Rejected(tail) && host.calls == old(host.calls) + tail
    {
      hide EnsureImport, RenderSite, Get, Put, SiteToken, EnsuredRoot;
      var path := CaddySite(SiteToken(site));
      ghost var f1, calls0 := host.files, host.calls;
      PutBack(f0, CaddyRoot, EnsuredRoot(f0));
      GetPut(f0, CaddyRoot, EnsuredRoot(f0));
      PutBack(f1, path, Some(RenderSite(site)));
      GetPut(f1, path, Some(RenderSite(site)));
      PutApart(f0, CaddyRoot, EnsuredRoot(f0), path, Some(RenderSite(site)));
      assert host.calls == host.calls + [] && Rejected([]);

      var written := host.WriteThenChmod(path, RenderSite(site));
      if !written {
        UndoRoot(rootChanged, rootPrevious);
        return false;
      }
      var validated := host.Run(CaddyValidate);
      if !validated {
        assert Rejected([Call(CaddyValidate, false)]);
        UndoSite(path, previous, rootChanged, rootPrevious);
        return false;
      }
      var reloaded := host.Run(CaddyReload);
      if !reloaded {
        UndoSite(path, previous, rootChanged, rootPrevious);
        var v := host.RunQuietly(CaddyValidate);
        var r := host.RunQuietly(CaddyReload);
        assert Rejected(AfterReloadFailure(v, r));
        assert host.calls == calls0 + AfterReloadFailure(v, r);
        return false;
      }
      return true;
    }

    /** The second half of an activation: the site file, once the root file is ensured. */
    method ReplaceSite(site: WebSite, rootChanged: bool, rootPrevious: Option<string>, ghost f0: Files)
      returns (ok: bool)
      requires rootPrevious == Get(f0, CaddyRoot)
      requires host.files == Put(f0, CaddyRoot, EnsuredRoot(f0))
      requires !rootChanged ==> host.files == f0
      modifies host
      ensures Replaced(f0, host.files, site, old(host.trouble), host.trouble, ok)
      ensures ok ==> host.calls == old(host.calls) + APPLIED
      ensures !ok ==> exists tail :: Rejected(tail) && host.calls == old(host.calls) + tail
    {
      hide EnsureImport, RenderSite, Get, Put, SiteToken, EnsuredRoot;
      var path := CaddySite(SiteToken(site));
      PutBack(f0, CaddyRoot, EnsuredRoot(f0));
      GetPut(f0, CaddyRoot, EnsuredRoot(f0));
      assert host.calls == host.calls + [] && Rejected([]);

      var read, previous := host.ReadIfExists(path);
      if !read {
        UndoRoot(rootChanged, rootPrevious);
        return false;
      }
      var parentOk := host.Attempt();
      if !parentOk {
        UndoRoot(rootChanged, rootPrevious);
        return false;
      }
      var dirOk := host.Attempt();
      if !dirOk {
        UndoRoot(rootChanged, rootPrevious);
        return false;
      }
      ok := ApplySite(site, previous, rootChanged, rootPrevious, f0);
    }

    /** Either the site is activated, or, when every compensation took effect and no write failed after
        replacing its file, all files are as before. A write that fails late leaves one of two files
        replaced. Nothing but the root file and the site's own file is ever touched. */
    method ActivateSite(raw: WebSite) returns (ok: bool)
      modifies host
      ensures ok <==> Complete(raw) && host.trouble.faults == old(host.trouble).faults
      ensures (TrimSpace(raw.domain) == "" || TrimSpace(raw.rootPath) == "" || TrimSpace(raw.socket) == "") ==>
                !ok && host.files == old(host.files) && host.calls == old(host.calls)
      ensures ok ==> host.files == Activated(old(host.files), NormalizeSite(raw))
      ensures ok ==> host.calls == old(host.calls) + APPLIED && host.trouble == old(host.trouble)
      ensures !ok && Clean(old(host.trouble), host.trouble) ==> host.files == old(host.files)
      ensures !ok && host.trouble.lostUndos == old(host.trouble).lostUndos ==>
                if host.trouble.lateChmods == old(host.trouble).lateChmods then host.files == old(host.files)
                else LeftByLateChmod(old(host.files), host.files, NormalizeSite(raw))
      ensures !ok ==> exists tail :: Rejected(tail) && host.calls == old(host.calls) + tail
      ensures SameBut(old(host.files), host.files, {CaddyRoot, CaddySite(SiteToken(NormalizeSite(raw)))})
      ensures Grows(old(host.trouble), host.trouble)
      ensures host.trouble.lostDeletes == old(host.trouble).lostDeletes
    {
      hide TrimSpace, EnsureImport, RenderSite, Complete, NormalizeSite, Activated, Get, Put, SiteToken;
      assert host.calls == host.calls + [] && Rejected([]);
      CompleteIs(raw);
      if !Complete(raw) {
        return false;
      }
      var publicDirOk := host.Attempt();
      if !publicDirOk {
        return false;
      }
      var site := NormalizeSite(raw);
      ghost var f0 := host.files;

      var rootRead, rootPrevious := host.ReadIfExists(CaddyRoot);
      if !rootRead {
        return false;
      }
      var edit := EnsureImport(rootPrevious);
      EnsuredIsSome(rootPrevious);
      PutSame(f0, CaddyRoot);
      GetPut(f0, CaddyRoot, edit.content);
      if edit.changed {
        var dirOk := host.Attempt();
        if !dirOk {
          return false;
        }
        var written := host.WriteThenChmod(CaddyRoot, edit.content.value);
        if !written {
          return false;
        }
      }
      ok := ReplaceSite(site, edit.changed, rootPrevious, f0);
    }

    // ---- Removal ----

    /** `restoreFile` used forwards: writes the file, or deletes it. */
    method ReplaceRoot(next: Option<string>) returns (ok: bool)
      modifies host`files, host`trouble
      ensures ok ==> host.trouble == old(host.trouble)
      ensures !ok ==> host.trouble.faults == old(host.trouble).faults + 1
      ensures next.None? ==> host.trouble.lateChmods == old(host.trouble).lateChmods
      ensures Grows(old(host.trouble), host.trouble)
      ensures host.trouble.lostUndos == old(host.trouble).lostUndos
      ensures host.trouble.lostDeletes == old(host.trouble).lostDeletes
      ensures host.files == if ok || !Clean(old(host.trouble), host.trouble) then Put(old(host.files), CaddyRoot, next)
                            else old(host.files)
    {
      if next.None? {
        ok := host.Delete(CaddyRoot);
      } else {
        ok := host.WriteThenChmod(CaddyRoot, next.value);
      }
    }

    /** Validates and reloads; on failure the deleted file and the root file are written back. */
    method ApplyRemoval(path: Path, previous: Option<string>, rootChanged: bool, rootPrevious: Option<string>,
                        ghost f0: Files)
      returns (ok: bool)
      requires path.CaddySite? && previous == Get(f0, path) && rootPrevious == Get(f0, CaddyRoot)
      requires Put(Put(host.files, path, previous), CaddyRoot, rootPrevious) == f0
      requires !rootChanged ==> Put(host.files, path, previous) == f0
      requires SameBut(f0, host.files, {CaddyRoot, path})
      modifies host
      ensures ok <==> host.trouble.faults == old(host.trouble).faults
      ensures ok ==> host.trouble == old(host.trouble) && host.files == old(host.files)
      ensures ok ==> host.calls == old(host.calls) + APPLIED
      ensures !ok && host.trouble.lostUndos == old(host.trouble).lostUndos ==> host.files == f0
      ensures !ok ==> exists tail :: Rejected(tail) && host.calls == old(host.calls) + tail
      ensures SameBut(f0, host.files, {CaddyRoot, path})
      ensures host.trouble.lateChmods == old(host.trouble).lateChmods
      ensures Grows(old(host.trouble), host.trouble)
      ensures host.trouble.lostDeletes == old(host.trouble).lostDeletes
    {
      hide Get, Put;
      ghost var calls0 := host.calls;
      var validated := host.Run(CaddyValidate);
      if !validated {
        assert Rejected([Call(CaddyValidate, false)]);
        UndoSite(path, previous, rootChanged, rootPrevious);
        return false;
      }
      var reloaded := host.Run(CaddyReload);
      if !reloaded {
        UndoSite(path, previous, rootChanged, rootPrevious);
        var v := host.RunQuietly(CaddyValidate);
        var r := host.RunQuietly(CaddyReload);
        assert Rejected(AfterReloadFailure(v, r));
        assert host.calls == calls0 + AfterReloadFailure(v, r);
        return false;
      }
      return true;
    }

    /** The second half of a removal, once the site's file is deleted. */
    method DropImport(path: Path, previous: Option<string>, rootPrevious: Option<string>, ghost f0: Files)
      returns (ok: bool)
      requires path.CaddySite? && previous == Get(f0, path) && rootPrevious == Get(f0, CaddyRoot)
      requires previous.Some? && host.files == Put(f0, path, None)
      modifies host
      ensures ok <==> host.trouble.faults == old(host.trouble).faults
      ensures ok ==> host.trouble == old(host.trouble)
      ensures ok ==> host.files == Removed(f0, path.token) && host.calls == old(host.calls) + APPLIED
      ensures !ok && Clean(old(host.trouble), host.trouble) ==> host.files == f0
      ensures (!ok && host.trouble.lostUndos == old(host.trouble).lostUndos
               && host.trouble.lateChmods != old(host.trouble).lateChmods) ==> LateRemoval(f0, host.files, path.token)
      ensures !ok ==> exists tail :: Rejected(tail) && host.calls == old(host.calls) + tail
      ensures SameBut(f0, host.files, {CaddyRoot, path})
      ensures Grows(old(host.trouble), host.trouble)
      ensures host.trouble.lostDeletes == old(host.trouble).lostDeletes
    {
      hide RemoveImport, Get, Put, NoSites;
      assert host.calls == host.calls + [] && Rejected([]);
      ghost var f1 := host.files;
      GetPut(f0, path, None);
      PutBack(f0, path, None);
      PutSame(f0, CaddyRoot);
      PutSame(f1, CaddyRoot);
      RemoveUnchanged(rootPrevious);
      var rootChanged := false;
      if NoSites(host.files) {
        var next, changed := RemoveManagedRootImport(rootPrevious);
        GetPut(f1, CaddyRoot, next);
        PutApart(f0, path, None, CaddyRoot, next);
        PutBack(f0, CaddyRoot, next);
        if changed {
          var replaced := ReplaceRoot(next);
          if !replaced {
            host.Undo(path, previous);
            return false;
          }
          rootChanged := true;
        }
      }
      ok := ApplyRemoval(path, previous, rootChanged, rootPrevious, f0);
    }

    /** Either the site's file is gone (and with the last file the import block), or, under the same
        conditions as for an activation, all files are as before. */
    method RemoveSite(siteId: string) returns (ok: bool)
      modifies host
      ensures ok <==> Removable(old(host.files), siteId) && host.trouble.faults == old(host.trouble).faults
      ensures (Present(old(host.files), siteId)
               && !Contains(Get(old(host.files), CaddySite(RemoveToken(siteId))).value, "# Managed by Lara Nux")) ==>
                !ok && host.files == old(host.files) && host.calls == old(host.calls)
      ensures ok ==> host.trouble == old(host.trouble)
      ensures ok && !Present(old(host.files), siteId) ==> host.files == old(host.files) && host.calls == old(host.calls)
      ensures ok && Present(old(host.files), siteId) ==>
                && host.files == Removed(old(host.files), RemoveToken(siteId))
                && host.calls == old(host.calls) + APPLIED
      ensures !ok && Clean(old(host.trouble), host.trouble) ==> host.files == old(host.files)
      ensures !ok && host.trouble.lostUndos == old(host.trouble).lostUndos ==>
                if host.trouble.lateChmods == old(host.trouble).lateChmods then host.files == old(host.files)
                else LateRemoval(old(host.files), host.files, RemoveToken(siteId))
      ensures !ok ==> exists tail :: Rejected(tail) && host.calls == old(host.calls) + tail
      ensures SameBut(old(host.files), host.files, {CaddyRoot, CaddySite(RemoveToken(siteId))})
      ensures Grows(old(host.trouble), host.trouble)
      ensures host.trouble.lostDeletes == old(host.trouble).lostDeletes
    {
      hide RemoveImport, Get, Put, SanitizeToken, Contains, TrimSpace, Removed;
      assert host.calls == host.calls + [] && Rejected([]);
      var fileName := TrimSpace(siteId);
      if fileName == "" {
        return true;
      }
      var rootRead, rootPrevious := host.ReadIfExists(CaddyRoot);
      if !rootRead {
        return false;
      }
      var path := CaddySite(SanitizeToken(fileName));
      var read, previous := host.ReadIfExists(path);
      if !read {
        return false;
      }
      if previous.None? {
        return true;
      }
      if !Contains(previous.value, MARKER) {
        return false;
      }
      var deleted := host.Delete(path);
      GetPut(old(host.files), path, None);
      PutBack(old(host.files), path, None);
      if !deleted {
        return false;
      }
      var listed := host.Attempt();
      if !listed {
        host.Undo(path, previous);
        return false;
      }
      ok := DropImport(path, previous, rootPrevious, old(host.files));
    }

    method Handle(op: Op) returns (ok: bool)
      modifies host
      ensures host.trouble.lostUndos == old(host.trouble).lostUndos ==>
                Settled(op, old(host.files), host.files) || Late(op, old(host.files), host.files)
      ensures Clean(old(host.trouble), host.trouble) ==> Settled(op, old(host.files), host.files)
      ensures SameBut(old(host.files), host.files, {CaddyRoot, OpPath(op)})
      ensures Grows(old(host.trouble), host.trouble)
    {
      hide Activated, Removed, LeftByLateChmod, LateRemoval, Removable, Rejected, Complete, NormalizeSite, SiteToken,
        RemoveToken, SameBut;
      match op
      case Activate(raw) =>
        ok := ActivateSite(raw);
      case Remove(siteId) =>
        ok := RemoveSite(siteId);
    }

    /** Any sequence of calls, with any failures. Only the root file and the files of the named sites are ever
        touched. Unless a restore was lost, "some site file implies the import line" holds throughout exactly
        when no call ended in a breaking late write; and without late writes it holds throughout. */
    method Serve(ops: seq<Op>) returns (ghost run: seq<Files>)
      modifies host
      ensures |run| == |ops| + 1 && run[0] == old(host.files) && run[|ops|] == host.files
      ensures host.trouble.lostUndos == old(host.trouble).lostUndos ==>
                forall i | 0 <= i < |ops| :: Settled(ops[i], run[i], run[i + 1]) || Late(ops[i], run[i], run[i + 1])
      ensures host.trouble.lostUndos == old(host.trouble).lostUndos && SitesAreImported(old(host.files)) ==>
                ((forall f | f in run :: SitesAreImported(f)) <==>
                 (forall i | 0 <= i < |ops| :: !Breaks(ops[i], run[i], run[i + 1])))
      ensures Clean(old(host.trouble), host.trouble) && SitesAreImported(old(host.files)) ==>
                forall f | f in run :: SitesAreImported(f)
      ensures SameBut(old(host.files), host.files, Touched(ops))
    {
      hide Settled, Late, Breaks, SitesAreImported, OpPath, SameBut;
      run := [host.files];
      SameButItself(host.files, Touched([]));
      assert ops[..0] == [];
      for i := 0 to |ops|
        invariant |run| == i + 1 && run[0] == old(host.files) && run[i] == host.files
        invariant Grows(old(host.trouble), host.trouble)
        invariant host.trouble.lostUndos == old(host.trouble).lostUndos ==>
                    forall k | 0 <= k < i :: Settled(ops[k], run[k], run[k + 1]) || Late(ops[k], run[k], run[k + 1])
        invariant Clean(old(host.trouble), host.trouble) && SitesAreImported(old(host.files)) ==>
                    forall f | f in run :: SitesAreImported(f)
        invariant SameBut(old(host.files), host.files, Touched(ops[..i]))
      {
        ghost var before := host.files;
        var ok := Handle(ops[i]);
        if SitesAreImported(before) && Settled(ops[i], before, host.files) {
          OutcomeKeepsImport(ops[i], before, host.files);
        }
        assert ops[..i + 1][..i] == ops[..i];
        RootIsTouched(ops[..i]);
        SameButTogether(old(host.files), before, host.files, Touched(ops[..i]), {CaddyRoot, OpPath(ops[i])},
                        Touched(ops[..i + 1]));
        run := run + [host.files];
      }
      assert ops[..|ops|] == ops;
      if host.trouble.lostUndos == old(host.trouble).lostUndos && SitesAreImported(old(host.files)) {
        SitesAreImportedThroughout(ops, run);
      }
    }
  }

  // ---- What late writes and undone activations change ----

  /** A late write shows, unless it rewrote a site file with the bytes it had. */
  lemma LateWriteShows(a: Files, b: Files, site: WebSite)
    requires LeftByLateChmod(a, b, site)
    ensures b == a <==> LateSite(a, b, site) && Get(a, CaddySite(SiteToken(site))) == Some(RenderSite(site))
  {
    hide Contains, EnsureImport, SiteToken, RenderSite, Get, Put;
    var p := CaddySite(SiteToken(site));
    EnsureIdempotent(Get(a, CaddyRoot));
    GetPut(a, CaddyRoot, EnsuredRoot(a));
    GetPut(a, p, Some(RenderSite(site)));
    PutSame(a, p);
  }

  /** Likewise for a removal: the root file had no marker line and was tidy. */
  lemma LateRemovalShows(a: Files, b: Files, token: string)
    requires LateRemoval(a, b, token)
    ensures Get(a, CaddyRoot).Some?
    ensures var text := Get(a, CaddyRoot).value;
            b == a <==> NoMarkerLine(text) && Tidied(text) == Some(text)
  {
    hide Contains, Tidied, Survivors, NoMarkerLine;
    GetPut(a, CaddyRoot, RemoveImport(Get(a, CaddyRoot)).content);
    PutSame(a, CaddyRoot);
    RemovalOfNothing(Get(a, CaddyRoot).value);
  }

  lemma OneRootFile(f: Files, token: string)
    requires f == map[CaddyRoot := "a"]
    ensures Get(f, CaddyRoot) == Some("a") && NoSites(f) && Get(f, CaddySite(token)).None?
  {}

  lemma RemovedAgain(f: Files, site: WebSite)
    requires NoSites(f) && Get(f, CaddySite(SiteToken(site))).None?
    ensures NoSites(Put(Activated(f, site), CaddySite(SiteToken(site)), None))
  {
    hide SiteToken, RenderSite, EnsuredRoot;
    EnsuredIsSome(Get(f, CaddyRoot));
  }

  lemma OneLetterIsNoMarker()
    ensures !IsMarker("a")
  {
    hide Trim;
    TrimBare("a", SPACES);
    assert |START| == 37 && |END| == 35;
  }

  /** Over the root file "a": ensuring adds a block, and filtering it leaves "a" without an import. */
  lemma OwnLineOnly()
    ensures var ensured := EnsureImport(Some("a")).content;
            && ensured.Some? && !ImportsOutside(ensured.value)
            && RemoveImport(ensured).changed && RemoveImport(ensured).content.Some?
  {
    hide Contains, Survivors, Split, Trim, Block, TrimRight, IsMarker;
    assert !Contains("a", LINE) by { ShortHoldsNothing("a", LINE); }
    EnsuredImportsOnlyInside("a");
    RemoveAfterEnsure("a");
    RootImportRoundTrip("a");
    SplitWhole("a", '\n');
    TrimBare("a", SPACES);
    assert NoMarkerLine("a") by { OneLetterIsNoMarker(); }
  }

  /** The witness for activations: no root file before, and none after a site file written late. */
  lemma LateSiteBreaks(site: WebSite) returns (a: Files, b: Files)
    ensures a == map[] && LateSite(a, b, site) && SitesAreImported(a) && !SitesAreImported(b)
  {
    hide SiteToken, RenderSite;
    a := map[];
    b := Put(a, CaddySite(SiteToken(site)), Some(RenderSite(site)));
    LateSiteIsImported(a, site);
  }

  /** The witness for removals: the root file held one line of the user's own, a site was activated, and its
      removal failed late. The import was there before and is gone, while the site is still there. */
  lemma LateRemovalBreaks(site: WebSite) returns (a: Files, b: Files)
    ensures a == Activated(map[CaddyRoot := "a"], site)
    ensures LateRemoval(a, b, SiteToken(site)) && SitesAreImported(a) && !SitesAreImported(b)
  {
    hide Contains, EnsureImport, RemoveImport, SiteToken, RenderSite, ImportsOutside, Get, Put, NoSites;
    var f: Files := map[CaddyRoot := "a"];
    a := Activated(f, site);
    var next := RemoveImport(Get(a, CaddyRoot));
    b := Put(a, CaddyRoot, next.content);
    var p := CaddySite(SiteToken(site));
    OwnLineOnly();
    assert Get(f, CaddyRoot) == Some("a") && NoSites(f) && Get(f, p).None? by { OneRootFile(f, SiteToken(site)); }
    GetPut(f, CaddyRoot, EnsuredRoot(f));
    GetPut(Put(f, CaddyRoot, EnsuredRoot(f)), p, Some(RenderSite(site)));
    assert NoSites(Put(a, p, None)) by { RemovedAgain(f, site); }
    ActivatedIsImported(f, site);
    ImportedSuffices(a);
    LateRemovalIsImported(a, b, SiteToken(site));
  }

  /** Activating a site that had no file and removing it again gives back every file, except that the
      root file keeps its import while other sites remain, and otherwise goes through the import
      round trip. */
  lemma ActivateThenRemove(f: Files, site: WebSite)
    requires Get(f, CaddySite(SiteToken(site))).None?
    ensures Removed(Activated(f, site), SiteToken(site)) ==
            Put(f, CaddyRoot, if NoSites(f) then RemoveImport(EnsuredRoot(f)).content else EnsuredRoot(f))
  {
    hide SiteToken, RenderSite, EnsuredRoot, RemoveImport;
    var p := CaddySite(SiteToken(site));
    var g := Put(Activated(f, site), p, None);
    assert g == Put(f, CaddyRoot, EnsuredRoot(f));
    EnsuredIsSome(Get(f, CaddyRoot));
    assert NoSites(g) <==> NoSites(f);
  }
}
