/** The PHP-FPM adapter: a pool file and a systemd override, written, validated and undone together. */
module Fpm {
  import opened Text
  import opened PhpVersions
  import opened HostModel

  datatype Runtime = Runtime(version: string, service: string, fpmBinary: string, socket: string)

  function OrElse(value: string, fallback: string): string {
    var v := TrimSpace(value);
    if v == "" then fallback else v
  }

  function NormalizeRuntime(raw: Runtime): Option<Runtime> {
    var v := AdapterVersion(raw.version);
    if v == "" then None
    else Some(Runtime(v,
                      OrElse(raw.service, "php" + v + "-fpm"),
                      OrElse(raw.fpmBinary, "/usr/sbin/php-fpm" + v),
                      OrElse(raw.socket, "/run/php/lara-nux-php" + v + "-fpm.sock")))
  }

  /** The files after materialising a normalised runtime. */
  function Materialized(f: Files, r: Runtime): Files {
    Put(Put(f, FpmPool(r.version), Some(RenderPool(r.socket))), FpmOverride(r.service), Some(RenderOverride()))
  }

  function Applied(r: Runtime): seq<Call> {
    [Call(DaemonReload, true), Call(FpmTest(r.fpmBinary), true), Call(Restart(r.service), true)]
  }

  function Backed(r: Runtime, k: nat, reloaded: bool, restarted: bool): seq<Call>
    requires k < 3
  {
    Applied(r)[..k] + [Call(Applied(r)[k].command, false)] +
    [Call(DaemonReload, reloaded), Call(Restart(r.service), restarted)]
  }

  /** What a materialisation runs when it fails: the commands up to the failing one and, once both files
      were written, the reload and the restart that follow their restoration. */
  ghost predicate Refused(r: Runtime, calls: seq<Call>) {
    || calls == []
    || exists k: nat, reloaded: bool, restarted: bool | k < 3 :: calls == Backed(r, k, reloaded, restarted)
  }

  /** The same for a runtime as given: nothing, or what its normal form runs. */
  ghost predicate Unserved(raw: Runtime, calls: seq<Call>) {
    calls == [] || (NormalizeRuntime(raw).Some? && Refused(NormalizeRuntime(raw).value, calls))
  }

  /** The two files of a runtime; no other version's pool file is among them. */
  ghost function Touched(raw: Runtime): set<Path> {
    match NormalizeRuntime(raw)
    case None => {}
    case Some(r) => {FpmPool(r.version), FpmOverride(r.service)}
  }

  /** The pool file of a runtime is as before or as printed for it, also when a restore is lost. */
  ghost predicate PoolKept(a: Files, b: Files, r: Runtime) {
    || Get(b, FpmPool(r.version)) == Get(a, FpmPool(r.version))
    || Get(b, FpmPool(r.version)) == Some(RenderPool(r.socket))
  }

  /** What one materialisation does to the files: all of it, or, when every compensation took effect,
      nothing. */
  ghost predicate Outcome(a: Files, b: Files, raw: Runtime, t0: Trouble, t: Trouble, ok: bool) {
    && (ok <==> NormalizeRuntime(raw).Some? && t.faults == t0.faults)
    && (ok ==> b == Materialized(a, NormalizeRuntime(raw).value) && t == t0)
    && (!ok && t.lostUndos == t0.lostUndos ==> b == a)
    && SameBut(a, b, Touched(raw))
    && (NormalizeRuntime(raw).Some? ==> PoolKept(a, b, NormalizeRuntime(raw).value))
    && Grows(t0, t) && t.lateChmods == t0.lateChmods && t.lostDeletes == t0.lostDeletes
  }

  lemma MaterializedBack(f: Files, r: Runtime)
    ensures var pool, override := FpmPool(r.version), FpmOverride(r.service);
            Put(Put(Materialized(f, r), pool, Get(f, pool)), override, Get(f, override)) == f
    ensures SameBut(f, Materialized(f, r), {FpmPool(r.version), FpmOverride(r.service)})
    ensures Get(Materialized(f, r), FpmPool(r.version)) == Some(RenderPool(r.socket))
  {
    hide RenderPool, RenderOverride, Get, Put;
    var pool, override := FpmPool(r.version), FpmOverride(r.service);
    var poolText, overrideText := Some(RenderPool(r.socket)), Some(RenderOverride());
    PutApart(f, pool, poolText, override, overrideText);
    PutBack(f, override, overrideText);
    GetPut(f, pool, poolText);
    GetPut(Put(f, pool, poolText), override, overrideText);
  }

  /** The commands of a failed attempt, once the rollback has added its own two. */
  lemma BackedOut(r: Runtime, before: seq<Call>, mid: seq<Call>, after: seq<Call>, k: nat)
    requires k < 3 && mid == before + (Applied(r)[..k] + [Call(Applied(r)[k].command, false)])
    requires exists a: bool, b: bool :: after == mid + [Call(DaemonReload, a), Call(Restart(r.service), b)]
    ensures exists tail :: Refused(r, tail) && after == before + tail
  {
    var a: bool, b: bool :| after == mid + [Call(DaemonReload, a), Call(Restart(r.service), b)];
    assert Refused(r, Backed(r, k, a, b));
    assert after == before + Backed(r, k, a, b);
  }

  /** What a failed switch adds: a restart of the previous service, when there is one. */
  function PreviousRestarted(service: string, restarted: bool): seq<Call> {
    if TrimSpace(service) == "" then [] else [Call(Restart(service), restarted)]
  }

  datatype Op = Materialize(target: Runtime) | Switch(previousService: string, target: Runtime)

  /** A call is about the version it materialises. */
  predicate About(op: Op, version: string) {
    NormalizeRuntime(op.target).Some? && version == NormalizeRuntime(op.target).value.version
  }

  /** Materialising one version leaves the pool file of every other version as it was. */
  lemma OtherPoolsStay(a: Files, b: Files, raw: Runtime, t0: Trouble, t: Trouble, ok: bool, version: string)
    requires Outcome(a, b, raw, t0, t, ok)
    requires NormalizeRuntime(raw).Some? ==> version != NormalizeRuntime(raw).value.version
    ensures Get(b, FpmPool(version)) == Get(a, FpmPool(version))
  {
    hide NormalizeRuntime, Get;
  }

  /** One call changes no pool file but its own version's, and beside pools only an override. */
  lemma OnlyItsOwn(a: Files, b: Files, op: Op, t0: Trouble, t: Trouble, ok: bool)
    requires Outcome(a, b, op.target, t0, t, ok)
    ensures forall v: string | !About(op, v) :: Get(b, FpmPool(v)) == Get(a, FpmPool(v))
    ensures forall p: Path | !p.FpmPool? && !p.FpmOverride? :: Get(b, p) == Get(a, p)
  {
    hide NormalizeRuntime, Get;
    forall v: string | !About(op, v) ensures Get(b, FpmPool(v)) == Get(a, FpmPool(v)) {
      OtherPoolsStay(a, b, op.target, t0, t, ok, v);
    }
  }

  /** What is read back from the two files of a runtime. */
  ghost predicate Configured(f: Files, r: Runtime) {
    var pool, override := Get(f, FpmPool(r.version)), Get(f, FpmOverride(r.service));
    && pool.Some? && override.Some?
    && var lines, unit := Split(pool.value, '\n'), Split(override.value, '\n');
    && ValueOf(lines, "listen = ") == Some(r.socket)
    && ValueOf(lines, "user = ") == Some("www-data") && ValueOf(lines, "group = ") == Some("www-data")
    && ValueOf(lines, "listen.owner = ") == Some("caddy") && ValueOf(lines, "listen.group = ") == Some("caddy")
    && "[lara-nux]" in lines && "[Service]" in unit
    && ValueOf(unit, "RuntimeDirectory=") == Some("php") && ValueOf(unit, "RuntimeDirectoryMode=") == Some("0755")
  }

  lemma MaterializedReads(f: Files, r: Runtime)
    ensures '\n' !in r.socket ==> Configured(Materialized(f, r), r)
  {
    hide RenderPool, RenderOverride, Get, Put, Split, ValueOf;
    if '\n' !in r.socket {
      PoolReads(r.socket);
      OverrideReads();
      MaterializedBack(f, r);
      GetPut(Put(f, FpmPool(r.version), Some(RenderPool(r.socket))), FpmOverride(r.service), Some(RenderOverride()));
    }
  }

  /** What the adapter fills in for a supported version: its own service, binary and socket, the same socket
      that the sagas print into site files. */
  lemma DefaultsOfVersion(version: string)
    requires version in SUPPORTED
    ensures NormalizeRuntime(Runtime(version, "", "", "")) ==
            Some(Runtime(version, "php" + version + "-fpm", "/usr/sbin/php-fpm" + version, SocketPath(version)))
  {
    hide SUPPORTED, AdapterVersion, Trim, SocketPath;
    SupportedFixed(version);
    NamesOfVersion(version);
    TrimBare("", SPACES);
  }

  /** What it is given it keeps, trimmed. */
  lemma GivenIsKept(version: string, service: string, binary: string, socket: string)
    requires version in SUPPORTED && TrimSpace(service) != "" && TrimSpace(binary) != "" && TrimSpace(socket) != ""
    ensures NormalizeRuntime(Runtime(version, service, binary, socket)) ==
            Some(Runtime(version, TrimSpace(service), TrimSpace(binary), TrimSpace(socket)))
  {
    hide SUPPORTED, AdapterVersion, Trim;
    SupportedFixed(version);
  }

  class Manager {
    const host: Host

    constructor (host: Host)
      ensures this.host == host
    {
      this.host := host;
    }

    /** Restores both files, then reloads and restarts without looking at the outcome. */
    method Rollback(r: Runtime, poolBackup: Option<string>, overrideBackup: Option<string>)
      modifies host
      ensures host.trouble == old(host.trouble).(lostUndos := host.trouble.lostUndos)
      ensures Grows(old(host.trouble), host.trouble)
      ensures host.trouble == old(host.trouble) ==>
                host.files == Put(Put(old(host.files), FpmPool(r.version), poolBackup),
                                  FpmOverride(r.service), overrideBackup)
      ensures exists a: bool, b: bool ::
                host.calls == old(host.calls) + [Call(DaemonReload, a), Call(Restart(r.service), b)]
      ensures SameBut(old(host.files), host.files, {FpmPool(r.version), FpmOverride(r.service)})
      ensures Get(host.files, FpmPool(r.version)) in {Get(old(host.files), FpmPool(r.version)), poolBackup}
    {
      hide Get, Put;
      GetPut(host.files, FpmPool(r.version), poolBackup);
      host.Undo(FpmPool(r.version), poolBackup);
      host.Undo(FpmOverride(r.service), overrideBackup);
      var a := host.RunQuietly(DaemonReload);
      var b := host.RunQuietly(Restart(r.service));
      assert host.calls == old(host.calls) + [Call(DaemonReload, a), Call(Restart(r.service), b)];
    }

    /** Once both files are written: reload, test, restart. */
    method Apply(r: Runtime, poolBackup: Option<string>, overrideBackup: Option<string>, ghost f0: Files)
      returns (ok: bool)
      requires poolBackup == Get(f0, FpmPool(r.version)) && overrideBackup == Get(f0, FpmOverride(r.service))
      requires host.files == Materialized(f0, r)
      modifies host
      ensures ok <==> host.trouble.faults == old(host.trouble).faults
      ensures ok ==> host.files == old(host.files) && host.trouble == old(host.trouble)
      ensures ok ==> host.calls == old(host.calls) + Applied(r)
      ensures !ok && host.trouble.lostUndos == old(host.trouble).lostUndos ==> host.files == f0
      ensures !ok ==> exists tail :: Refused(r, tail) && host.calls == old(host.calls) + tail
      ensures SameBut(f0, host.files, {FpmPool(r.version), FpmOverride(r.service)}) && PoolKept(f0, host.files, r)
      ensures Grows(old(host.trouble), host.trouble)
      ensures host.trouble.lateChmods == old(host.trouble).lateChmods
      ensures host.trouble.lostDeletes == old(host.trouble).lostDeletes
    {
      hide RenderPool, RenderOverride, Get, Put, Refused;
      ghost var calls0 := host.calls;
      MaterializedBack(f0, r);
      var reloaded := host.Run(DaemonReload);
      if !reloaded {
        ghost var mid := host.calls;
        Rollback(r, poolBackup, overrideBackup);
        BackedOut(r, calls0, mid, host.calls, 0);
        return false;
      }
      var tested := host.Run(FpmTest(r.fpmBinary));
      if !tested {
        ghost var mid := host.calls;
        Rollback(r, poolBackup, overrideBackup);
        BackedOut(r, calls0, mid, host.calls, 1);
        return false;
      }
      var restarted := host.Run(Restart(r.service));
      if !restarted {
        ghost var mid := host.calls;
        Rollback(r, poolBackup, overrideBackup);
        BackedOut(r, calls0, mid, host.calls, 2);
        return false;
      }
      return true;
    }

    method WriteAndApply(r: Runtime, poolBackup: Option<string>, overrideBackup: Option<string>) returns (ok: bool)
      requires poolBackup == Get(host.files, FpmPool(r.version))
      requires overrideBackup == Get(host.files, FpmOverride(r.service))
      modifies host
      ensures ok <==> host.trouble.faults == old(host.trouble).faults
      ensures ok ==> host.files == Materialized(old(host.files), r) && host.trouble == old(host.trouble)
      ensures ok ==> host.calls == old(host.calls) + Applied(r)
      ensures !ok && host.trouble.lostUndos == old(host.trouble).lostUndos ==> host.files == old(host.files)
      ensures !ok ==> exists tail :: Refused(r, tail) && host.calls == old(host.calls) + tail
      ensures SameBut(old(host.files), host.files, {FpmPool(r.version), FpmOverride(r.service)})
      ensures PoolKept(old(host.files), host.files, r)
      ensures Grows(old(host.trouble), host.trouble)
      ensures host.trouble.lateChmods == old(host.trouble).lateChmods
      ensures host.trouble.lostDeletes == old(host.trouble).lostDeletes
    {
      hide RenderPool, RenderOverride, Get, Put;
      var pool, override := FpmPool(r.version), FpmOverride(r.service);
      var poolText, overrideText := Some(RenderPool(r.socket)), Some(RenderOverride());
      ghost var f0, calls0 := host.files, host.calls;
      assert calls0 == calls0 + [] && Refused(r, []);
      PutBack(f0, pool, poolText);
      GetPut(f0, pool, poolText);
      PutApart(f0, pool, poolText, override, overrideText);
      PutBack(f0, override, overrideText);
      GetPut(Put(f0, pool, poolText), override, overrideText);

      var poolWritten := host.Write(pool, poolText.value);
      if !poolWritten {
        return false;
      }
      var overrideWritten := host.Write(override, overrideText.value);
      if !overrideWritten {
        host.Undo(pool, poolBackup);
        return false;
      }
      ok := Apply(r, poolBackup, overrideBackup, f0);
    }

    method MaterializeRuntime(raw: Runtime) returns (ok: bool, socket: string)
      modifies host
      ensures Outcome(old(host.files), host.files, raw, old(host.trouble), host.trouble, ok)
      ensures ok ==> host.calls == old(host.calls) + Applied(NormalizeRuntime(raw).value)
      ensures ok ==> socket == NormalizeRuntime(raw).value.socket
      ensures ok && '\n' !in socket ==> Configured(host.files, NormalizeRuntime(raw).value)
      ensures !ok ==> exists tail :: Unserved(raw, tail) && host.calls == old(host.calls) + tail
    {
      hide NormalizeRuntime, RenderPool, RenderOverride, Get, Put, Refused, Configured;
      assert Unserved(raw, []) && host.calls == host.calls + [];
      socket := "";
      var normalized := NormalizeRuntime(raw);
      if normalized.None? {
        return false, socket;
      }
      var r := normalized.value;
      var poolRead, poolBackup := host.ReadIfExists(FpmPool(r.version));
      if !poolRead {
        return false, socket;
      }
      var overrideRead, overrideBackup := host.ReadIfExists(FpmOverride(r.service));
      if !overrideRead {
        return false, socket;
      }
      var poolDirOk := host.Attempt();
      if !poolDirOk {
        return false, socket;
      }
      var overrideDirOk := host.Attempt();
      if !overrideDirOk {
        return false, socket;
      }
      var socketDirOk := host.Attempt();
      if !socketDirOk {
        return false, socket;
      }
      MaterializedReads(host.files, r);
      ok := WriteAndApply(r, poolBackup, overrideBackup);
      if ok {
        socket := r.socket;
      }
    }

    /** As a materialisation of the target; on failure the previous service is restarted as well. */
    method SwitchRuntime(previousService: string, target: Runtime) returns (ok: bool, socket: string)
      modifies host
      ensures Outcome(old(host.files), host.files, target, old(host.trouble), host.trouble, ok)
      ensures ok ==> host.calls == old(host.calls) + Applied(NormalizeRuntime(target).value)
      ensures ok ==> socket == NormalizeRuntime(target).value.socket
      ensures ok && '\n' !in socket ==> Configured(host.files, NormalizeRuntime(target).value)
      ensures !ok ==> exists tail, restarted: bool | Unserved(target, tail) ::
                host.calls == old(host.calls) + tail + PreviousRestarted(previousService, restarted)
    {
      hide NormalizeRuntime, Materialized, Touched, Unserved, PoolKept, Configured;
      ghost var calls0 := host.calls;
      ok, socket := MaterializeRuntime(target);
      if !ok {
        ghost var tail :| Unserved(target, tail) && host.calls == calls0 + tail;
        var restarted := true;
        if TrimSpace(previousService) != "" {
          restarted := host.RunQuietly(Restart(previousService));
        }
        assert host.calls == calls0 + tail + PreviousRestarted(previousService, restarted);
      }
    }

    method Handle(op: Op) returns (ok: bool)
      modifies host
      ensures Outcome(old(host.files), host.files, op.target, old(host.trouble), host.trouble, ok)
    {
      hide Outcome, NormalizeRuntime, Unserved, TrimSpace, Configured;
      match op
      case Materialize(target) =>
        var socket;
        ok, socket := MaterializeRuntime(target);
      case Switch(previousService, target) =>
        var socket;
        ok, socket := SwitchRuntime(previousService, target);
    }

    /** Any sequence of calls, with any failures: the pool file of a version that no call is about, and every
        file that is neither a pool nor an override, keeps its bytes. */
    method Serve(ops: seq<Op>)
      modifies host
      ensures forall v: string | (forall op | op in ops :: !About(op, v)) ::
                Get(host.files, FpmPool(v)) == Get(old(host.files), FpmPool(v))
      ensures forall p: Path | !p.FpmPool? && !p.FpmOverride? :: Get(host.files, p) == Get(old(host.files), p)
    {
      hide About, Get, Outcome;
      for i := 0 to |ops|
        invariant forall v: string | (forall op | op in ops[..i] :: !About(op, v)) ::
                    Get(host.files, FpmPool(v)) == Get(old(host.files), FpmPool(v))
        invariant forall p: Path | !p.FpmPool? && !p.FpmOverride? :: Get(host.files, p) == Get(old(host.files), p)
      {
        assert forall op | op in ops[..i] :: op in ops[..i + 1];
        assert ops[i] in ops[..i + 1];
        ghost var f, t := host.files, host.trouble;
        var ok := Handle(ops[i]);
        OnlyItsOwn(f, host.files, ops[i], t, host.trouble, ok);
      }
      assert ops[..|ops|] == ops;
    }
  }
}
