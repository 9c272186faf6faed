/** The systemd-resolved adapter: one managed drop-in that must never displace a foreign one. */
module Resolved {
  import opened Text
  import opened ResolverStub
  import opened HostModel

  datatype Owner = Available | LaraNux | External | Conflict
  datatype Status = Status(managed: bool, owner: Owner, conflicts: set<Path>)

  /** The files that may claim a domain: the main configuration and the drop-ins. */
  predicate IsConfig(p: Path) {
    p.ResolvedMain? || (p.DropIn? && HasSuffix(p.name, ".conf"))
  }

  function ConfigFiles(f: Files, stub: Path): set<Path> {
    set p | p in f && IsConfig(p) && p != stub
  }

  function Claimants(f: Files, stub: Path, domain: string): set<Path> {
    set p | p in ConfigFiles(f, stub) && OwnsDomain(f[p], domain)
  }

  /** The stub's place is taken by a file without the managed marker. */
  predicate ForeignStub(f: Files, stub: Path) {
    var c := Get(f, stub);
    c.Some? && !IsManaged(c.value)
  }

  predicate Conflicted(f: Files, stub: Path, domain: string) {
    ForeignStub(f, stub) || Claimants(f, stub, domain) != {}
  }

  /** What an inspection reports for a normalised specification. */
  function StatusOf(f: Files, stub: Path, spec: Spec): Status {
    var c := Get(f, stub);
    var conflicts := (if ForeignStub(f, stub) then {stub} else {}) + Claimants(f, stub, spec.domain);
    if conflicts != {} then Status(false, Conflict, conflicts)
    else if c.None? then Status(false, Available, {})
    else Status(TrimSpace(c.value) == TrimSpace(RenderStub(spec)), LaraNux, {})
  }

  const RESOLVED := "systemd-resolved"
  const RELOADED := [Call(Restart(RESOLVED), true), Call(FlushCaches, true)]

  /** What every call respects, whatever fails: other files, and a foreign stub, keep their bytes, and what
      takes the stub's place is never foreign. */
  ghost predicate Respects(a: Files, b: Files, stub: Path) {
    && SameBut(a, b, {stub}) && (ForeignStub(a, stub) ==> Get(b, stub) == Get(a, stub))
    && (ForeignStub(b, stub) ==> ForeignStub(a, stub))
  }

  function StubText(raw: Spec): Option<string> {
    Some(RenderStub(NormalizeSpec(raw)))
  }

  /** The specification as the inspections see it: ensuring normalises, and inspecting normalises again. */
  function Again(raw: Spec): Spec {
    NormalizeSpec(NormalizeSpec(raw))
  }

  /** What one ensuring call does to the stub, whatever fails. */
  ghost predicate Ensured(a: Files, b: Files, stub: Path, spec: Spec, t0: Trouble, t: Trouble, ok: bool) {
    && (ok <==> !Conflicted(a, stub, NormalizeSpec(spec).domain) && t.faults == t0.faults)
    && (ok ==> b == Put(a, stub, Some(RenderStub(spec))) && t == t0)
    && (Get(a, stub) == Some(RenderStub(spec)) ==> Get(b, stub) == Some(RenderStub(spec)))
    && Respects(a, b, stub)
    && Grows(t0, t) && t.lateChmods == t0.lateChmods && t.lostDeletes == t0.lostDeletes
  }

  lemma StubFrame(f: Files, stub: Path, text: Option<string>)
    ensures Put(Put(f, stub, text), stub, Get(f, stub)) == f
    ensures Get(Put(f, stub, text), stub) == text
    ensures Respects(f, f, stub)
  {
    hide IsManaged;
    PutBack(f, stub, text);
    GetPut(f, stub, text);
  }

  /** Where there is no foreign stub, a managed stub, or none, is respectful. */
  lemma UnforeignRespects(f: Files, stub: Path, text: Option<string>)
    requires !ForeignStub(f, stub) && (text.Some? ==> IsManaged(text.value))
    ensures Respects(f, Put(f, stub, text), stub)
  {
    hide IsManaged;
    GetPut(f, stub, text);
  }

  lemma StatusConflicts(f: Files, stub: Path, spec: Spec)
    ensures StatusOf(f, stub, spec).conflicts != {} <==> Conflicted(f, stub, spec.domain)
    ensures ForeignStub(f, stub) ==> Conflicted(f, stub, spec.domain)
  {
    hide Claimants, IsManaged, RenderStub;
  }

  /** A reload that stopped at its first failing command. */
  ghost predicate Halted(before: seq<Call>, after: seq<Call>) {
    || after == before + [Call(Restart(RESOLVED), false)]
    || after == before + [Call(Restart(RESOLVED), true), Call(FlushCaches, false)]
  }

  /** A reload whose outcome is dropped: the flush follows only a restart that worked. */
  ghost predicate Relaunched(calls: seq<Call>) {
    || calls == [Call(Restart(RESOLVED), false)]
    || exists flushed :: calls == [Call(Restart(RESOLVED), true), Call(FlushCaches, flushed)]
  }

  /** A halted reload, then, over the restored stub, another one. */
  ghost predicate BackedOut(before: seq<Call>, after: seq<Call>) {
    exists mid, tail: seq<Call> :: Halted(before, mid) && Relaunched(tail) && after == mid + tail
  }

  /** A halted reload is no complete one, whatever follows. */
  lemma HaltedIsNotReloaded(before: seq<Call>, mid: seq<Call>)
    requires Halted(before, mid)
    ensures forall tail: seq<Call> :: !(before + RELOADED <= mid + tail)
  {
    forall tail: seq<Call> ensures !(before + RELOADED <= mid + tail) {
      var n := |before|;
      assert (before + RELOADED)[n] == RELOADED[0] && (before + RELOADED)[n + 1] == RELOADED[1];
      assert (mid + tail)[|mid| - 1] == mid[|mid| - 1];
    }
  }

  lemma BackedOutIsNotReloaded(before: seq<Call>, after: seq<Call>)
    requires BackedOut(before, after)
    ensures !(before + RELOADED <= after)
  {
    var mid, tail: seq<Call> :| Halted(before, mid) && Relaunched(tail) && after == mid + tail;
    HaltedIsNotReloaded(before, mid);
  }

  lemma ClaimantsSame(a: Files, b: Files, stub: Path, domain: string)
    requires SameBut(a, b, {stub})
    ensures Claimants(a, stub, domain) == Claimants(b, stub, domain)
  {
    hide OwnsDomain, IsConfig;
    forall p | p in Claimants(a, stub, domain) ensures p in Claimants(b, stub, domain) {
      assert Get(a, p) == Get(b, p);
    }
    forall p | p in Claimants(b, stub, domain) ensures p in Claimants(a, stub, domain) {
      assert Get(a, p) == Get(b, p);
    }
  }

  /** Two stubs differ, also after trimming, when their domains do. */
  lemma StubsDiffer(raw: Spec)
    ensures var s := NormalizeSpec(raw);
            TrimSpace(RenderStub(s)) == TrimSpace(RenderStub(NormalizeSpec(s))) <==> NormalizeSpec(s) == s
  {
    hide RenderStub, NormalizeSpec, StubHead, Trim;
    var s := NormalizeSpec(raw);
    var again := NormalizeSpec(s);
    TrimmedStub(raw);
    TrimmedStub(s);
    assert again.address == s.address by { AddressKept(raw); }
    if TrimSpace(RenderStub(s)) == TrimSpace(RenderStub(again)) {
      var head := StubHead(s.address);
      assert s.domain == (head + s.domain)[|head|..] == (head + again.domain)[|head|..] == again.domain;
    }
  }

  /** After a write without conflicts an inspection sees no conflict, and sees the stub as managed
      exactly when the requested domain was not dotted twice. */
  lemma StatusAfterWrite(f: Files, stub: Path, raw: Spec)
    requires !Conflicted(f, stub, Again(raw).domain)
    ensures var status := StatusOf(Put(f, stub, StubText(raw)), stub, Again(raw));
            status.conflicts == {} && (status.managed <==> !DottedTwice(raw))
  {
    hide Claimants, IsManaged, RenderStub, NormalizeSpec, TrimSpace;
    var text := StubText(raw);
    GetPut(f, stub, text);
    ClaimantsSame(f, Put(f, stub, text), stub, Again(raw).domain);
    StubIsManaged(NormalizeSpec(raw));
    StubsDiffer(raw);
    NormalTwice(raw);
  }

  datatype Op = Ensure(raw: Spec) | Remove

  /** Calls that are turned down: ensuring a conflicting claim, and removing a foreign stub. */
  predicate Turned(op: Op, f: Files, stub: Path) {
    match op
    case Ensure(raw) => Conflicted(f, stub, Again(raw).domain)
    case Remove => ForeignStub(f, stub)
  }

  lemma RespectsItself(a: Files, stub: Path)
    ensures Respects(a, a, stub)
  {}

  lemma RespectsTransitive(a: Files, b: Files, c: Files, stub: Path)
    requires Respects(a, b, stub) && Respects(b, c, stub)
    ensures Respects(a, c, stub)
  {
    hide IsManaged, Get;
  }

  /** Over any run of ensuring and removing calls, with any failures, every other file keeps its bytes,
      and so does a stub that was foreign at the start. */
  lemma {:induction false} ForeignFilesAreSafe(run: seq<Files>, stub: Path)
    requires run != []
    requires forall i | 0 <= i < |run| - 1 :: Respects(run[i], run[i + 1], stub)
    ensures forall f | f in run :: Respects(run[0], f, stub)
  {
    hide IsManaged, Get, Respects;
    var n := |run| - 1;
    assert Respects(run[0], run[0], stub) by { RespectsItself(run[0], stub); }
    if n > 0 {
      assert run[..n][0] == run[0];
      ForeignFilesAreSafe(run[..n], stub);
      assert run[n - 1] == run[..n][n - 1];
      assert Respects(run[n - 1], run[n], stub);
      RespectsTransitive(run[0], run[n - 1], run[n], stub);
      assert run == run[..n] + [run[n]];
    } else {
      assert run == [run[0]];
    }
  }

  /** Another file of the resolver claims the domain: its main configuration, or a drop-in whose name ends in
      ".conf". */
  ghost predicate ClaimedElsewhere(f: Files, stub: Path, domain: string) {
    exists p | p in f && p != stub && OwnsDomain(f[p], domain) ::
      p == ResolvedMain || exists name :: p == DropIn(name + ".conf")
  }

  /** A stub's place is taken by a file without the daemon's marker. */
  ghost predicate TakenElsewhere(f: Files, stub: Path) {
    stub in f && !Contains(f[stub], "# Managed by Lara Nux")
  }

  lemma ConfNames(p: Path)
    ensures IsConfig(p) <==> p == ResolvedMain || exists name :: p == DropIn(name + ".conf")
  {
    if p.DropIn? && HasSuffix(p.name, ".conf") {
      var name := p.name[..|p.name| - 5];
      assert p.name == name + ".conf";
    }
    if name :| p == DropIn(name + ".conf") {
      assert (name + ".conf")[|name + ".conf"| - 5..] == ".conf";
    }
  }

  /** What a conflict is. */
  lemma ConflictsAre(f: Files, stub: Path, domain: string)
    ensures Conflicted(f, stub, domain) <==> TakenElsewhere(f, stub) || ClaimedElsewhere(f, stub, domain)
  {
    hide OwnsDomain, IsConfig, Contains;
    forall p ensures IsConfig(p) <==> p == ResolvedMain || exists name :: p == DropIn(name + ".conf") {
      ConfNames(p);
    }
    if ClaimedElsewhere(f, stub, domain) {
      var p :| p in f && p != stub && OwnsDomain(f[p], domain)
               && (p == ResolvedMain || exists name :: p == DropIn(name + ".conf"));
      assert p in Claimants(f, stub, domain);
    }
    if Claimants(f, stub, domain) != {} {
      var p :| p in Claimants(f, stub, domain);
    }
  }

  /** What a status says: a conflict, with the files to blame; or the stub is free, or ours, and then whether it
      says what it should. */
  lemma StatusMeans(f: Files, stub: Path, spec: Spec)
    ensures var status := StatusOf(f, stub, spec);
            && (status.owner.Conflict? <==> TakenElsewhere(f, stub) || ClaimedElsewhere(f, stub, spec.domain))
            && (status.owner.Available? <==> !status.owner.Conflict? && stub !in f)
            && (status.owner.LaraNux? <==> !status.owner.Conflict? && stub in f)
            && (status.managed <==> status.owner.LaraNux? && TrimSpace(f[stub]) == TrimSpace(RenderStub(spec)))
            && (forall p | p in status.conflicts :: p in f)
            && (TakenElsewhere(f, stub) ==> stub in status.conflicts)
  {
    hide OwnsDomain, IsConfig, Contains, RenderStub, TrimSpace, ClaimedElsewhere;
    ConflictsAre(f, stub, spec.domain);
    StatusConflicts(f, stub, spec);
  }

  class Manager {
    const host: Host
    const stub: Path

    constructor (host: Host, stub: Path)
      ensures this.host == host && this.stub == stub
    {
      this.host, this.stub := host, stub;
    }

    method ExternalClaimants(domain: string) returns (ok: bool, conflicts: set<Path>)
      modifies host`trouble
      ensures ok ==> conflicts == Claimants(host.files, stub, domain) && host.trouble == old(host.trouble)
      ensures !ok ==> host.trouble == old(host.Faulty())
    {
      hide OwnsDomain, IsConfig;
      conflicts := {};
      ok := host.Attempt();
      if !ok {
        return;
      }
      var todo := ConfigFiles(host.files, stub);
      ghost var all := todo;
      while todo != {}
        invariant todo <= all == ConfigFiles(host.files, stub)
        invariant conflicts == set p | p in all - todo && OwnsDomain(host.files[p], domain)
        invariant host.trouble == old(host.trouble)
      {
        var path :| path in todo;
        todo := todo - {path};
        var read, payload := host.ReadIfExists(path);
        if !read {
          return false, conflicts;
        }
        assert payload == Some(host.files[path]);
        if payload.Some? && OwnsDomain(payload.value, domain) {
          conflicts := conflicts + {path};
        }
      }
    }

    method Inspect(raw: Spec) returns (ok: bool, status: Status)
      modifies host`trouble
      ensures ok ==> status == StatusOf(host.files, stub, NormalizeSpec(raw)) && host.trouble == old(host.trouble)
      ensures !ok ==> host.trouble == old(host.Faulty())
    {
      hide IsManaged, RenderStub, NormalizeSpec, Claimants, TrimSpace;
      var spec := NormalizeSpec(raw);
      status := Status(false, Available, {});
      var read, payload := host.ReadIfExists(stub);
      if !read {
        return false, status;
      }
      if payload.Some? {
        if !IsManaged(payload.value) {
          status := status.(owner := External, conflicts := {stub});
        } else if TrimSpace(payload.value) == TrimSpace(RenderStub(spec)) {
          status := status.(managed := true, owner := LaraNux);
        } else {
          status := status.(owner := LaraNux);
        }
      }
      var claimants;
      ok, claimants := ExternalClaimants(spec.domain);
      if !ok {
        return;
      }
      status := status.(conflicts := status.conflicts + claimants);
      if status.conflicts != {} {
        status := status.(owner := Conflict, managed := false);
      }
    }

    method Reload() returns (ok: bool)
      modifies host`calls, host`trouble
      ensures ok ==> host.calls == old(host.calls) + RELOADED && host.trouble == old(host.trouble)
      ensures !ok ==> host.trouble == old(host.Faulty())
      ensures !ok ==> Halted(old(host.calls), host.calls)
    {
      ok := host.Run(Restart(RESOLVED));
      if ok {
        ok := host.Run(FlushCaches);
      }
    }

    method ReloadQuietly()
      modifies host`calls
      ensures exists tail: seq<Call> | Relaunched(tail) :: host.calls == old(host.calls) + tail
    {
      var restarted := host.RunQuietly(Restart(RESOLVED));
      if restarted {
        var flushed := host.RunQuietly(FlushCaches);
        ghost var tail := [Call(Restart(RESOLVED), true), Call(FlushCaches, flushed)];
        assert Relaunched(tail) && host.calls == old(host.calls) + tail;
      } else {
        assert Relaunched([Call(Restart(RESOLVED), false)]);
      }
    }

    /** Writes the stub unless somebody else owns the domain. On failure the stub is as before, provided
        its restore took effect, except when only the closing inspection failed: then it stays. */
    method EnsureTestStub(raw: Spec) returns (ok: bool, status: Status)
      modifies host
      ensures Ensured(old(host.files), host.files, stub, NormalizeSpec(raw), old(host.trouble), host.trouble, ok)
      ensures ok ==> host.calls == old(host.calls) + RELOADED
      ensures ok ==> status.conflicts == {} && (status.managed <==> !DottedTwice(raw))
      ensures ok <==>
                && !TakenElsewhere(old(host.files), stub) && !ClaimedElsewhere(old(host.files), stub, Again(raw).domain)
                && host.trouble.faults == old(host.trouble).faults
      ensures Conflicted(old(host.files), stub, Again(raw).domain) ==>
                !ok && host.files == old(host.files) && host.calls == old(host.calls)
      ensures !ok ==> host.calls == old(host.calls) || host.calls == old(host.calls) + RELOADED
                      || BackedOut(old(host.calls), host.calls)
      ensures !ok && host.trouble.lostUndos == old(host.trouble).lostUndos ==>
                host.files == if host.calls == old(host.calls) + RELOADED then Put(old(host.files), stub, StubText(raw))
                              else old(host.files)
    {
      hide NormalizeSpec, StatusOf, Conflicted, RenderStub, Respects, DottedTwice, Get, Put, TakenElsewhere,
        ClaimedElsewhere;
      var spec := NormalizeSpec(raw);
      ghost var f0, calls0 := host.files, host.calls;
      ghost var text := Some(RenderStub(spec));
      assert calls0 == calls0 + [];
      ConflictsAre(f0, stub, Again(raw).domain);
      StubFrame(f0, stub, text);

      ok, status := Inspect(spec);
      if !ok {
        return;
      }
      StatusConflicts(f0, stub, NormalizeSpec(spec));
      if status.conflicts != {} {
        return false, status;
      }
      StubIsManaged(spec);
      UnforeignRespects(f0, stub, text);
      var read, previous := host.ReadIfExists(stub);
      if !read {
        return false, status;
      }
      var dirOk := host.Attempt();
      if !dirOk {
        return false, status;
      }
      var written := host.Write(stub, RenderStub(spec));
      if !written {
        return false, status;
      }
      var reloaded := Reload();
      if !reloaded {
        host.Undo(stub, previous);
        HaltedIsNotReloaded(calls0, host.calls);
        ReloadQuietly();
        return false, status;
      }
      ok, status := Inspect(spec);
      StatusAfterWrite(f0, stub, raw);
    }

    /** Deletes the stub if it is ours; on failure it is written back. */
    method RemoveManagedStub() returns (ok: bool)
      modifies host
      ensures Respects(old(host.files), host.files, stub)
      ensures ForeignStub(old(host.files), stub) ==>
                !ok && host.files == old(host.files) && host.calls == old(host.calls)
      ensures ok <==> !ForeignStub(old(host.files), stub) && host.trouble.faults == old(host.trouble).faults
      ensures ok ==> host.files == Put(old(host.files), stub, None) && host.trouble == old(host.trouble)
      ensures ok ==> host.calls == old(host.calls) + if Get(old(host.files), stub).None? then [] else RELOADED
      ensures !ok ==> host.calls == old(host.calls) || BackedOut(old(host.calls), host.calls)
      ensures !ok && host.trouble.lostUndos == old(host.trouble).lostUndos ==> host.files == old(host.files)
      ensures Grows(old(host.trouble), host.trouble)
      ensures host.trouble.lateChmods == old(host.trouble).lateChmods
      ensures host.trouble.lostDeletes == old(host.trouble).lostDeletes
    {
      hide IsManaged, Get, Put;
      ghost var f0 := host.files;
      PutSame(f0, stub);
      PutBack(f0, stub, None);
      GetPut(f0, stub, None);
      var read, payload := host.ReadIfExists(stub);
      if !read {
        return false;
      }
      if payload.None? {
        return true;
      }
      if !IsManaged(payload.value) {
        return false;
      }
      var deleted := host.Delete(stub);
      if !deleted {
        return false;
      }
      var reloaded := Reload();
      if !reloaded {
        host.Undo(stub, payload);
        ReloadQuietly();
        return false;
      }
      return true;
    }

    method Handle(op: Op) returns (ok: bool)
      modifies host
      ensures Respects(old(host.files), host.files, stub)
      ensures Turned(op, old(host.files), stub) ==>
                !ok && host.files == old(host.files) && host.calls == old(host.calls)
      ensures ok && op.Ensure? ==> host.files == Put(old(host.files), stub, StubText(op.raw))
      ensures ok && op.Remove? ==> host.files == Put(old(host.files), stub, None)
    {
      hide NormalizeSpec, Conflicted, ForeignStub, Respects, RenderStub, Get, Put, DottedTwice;
      match op
      case Ensure(raw) =>
        var status;
        ok, status := EnsureTestStub(raw);
      case Remove =>
        ok := RemoveManagedStub();
    }

    /** Any sequence of calls, with any failures: every other file, and a stub that was foreign at the start,
        keeps its bytes at every moment, and a conflicting call changes nothing. */
    method Serve(ops: seq<Op>) returns (ghost run: seq<Files>)
      modifies host
      ensures |run| == |ops| + 1 && run[0] == old(host.files) && run[|ops|] == host.files
      ensures forall f | f in run :: Respects(old(host.files), f, stub)
      ensures forall i | 0 <= i < |ops| && Turned(ops[i], run[i], stub) :: run[i + 1] == run[i]
    {
      hide Respects, Turned;
      run := [host.files];
      for i := 0 to |ops|
        invariant |run| == i + 1 && run[0] == old(host.files) && run[i] == host.files
        invariant forall k | 0 <= k < i :: Respects(run[k], run[k + 1], stub)
        invariant forall k | 0 <= k < i && Turned(ops[k], run[k], stub) :: run[k + 1] == run[k]
      {
        var ok := Handle(ops[i]);
        run := run + [host.files];
      }
      ForeignFilesAreSafe(run, stub);
    }
  }

  // ---- Main results ----

  /** The needle of a second normalisation still finds a domain exactly when there is no dot to strip. */
  lemma AgainNeedle(raw: Spec)
    requires NoSpace(NormalizeSpec(raw).domain)
    ensures var d := NormalizeSpec(raw).domain;
            && d != "" && (EqualFold("~" + d, Needle(Again(raw).domain)) <==> d[0] != '.')
            && (d[0] != '.' ==> Again(raw).domain == d)
  {
    hide Trim, LowerChar;
    var s := NormalizeSpec(raw);
    NormalSpec(raw);
    NormalTwice(raw);
    LowerFixed(s.domain);
    TrimBare(s.domain, SPACES);
    if s.domain[0] == '.' {
      var again := Again(raw).domain;
      TrimBare(again, SPACES);
      assert |Needle(again)| != |"~" + s.domain|;
    } else {
      NeedleOfWord(s.domain);
    }
  }

  /** A configuration file is a claimant exactly when its text claims the domain, and then there is a conflict. */
  lemma ClaimantOf(f: Files, first: Path, second: Path, text: string, asked: string)
    requires IsConfig(first) && first != second && Get(f, first) == Some(text)
    ensures first in Claimants(f, second, asked) <==> OwnsDomain(text, asked)
    ensures first in Claimants(f, second, asked) ==> Conflicted(f, second, asked)
  {
    hide OwnsDomain, IsConfig, IsManaged;
  }

  /** A managed stub of one manager makes every other manager over the same drop-ins refuse, whatever the
      address, when the domain has no white space inside and no leading dot. With a leading dot its claim is
      found exactly when a further line of the address makes it. */
  lemma SecondManagerRefuses(f: Files, first: Path, second: Path, raw: Spec)
    requires IsConfig(first) && first != second && Get(f, first) == StubText(raw)
    ensures var s, asked := NormalizeSpec(raw), Again(raw).domain;
            && (NoSpace(s.domain) && s.domain[0] != '.' ==> Conflicted(f, second, asked))
            && (NoSpace(s.domain) ==>
                  (first in Claimants(f, second, asked) <==>
                   s.domain[0] != '.' || AddressClaims(s.address, Needle(asked))))
            && ('\n' !in s.address ==> !AddressClaims(s.address, Needle(asked)))
  {
    hide NormalizeSpec, RenderStub, IsManaged, Needle, LineClaims, Split, AddressClaims, Claimants, Conflicted,
      IsConfig, Get, Again;
    NormalDomain(raw);
    NormalSpec(raw);
    var s, asked := NormalizeSpec(raw), Again(raw).domain;
    ClaimantOf(f, first, second, RenderStub(s), asked);
    if '\n' !in s.address {
      OneLineClaimsNothing(s.address, Needle(asked));
    }
    if NoSpace(s.domain) {
      StubClaims(s, Needle(asked));
      AgainNeedle(raw);
    }
  }
}
