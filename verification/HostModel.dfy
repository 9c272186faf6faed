/** The machine as the adapters see it: files, commands that may fail, and an account of what went wrong.
    Which step fails is left open, so a contract proved here holds for every pattern of failures. */
module HostModel {
  import opened Text

  /** The files the daemon touches, or reads, under their configured directories. */
  datatype Path =
    | CaddyRoot
    | CaddySite(token: string)
    | FpmPool(version: string)
    | FpmOverride(service: string)
    | ResolvedMain
    | DropIn(name: string)

  type Files = map<Path, string>

  function Get(f: Files, p: Path): Option<string> {
    if p in f then Some(f[p]) else None
  }

  function Put(f: Files, p: Path, content: Option<string>): Files {
    if content.Some? then f[p := content.value] else f - {p}
  }

  lemma GetPut(f: Files, p: Path, content: Option<string>)
    ensures forall q :: Get(Put(f, p, content), q) == if q == p then content else Get(f, q)
  {}

  lemma PutBack(f: Files, p: Path, content: Option<string>)
    ensures Put(Put(f, p, content), p, Get(f, p)) == f
  {}

  lemma PutSame(f: Files, p: Path)
    ensures Put(f, p, Get(f, p)) == f
  {}

  lemma PutApart(f: Files, p: Path, c: Option<string>, q: Path, d: Option<string>)
    requires p != q
    ensures Put(Put(f, p, c), q, d) == Put(Put(f, q, d), p, c)
    ensures Put(Put(Put(f, p, c), q, d), p, Get(f, p)) == Put(f, q, d)
  {}

  predicate Absolute(path: string) {
    path != "" && path[0] == '/'
  }

  /** The absolute path a request's path leads to. The answer `lookup` of the file system comes with the request,
      and may differ from one request to the next. */
  function LeadsTo(lookup: string -> string, raw: string): string {
    "/" + lookup(TrimSpace(raw))
  }

  /** Two file stores agree outside the given paths. */
  ghost predicate SameBut(a: Files, b: Files, changed: set<Path>) {
    forall p | p !in changed :: Get(a, p) == Get(b, p)
  }

  lemma SameButItself(f: Files, changed: set<Path>)
    ensures SameBut(f, f, changed)
  {}

  lemma SameButTogether(a: Files, b: Files, c: Files, first: set<Path>, second: set<Path>, changed: set<Path>)
    requires SameBut(a, b, first) && SameBut(b, c, second) && first + second <= changed
    ensures SameBut(a, c, changed)
  {
    hide Get;
    forall p | p !in changed ensures Get(a, p) == Get(c, p) {
      assert p !in first && p !in second;
      assert Get(a, p) == Get(b, p) && Get(b, p) == Get(c, p);
    }
  }

  datatype Command =
    | CaddyValidate
    | CaddyReload
    | DaemonReload
    | FpmTest(binary: string)
    | FlushCaches
    | Start(service: string)
    | Restart(service: string)

  datatype Call = Call(command: Command, ok: bool)

  /** The last commands of a run. */
  ghost predicate EndsWith(calls: seq<Call>, tail: seq<Call>) {
    exists before: seq<Call> :: calls == before + tail
  }

  /** The last command of a run restarted a service, or tried to. */
  ghost predicate RestartedLast(calls: seq<Call>, service: string) {
    calls != [] && calls[|calls| - 1].command == Restart(service)
  }

  /** How often something went wrong: a forward step (`faults`); a compensating step whose error is
      dropped (`lostUndos`); a write that replaced the file and then failed to set its mode
      (`lateChmods`); and the registry delete of a rollback (`lostDeletes`). */
  datatype Trouble = Trouble(faults: nat, lostUndos: nat, lateChmods: nat, lostDeletes: nat)

  ghost predicate Grows(a: Trouble, b: Trouble) {
    && a.faults <= b.faults && a.lostUndos <= b.lostUndos
    && a.lateChmods <= b.lateChmods && a.lostDeletes <= b.lostDeletes
  }

  /** Every compensating step took effect and no write failed after replacing its file. */
  ghost predicate Clean(a: Trouble, b: Trouble) {
    a.lostUndos == b.lostUndos && a.lateChmods == b.lateChmods
  }

  class Host {
    var files: Files
    var calls: seq<Call>
    ghost var trouble: Trouble

    constructor (files: Files)
      ensures this.files == files && calls == [] && trouble == Trouble(0, 0, 0, 0)
    {
      this.files, calls, trouble := files, [], Trouble(0, 0, 0, 0);
    }

    ghost function Faulty(): Trouble
      reads this
    {
      trouble.(faults := trouble.faults + 1)
    }

    /** A step without effect on the modelled files: a directory made or inspected, a listing, a state
        file read or a probe. */
    method Attempt() returns (ok: bool)
      modifies this`trouble
      ensures trouble == if ok then old(trouble) else old(Faulty())
    {
      ok := *;
      if !ok {
        trouble := Faulty();
      }
    }

    /** Absolute path, symbolic links resolved: where a path leads is the file system's answer. */
    method ResolveRoot(raw: string, lookup: string -> string) returns (ok: bool, path: string)
      modifies this`trouble
      ensures trouble == if ok then old(trouble) else old(Faulty())
      ensures path == "/" + lookup(raw)
    {
      ok := Attempt();
      path := "/" + lookup(raw);
    }

    /** A saga's compensating call: it counts as lost when it reports an error, which the caller drops. */
    ghost method Compensated(ok: bool)
      modifies this`trouble
      ensures trouble == if ok then old(trouble) else old(trouble.(lostUndos := trouble.lostUndos + 1))
    {
      if !ok {
        trouble := trouble.(lostUndos := trouble.lostUndos + 1);
      }
    }

    /** The registry delete of a rollback, likewise. */
    ghost method Deleted(ok: bool)
      modifies this`trouble
      ensures trouble == if ok then old(trouble) else old(trouble.(lostDeletes := trouble.lostDeletes + 1))
    {
      if !ok {
        trouble := trouble.(lostDeletes := trouble.lostDeletes + 1);
      }
    }

    method ReadIfExists(p: Path) returns (ok: bool, content: Option<string>)
      modifies this`trouble
      ensures trouble == if ok then old(trouble) else old(Faulty())
      ensures content == Get(files, p)
    {
      ok := Attempt();
      content := Get(files, p);
    }

    /** Temporary file, then rename: the file is replaced or left alone. */
    method Write(p: Path, text: string) returns (ok: bool)
      modifies this`files, this`trouble
      ensures trouble == if ok then old(trouble) else old(Faulty())
      ensures files == if ok then Put(old(files), p, Some(text)) else old(files)
    {
      ok := Attempt();
      if ok {
        files := Put(files, p, Some(text));
      }
    }

    /** As `Write`, but the mode is set once more after the rename, and that may fail. */
    method WriteThenChmod(p: Path, text: string) returns (ok: bool)
      modifies this`files, this`trouble
      ensures ok ==> trouble == old(trouble)
      ensures !ok ==> trouble == old(Faulty()) || trouble == old(Faulty().(lateChmods := trouble.lateChmods + 1))
      ensures files == if ok || trouble.lateChmods != old(trouble).lateChmods then Put(old(files), p, Some(text))
                       else old(files)
    {
      ok := Write(p, text);
      if ok {
        ok := Attempt();
        if !ok {
          trouble := trouble.(lateChmods := trouble.lateChmods + 1);
        }
      }
    }

    method Delete(p: Path) returns (ok: bool)
      modifies this`files, this`trouble
      ensures trouble == if ok then old(trouble) else old(Faulty())
      ensures files == if ok then Put(old(files), p, None) else old(files)
    {
      ok := Attempt();
      if ok {
        files := Put(files, p, None);
      }
    }

    /** A compensating restore or removal whose error the caller drops. */
    method Undo(p: Path, content: Option<string>)
      modifies this`files, this`trouble
      ensures trouble == old(trouble) || trouble == old(trouble.(lostUndos := trouble.lostUndos + 1))
      ensures files == if trouble == old(trouble) then Put(old(files), p, content) else old(files)
      ensures SameBut(old(files), files, {p})
    {
      var ok: bool := *;
      if ok {
        files := Put(files, p, content);
      } else {
        trouble := trouble.(lostUndos := trouble.lostUndos + 1);
      }
    }

    method Run(command: Command) returns (ok: bool)
      modifies this`calls, this`trouble
      ensures trouble == if ok then old(trouble) else old(Faulty())
      ensures calls == old(calls) + [Call(command, ok)]
    {
      ok := Attempt();
      calls := calls + [Call(command, ok)];
    }

    /** A command whose failure the caller drops. */
    method RunQuietly(command: Command) returns (ok: bool)
      modifies this`calls
      ensures calls == old(calls) + [Call(command, ok)]
    {
      ok := *;
      calls := calls + [Call(command, ok)];
    }
  }
}
