/** The registry of sites: a sequence of records behind a state file. */
module SiteRegistry {
  import opened Text
  import opened Order
  import opened SiteNames
  import opened PhpVersions
  import opened HostModel

  datatype SiteRecord = SiteRecord(
    id: string, name: string, rootPath: string, domain: string, phpVersion: string,
    createdAt: int, updatedAt: int, checkedAt: int)

  datatype SiteInput = SiteInput(rootPath: string, domain: string, phpVersion: string, lookup: string -> string)

  datatype Refusal =
    | InvalidPath
    | InvalidDomain(why: DomainResult)
    | DuplicateName
    | DuplicateDomain
    | SiteNotFound
    | RuntimeNotFound
    | StoreFailure
    | HostFailure

  datatype SiteResult = Kept(record: SiteRecord) | Refused(reason: Refusal)

  function DomainOf(s: SiteRecord): string {
    s.domain
  }

  /** The position of the first record with an ID, or the length. */
  function IndexOf(sites: seq<SiteRecord>, id: string): (i: nat)
    ensures i <= |sites|
    ensures i < |sites| ==> sites[i].id == id
    ensures forall j | 0 <= j < i :: sites[j].id != id
  {
    if sites == [] || sites[0].id == id then 0 else IndexOf(sites[1..], id) + 1
  }

  predicate Has(sites: seq<SiteRecord>, id: string) {
    IndexOf(sites, id) < |sites|
  }

  function Stamped(previous: SiteRecord, record: SiteRecord, now: int): SiteRecord {
    record.(createdAt := previous.createdAt, updatedAt := now)
  }

  /** The record takes the place of the first one with its ID and keeps that one's creation time. */
  function Stored(sites: seq<SiteRecord>, record: SiteRecord, now: int): seq<SiteRecord> {
    var i := IndexOf(sites, record.id);
    if i < |sites| then sites[i := Stamped(sites[i], record, now)] else sites
  }

  function Without(sites: seq<SiteRecord>, id: string): seq<SiteRecord> {
    var i := IndexOf(sites, id);
    if i < |sites| then sites[..i] + sites[i + 1..] else sites
  }

  /** The first reason, in the order of the list, to refuse a name and a domain. */
  function FirstClash(sites: seq<SiteRecord>, skip: set<string>, name: string, domain: string): (r: Option<Refusal>)
    ensures r.Some? ==> r.value == DuplicateName || r.value == DuplicateDomain
  {
    if sites == [] then None
    else if sites[0].id in skip then FirstClash(sites[1..], skip, name, domain)
    else if EqualFold(sites[0].name, name) then Some(DuplicateName)
    else if EqualFold(sites[0].domain, domain) then Some(DuplicateDomain)
    else FirstClash(sites[1..], skip, name, domain)
  }

  predicate Unclaimed(sites: seq<SiteRecord>, skip: set<string>, name: string, domain: string) {
    forall s | s in sites && s.id !in skip :: !EqualFold(s.name, name) && !EqualFold(s.domain, domain)
  }

  lemma {:induction false} NoClash(sites: seq<SiteRecord>, skip: set<string>, name: string, domain: string)
    ensures FirstClash(sites, skip, name, domain).None? <==> Unclaimed(sites, skip, name, domain)
  {
    hide EqualFold;
    if sites != [] {
      NoClash(sites[1..], skip, name, domain);
      assert sites == [sites[0]] + sites[1..];
    }
  }

  function RootOf(input: SiteInput): string {
    LeadsTo(input.lookup, input.rootPath)
  }

  /** Why registration refuses an input. */
  function RefusalOf(sites: seq<SiteRecord>, input: SiteInput): Option<Refusal> {
    if TrimSpace(input.rootPath) == "" then Some(InvalidPath)
    else
      var name := DeriveSiteName(RootOf(input));
      match NormalizeDomain(input.domain, name)
      case Domain(domain) => FirstClash(sites, {}, name, domain)
      case bad => Some(InvalidDomain(bad))
  }

  function NewRecord(input: SiteInput, id: string, now: int): SiteRecord
    requires NormalizeDomain(input.domain, DeriveSiteName(RootOf(input))).Domain?
  {
    var root := RootOf(input);
    var name := DeriveSiteName(root);
    var domain := NormalizeDomain(input.domain, name).value;
    SiteRecord(id, name, root, domain, NormalizeVersion(input.phpVersion), now, now, now)
  }

  class Registry {
    const host: Host
    var sites: seq<SiteRecord>

    constructor (host: Host)
      ensures this.host == host && sites == []
    {
      this.host, sites := host, [];
    }

    /** The duplicate check, record by record. */
    method FindClash(list: seq<SiteRecord>, skip: set<string>, name: string, domain: string)
      returns (clash: Option<Refusal>)
      ensures clash == FirstClash(list, skip, name, domain)
    {
      hide EqualFold;
      assert list[0..] == list;
      for i := 0 to |list|
        invariant FirstClash(list, skip, name, domain) == FirstClash(list[i..], skip, name, domain)
      {
        assert list[i..][1..] == list[i + 1..];
        var existing := list[i];
        if existing.id in skip {
          continue;
        }
        if EqualFold(existing.name, name) {
          return Some(DuplicateName);
        }
        if EqualFold(existing.domain, domain) {
          return Some(DuplicateDomain);
        }
      }
      return None;
    }

    /** Appends a record for a fresh ID, or leaves the registry as it was. */
    method Register(input: SiteInput, newId: string, now: int) returns (r: SiteResult)
      modifies host`trouble, this
      ensures r.Kept? ==>
                && RefusalOf(old(sites), input).None?
                && r.record == NewRecord(input, newId, now)
                && sites == old(sites) + [r.record]
                && host.trouble == old(host.trouble)
      ensures r.Refused? ==> sites == old(sites)
      ensures r.Refused? && host.trouble == old(host.trouble) ==> RefusalOf(sites, input) == Some(r.reason)
      ensures host.trouble == old(host.trouble) || host.trouble == old(host.Faulty())
    {
      hide TrimSpace, NormalizeDomain, DeriveSiteName, NormalizeVersion, FirstClash;
      var trimmed := TrimSpace(input.rootPath);
      if trimmed == "" {
        return Refused(InvalidPath);
      }
      var resolved, rootPath := host.ResolveRoot(trimmed, input.lookup);
      if !resolved {
        return Refused(InvalidPath);
      }
      var isProject := host.Attempt();
      if !isProject {
        return Refused(InvalidPath);
      }
      var loaded := host.Attempt();
      if !loaded {
        return Refused(StoreFailure);
      }
      var name := DeriveName(rootPath);
      var parsed := NormalizeDomain(input.domain, name);
      if !parsed.Domain? {
        return Refused(InvalidDomain(parsed));
      }
      var clash := FindClash(sites, {}, name, parsed.value);
      if clash.Some? {
        return Refused(clash.value);
      }
      var record := SiteRecord(newId, name, rootPath, parsed.value, NormalizeVersion(input.phpVersion), now, now, now);
      var saved := host.Attempt();
      if !saved {
        return Refused(StoreFailure);
      }
      sites := sites + [record];
      return Kept(record);
    }

    /** A copy of the records, ordered by domain. */
    method List() returns (ok: bool, list: seq<SiteRecord>)
      modifies host`trouble
      ensures host.trouble == if ok then old(host.trouble) else old(host.Faulty())
      ensures ok ==> list == SortBy(DomainOf, sites)
    {
      ok := host.Attempt();
      list := SortBy(DomainOf, sites);
    }

    /** The search loop shared by the operations below. */
    method Find(id: string) returns (index: nat)
      ensures index == IndexOf(sites, id)
    {
      index := 0;
      while index < |sites| && sites[index].id != id
        invariant 0 <= index <= |sites|
        invariant forall j | 0 <= j < index :: sites[j].id != id
      {
        index := index + 1;
      }
    }

    method Get(id: string) returns (r: SiteResult)
      modifies host`trouble
      ensures r.Kept? ==> Has(sites, id) && r.record == sites[IndexOf(sites, id)] && host.trouble == old(host.trouble)
      ensures r.Refused? && host.trouble == old(host.trouble) ==> r.reason.SiteNotFound? && !Has(sites, id)
      ensures host.trouble == old(host.trouble) || host.trouble == old(host.Faulty())
    {
      var loaded := host.Attempt();
      if !loaded {
        return Refused(StoreFailure);
      }
      var index := Find(id);
      if index < |sites| {
        return Kept(sites[index]);
      }
      return Refused(SiteNotFound);
    }

    method Update(record: SiteRecord, now: int) returns (r: SiteResult)
      modifies host`trouble, this
      ensures r.Kept? ==>
                && Has(old(sites), record.id)
                && sites == Stored(old(sites), record, now)
                && r.record == Stamped(old(sites)[IndexOf(old(sites), record.id)], record, now)
                && host.trouble == old(host.trouble)
      ensures r.Refused? ==> sites == old(sites)
      ensures r.Refused? && host.trouble == old(host.trouble) ==> r.reason.SiteNotFound? && !Has(sites, record.id)
      ensures host.trouble == old(host.trouble) || host.trouble == old(host.Faulty())
    {
      var loaded := host.Attempt();
      if !loaded {
        return Refused(StoreFailure);
      }
      var index := Find(record.id);
      if index == |sites| {
        return Refused(SiteNotFound);
      }
      var stamped := Stamped(sites[index], record, now);
      var saved := host.Attempt();
      if !saved {
        return Refused(StoreFailure);
      }
      sites := sites[index := stamped];
      return Kept(stamped);
    }

    method Delete(id: string) returns (ok: bool)
      modifies host`trouble, this
      ensures ok ==> Has(old(sites), id) && sites == Without(old(sites), id) && host.trouble == old(host.trouble)
      ensures !ok ==> sites == old(sites)
      ensures !ok && host.trouble == old(host.trouble) ==> !Has(sites, id)
      ensures host.trouble == old(host.trouble) || host.trouble == old(host.Faulty())
    {
      var loaded := host.Attempt();
      if !loaded {
        return false;
      }
      var index := Find(id);
      if index == |sites| {
        return false;
      }
      var saved := host.Attempt();
      if !saved {
        return false;
      }
      sites := sites[..index] + sites[index + 1..];
      return true;
    }
  }

  // ---- What the operations do, spelled out ----

  /** Registration accepts an input exactly when its path is not blank, its domain, or the one made from the
      derived name, is a `.test` domain, and nobody else has the name or the domain. */
  lemma AcceptedExactly(sites: seq<SiteRecord>, input: SiteInput)
    ensures var name := DeriveSiteName(RootOf(input));
            var domain := Candidate(input.domain, name);
            RefusalOf(sites, input).None? <==>
            TrimSpace(input.rootPath) != "" && IsTestDomain(domain) && Unclaimed(sites, {}, name, domain)
  {
    hide TrimSpace, DeriveSiteName, NormalizeDomain, IsTestDomain, Candidate, Unclaimed, FirstClash;
    var name := DeriveSiteName(RootOf(input));
    var domain := Candidate(input.domain, name);
    DomainAccepted(input.domain, name);
    NoClash(sites, {}, name, domain);
  }

  /** A refusal for a duplicate names what is duplicated. */
  lemma {:induction false} ClashReason(sites: seq<SiteRecord>, skip: set<string>, name: string, domain: string)
    ensures FirstClash(sites, skip, name, domain) == Some(DuplicateName) ==>
              exists s | s in sites && s.id !in skip :: EqualFold(s.name, name)
    ensures FirstClash(sites, skip, name, domain) == Some(DuplicateDomain) ==>
              exists s | s in sites && s.id !in skip :: EqualFold(s.domain, domain)
  {
    hide EqualFold;
    if sites != [] {
      ClashReason(sites[1..], skip, name, domain);
      assert sites[0] in sites && forall s | s in sites[1..] :: s in sites;
    }
  }

  lemma FoundBehind(a: seq<SiteRecord>, x: SiteRecord, b: seq<SiteRecord>)
    requires forall s | s in a :: s.id != x.id
    ensures IndexOf(a + [x] + b, x.id) == |a|
  {
    var all := a + [x] + b;
    assert all[|a|] == x && forall j | 0 <= j < |a| :: all[j] == a[j] && a[j] in a;
  }

  /** Deleting takes out one record and spares the rest. */
  lemma DeleteSpares(a: seq<SiteRecord>, x: SiteRecord, b: seq<SiteRecord>)
    requires forall s | s in a :: s.id != x.id
    ensures Without(a + [x] + b, x.id) == a + b
  {
    FoundBehind(a, x, b);
    var all := a + [x] + b;
    assert all[..|a|] == a && all[|a| + 1..] == b;
  }

  /** Storing replaces one record, keeps when it was created, and spares the rest. */
  lemma StoreSpares(a: seq<SiteRecord>, x: SiteRecord, b: seq<SiteRecord>, rec: SiteRecord, now: int)
    requires (forall s | s in a :: s.id != x.id) && rec.id == x.id
    ensures Stored(a + [x] + b, rec, now) == a + [rec.(createdAt := x.createdAt, updatedAt := now)] + b
  {
    FoundBehind(a, x, b);
  }

  /** The listing has the registered records, by ascending domain. */
  lemma ListIsSorted(sites: seq<SiteRecord>)
    requires forall i, j | 0 <= i < j < |sites| :: sites[i].domain != sites[j].domain
    ensures var list := SortBy(DomainOf, sites);
            && multiset(list) == multiset(sites)
            && forall i, j | 0 <= i < j < |list| :: Less(list[i].domain, list[j].domain)
  {
    hide SortBy, Less;
    var list := SortBy(DomainOf, sites);
    SortMultiset(DomainOf, sites);
    SortAscending(DomainOf, sites);
    forall i, j | 0 <= i < j < |list| ensures Less(list[i].domain, list[j].domain) {
      assert Less(DomainOf(list[i]), DomainOf(list[j]));
    }
  }
}
