/** Starting the services a site needs. */
module Services {
  import opened Text
  import opened HostModel

  /** The names to start: trimmed, blanks skipped, each once, in order of first appearance. */
  function ToStart(names: seq<string>): seq<string> {
    if names == [] then []
    else
      var n := |names| - 1;
      var before := ToStart(names[..n]);
      var name := TrimSpace(names[n]);
      if name == "" || name in before then before else before + [name]
  }

  function Starts(names: seq<string>): (calls: seq<Call>)
    ensures |calls| == |names|
  {
    seq(|names|, i requires 0 <= i < |names| => Call(Start(names[i]), true))
  }

  lemma {:induction false} StartsEachOnce(names: seq<string>)
    ensures forall i, j | 0 <= i < j < |ToStart(names)| :: ToStart(names)[i] != ToStart(names)[j]
    ensures forall name :: name in ToStart(names) <==> name != "" && exists raw | raw in names :: TrimSpace(raw) == name
  {
    hide TrimSpace;
    if names != [] {
      var n := |names| - 1;
      StartsEachOnce(names[..n]);
      assert names == names[..n] + [names[n]];
    }
  }

  lemma {:induction false} ToStartPrefix(names: seq<string>, i: nat)
    requires i <= |names|
    ensures ToStart(names[..i]) <= ToStart(names)
  {
    hide TrimSpace;
    if i == |names| {
      assert names[..i] == names;
    } else {
      var n := |names| - 1;
      assert names[..n][..i] == names[..i];
      ToStartPrefix(names[..n], i);
    }
  }

  /** The loop over names with its seen-set; it stops at the first service that does not start. */
  method StartAll(host: Host, names: seq<string>) returns (ok: bool)
    modifies host`calls, host`trouble
    ensures ok ==> host.calls == old(host.calls) + Starts(ToStart(names)) && host.trouble == old(host.trouble)
    ensures !ok ==> host.trouble == old(host.Faulty())
    ensures !ok ==> exists k: nat | k < |ToStart(names)| ::
              host.calls == old(host.calls) + Starts(ToStart(names)[..k]) + [Call(Start(ToStart(names)[k]), false)]
  {
    hide TrimSpace;
    var seen: set<string> := {};
    ghost var started := [];
    assert names[..0] == [];
    assert host.calls == host.calls + Starts([]);
    for i := 0 to |names|
      invariant started == ToStart(names[..i])
      invariant forall name :: name in seen <==> name in started
      invariant host.calls == old(host.calls) + Starts(started) && host.trouble == old(host.trouble)
    {
      assert names[..i + 1][..i] == names[..i];
      var name := TrimSpace(names[i]);
      if name == "" || name in seen {
        continue;
      }
      seen := seen + {name};
      assert Starts(started + [name]) == Starts(started) + [Call(Start(name), true)];
      ghost var before := started;
      started := started + [name];
      var status := host.Run(Start(name));
      if !status {
        ToStartPrefix(names, i + 1);
        assert ToStart(names)[..|before|] == before && ToStart(names)[|before|] == name;
        return false;
      }
    }
    assert names[..|names|] == names;
    return true;
  }

  /** Caddy first, then the service of the site's version. */
  lemma CaddyComesFirst(service: string)
    requires TrimSpace(service) != "" && TrimSpace(service) != "caddy"
    ensures ToStart(["caddy", service]) == ["caddy", TrimSpace(service)]
  {
    hide Trim;
    TrimBare("caddy", SPACES);
    assert ["caddy", service][..1] == ["caddy"] && ["caddy"][..0] == [];
    assert ToStart(["caddy"]) == ["caddy"];
  }
}
