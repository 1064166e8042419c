/** Host ports: what is allocated to whom, and how installations, reloads and removals change it. */
module Ports {
  import opened Common
  import opened Manifest

  type Id = string
  type Slot = (Id, string)

  /** A mapping row: the container's port and the host's. */
  datatype Link = Link(containerPort: int, hostPort: int)

  /** The `local_port` column of each app, and the rows of `app_port_mappings` by app and label. */
  datatype Ledger = Ledger(main: map<Id, int>, links: map<Slot, Link>)

  /** The range ports are picked from, and the ports nothing on the host holds just now. */
  datatype Host = Host(low: int, high: int, bindable: set<int>)

  // ---------------------------------------------------------------- what is used

  ghost predicate MainUsed(t: Ledger, port: int) { exists a :: a in t.main && t.main[a] == port }

  /** Used by a mapping of an app other than `except`. */
  ghost predicate LinkUsed(t: Ledger, port: int, except: Option<Id>) {
    exists k :: k in t.links && Some(k.0) != except && t.links[k].hostPort == port
  }

  ghost predicate Holds(t: Ledger, a: Id, port: int) {
    (a in t.main && t.main[a] == port) || exists k :: k in t.links && k.0 == a && t.links[k].hostPort == port
  }

  /** Nobody else holds it, and either the app itself does, or it can be bound. */
  ghost predicate Available(t: Ledger, host: Host, port: int, except: Option<Id>) {
    && (forall a :: a in t.main && t.main[a] == port ==> Some(a) == except)
    && !LinkUsed(t, port, except)
    && ((except.Some? && Holds(t, except.value, port)) || port in host.bindable)
  }

  /** A port the auto-assignment may pick. */
  ghost predicate Pickable(t: Ledger, host: Host, port: int, except: Option<Id>) {
    host.low <= port <= host.high && port in host.bindable && !MainUsed(t, port) && !LinkUsed(t, port, except)
  }

  /** The unique column. */
  ghost predicate UniqueMain(t: Ledger) {
    forall a, b :: a in t.main && b in t.main && a != b ==> t.main[a] != t.main[b]
  }

  // ---------------------------------------------------------------- resolution

  datatype Resolution =
    | Resolved(mappings: seq<Mapping>)
    | InUse(mapping: Mapping)
    | Twice(mapping: Mapping)
    | Exhausted

  function Fixed(m: seq<Mapping>): (r: seq<Mapping>)
    ensures |r| <= |m|
  {
    if m == [] then [] else Fixed(m[..|m| - 1]) + if m[|m| - 1].hostPort != 0 then [m[|m| - 1]] else []
  }

  function Auto(m: seq<Mapping>): (r: seq<Mapping>)
    ensures |Fixed(m)| + |r| == |m|
  {
    if m == [] then [] else Auto(m[..|m| - 1]) + if m[|m| - 1].hostPort == 0 then [m[|m| - 1]] else []
  }

  /** The two parts together are a permutation of the whole. */
  lemma {:induction false} Parts(m: seq<Mapping>)
    ensures multiset(Fixed(m) + Auto(m)) == multiset(m)
    ensures forall x :: x in Fixed(m) <==> x in m && x.hostPort != 0
    ensures forall x :: x in Auto(m) <==> x in m && x.hostPort == 0
  {
    if m != [] {
      var init, x := m[..|m| - 1], m[|m| - 1];
      assert m == init + [x];
      Parts(init);
      OneMore(init, x);
    }
  }

  lemma {:induction false} OneMore(m: seq<Mapping>, x: Mapping)
    ensures Fixed(m + [x]) == Fixed(m) + if x.hostPort != 0 then [x] else []
    ensures Auto(m + [x]) == Auto(m) + if x.hostPort == 0 then [x] else []
  {
    assert (m + [x])[..|m|] == m;
  }

  function HostPorts(m: seq<Mapping>): set<int> { set x | x in m :: x.hostPort }

  predicate DistinctPorts(m: seq<Mapping>) { forall i, j :: 0 <= i < j < |m| ==> m[i].hostPort != m[j].hostPort }

  ghost predicate AllAvailable(t: Ledger, host: Host, m: seq<Mapping>, except: Option<Id>) {
    forall i :: 0 <= i < |m| ==> Available(t, host, m[i].hostPort, except)
  }

  /** `x` is the mapping `asked`, with a port picked for it. */
  ghost predicate Picked(t: Ledger, host: Host, asked: Mapping, x: Mapping, except: Option<Id>) {
    x == asked.(hostPort := x.hostPort) && Pickable(t, host, x.hostPort, except)
  }

  ghost predicate AllPicked(t: Ledger, host: Host, asked: seq<Mapping>, given: seq<Mapping>, except: Option<Id>) {
    |given| == |asked| && forall i :: 0 <= i < |given| ==> Picked(t, host, asked[i], given[i], except)
  }

  /** What a resolution may answer: the fixed mappings as they were, each available, then the others in order, each
      with a port picked for it, and no port twice. */
  ghost predicate Resolves(t: Ledger, host: Host, m: seq<Mapping>, except: Option<Id>, r: seq<Mapping>) {
    && |r| == |m| && DistinctPorts(r)
    && r[..|Fixed(m)|] == Fixed(m) && AllAvailable(t, host, Fixed(m), except)
    && AllPicked(t, host, Auto(m), r[|Fixed(m)|..], except)
  }

  ghost function AllPickable(t: Ledger, host: Host, except: Option<Id>): set<int> {
    set p | host.low <= p <= host.high && Pickable(t, host, p, except)
  }

  /** A resolution exists: nothing fixed is taken or asked for twice, and there are enough ports for the rest. */
  ghost predicate Resolvable(t: Ledger, host: Host, m: seq<Mapping>, except: Option<Id>) {
    && AllAvailable(t, host, Fixed(m), except) && DistinctPorts(Fixed(m))
    && |AllPickable(t, host, except) - HostPorts(Fixed(m))| >= |Auto(m)|
  }

  datatype UsedBy = Nobody | MainPort(app: Id) | PortMapping(slot: Slot) | HostService

  // ---------------------------------------------------------------- rows

  function Upserted(links: map<Slot, Link>, a: Id, m: seq<Mapping>): map<Slot, Link> {
    if m == [] then links else
      var x := m[|m| - 1];
      Upserted(links, a, m[..|m| - 1])[(a, x.name) := Link(x.containerPort, x.hostPort)]
  }

  function Names(m: seq<Mapping>): set<string> { set x | x in m :: x.name }

  /** Without the labels of `a` that the manifest no longer has. */
  function Pruned(t: Ledger, a: Id, m: seq<Mapping>): Ledger {
    t.(links := map k | k in t.links && !(k.0 == a && k.1 !in Names(m)) :: t.links[k])
  }

  /** A label that exists asks for the port it has. */
  function ToResolve(t: Ledger, a: Id, m: seq<Mapping>): (r: seq<Mapping>)
    ensures |r| == |m|
    ensures forall i :: 0 <= i < |m| ==>
      r[i] == if (a, m[i].name) in t.links then m[i].(hostPort := t.links[(a, m[i].name)].hostPort) else m[i]
  {
    seq(|m|, i requires 0 <= i < |m| =>
      if (a, m[i].name) in t.links then m[i].(hostPort := t.links[(a, m[i].name)].hostPort) else m[i])
  }

  class PortTable {
    var main: map<Id, int>
    var links: map<Slot, Link>

    function View(): Ledger
      reads this
    {
      Ledger(main, links)
    }

    function UsedPorts(except: Option<Id>): (used: set<int>)
      reads this
      ensures forall p :: p in used <==> MainUsed(View(), p) || LinkUsed(View(), p, except)
    {
      (set a | a in main :: main[a]) + (set k | k in links && Some(k.0) != except :: links[k].hostPort)
    }

    /** `allocate_port`: the first port of the range that nobody has and that can be bound. */
    method AllocatePort(host: Host) returns (r: Option<int>)
      ensures r.Some? ==>
        Pickable(View(), host, r.value, None) && forall p :: p < r.value ==> !Pickable(View(), host, p, None)
      ensures r == None ==> forall p :: !Pickable(View(), host, p, None)
    {
      var used := UsedPorts(None);
      var port := host.low;
      while port <= host.high
        invariant forall p :: p < port ==> !Pickable(View(), host, p, None)
        decreases host.high + 1 - port
      {
        if port !in used && port in host.bindable { return Some(port); }
        port := port + 1;
      }
      r := None;
    }

    /** `_find_free_host_port`, the candidates being the range in some order. */
    method FindFreeHostPort(host: Host, candidates: seq<int>, claimed: set<int>, except: Option<Id>)
        returns (r: Option<int>)
      requires forall p :: p in candidates <==> host.low <= p <= host.high
      ensures r.Some? ==> Pickable(View(), host, r.value, except) && r.value !in claimed
      ensures r == None ==> forall p :: Pickable(View(), host, p, except) ==> p in claimed
    {
      var used := UsedPorts(except) + claimed;
      for i := 0 to |candidates|
        invariant forall k :: 0 <= k < i && Pickable(View(), host, candidates[k], except) ==> candidates[k] in claimed
      {
        var port := candidates[i];
        if port in used { continue; }
        if port in host.bindable {
          assert port in candidates;
          return Some(port);
        }
      }
      assert forall p :: Pickable(View(), host, p, except) ==> p in candidates;
      r := None;
    }

    /** `check_port_available`: the first obstacle, in the order of the queries. */
    method CheckPortAvailable(host: Host, port: int, except: Option<Id>) returns (available: bool, usedBy: UsedBy)
      requires UniqueMain(View())
      ensures available <==> Available(View(), host, port, except)
      ensures match usedBy
        case Nobody => available
        case MainPort(a) => a in main && main[a] == port && Some(a) != except
        case PortMapping(k) => k in links && links[k].hostPort == port && Some(k.0) != except
        case HostService => !available && port !in host.bindable
      ensures usedBy.Nobody? <==> available
    {
      if a :| a in main && main[a] == port && Some(a) != except { return false, MainPort(a); }
      if k :| k in links && links[k].hostPort == port && Some(k.0) != except { return false, PortMapping(k); }
      if except.Some? {
        if except.value in main && main[except.value] == port { return true, Nobody; }
        if k :| k in links && k.0 == except.value && links[k].hostPort == port { return true, Nobody; }
      }
      if port !in host.bindable { return false, HostService; }
      return true, Nobody;
    }

    /** `resolve_port_mappings`; `shuffles` are the orders the range is tried in. It succeeds exactly when nothing fixed
        is taken or asked for twice and enough ports are left, and it says which mapping was in the way. */
    method ResolvePortMappings(host: Host, mappings: seq<Mapping>, except: Option<Id>, shuffles: seq<seq<int>>)
      returns (r: Resolution)
      requires UniqueMain(View()) && |shuffles| == |mappings|
      requires forall i, p :: 0 <= i < |shuffles| ==> (p in shuffles[i] <==> host.low <= p <= host.high)
      ensures r.Resolved? <==> Resolvable(View(), host, mappings, except)
      ensures r.Resolved? ==> Resolves(View(), host, mappings, except, r.mappings)
      ensures r.InUse? ==>
        r.mapping in mappings && r.mapping.hostPort != 0 && !Available(View(), host, r.mapping.hostPort, except)
      ensures r.Twice? ==> r.mapping in mappings && r.mapping.hostPort != 0 && !DistinctPorts(Fixed(mappings))
      ensures r.Exhausted? ==> |AllPickable(View(), host, except) - HostPorts(Fixed(mappings))| < |Auto(mappings)|
    {
      hide *;
      ghost var t := View();
      var claimed: set<int> := {};
      var resolved: seq<Mapping> := [];
      StartFixed(t, host, mappings, except);
      for i := 0 to |mappings|
        invariant FixedSoFar(t, host, mappings, except, i, resolved, claimed)
      {
        var x := mappings[i];
        if x.hostPort != 0 {
          var available, usedBy := CheckPortAvailable(host, x.hostPort, except);
          if !available {
            Blocks(t, host, mappings, x, except);
            return InUse(x);
          }
          if x.hostPort in claimed {
            AskedTwice(t, host, mappings, except, i, resolved, claimed);
            return Twice(x);
          }
          NextFixed(t, host, mappings, except, i, resolved, claimed);
          claimed := claimed + {x.hostPort};
          resolved := resolved + [x];
        } else {
          NextFixed(t, host, mappings, except, i, resolved, claimed);
        }
      }
      ghost var given: seq<Mapping> := [];
      StartAuto(t, host, mappings, except, resolved, claimed);
      for i := 0 to |mappings|
        invariant AutoSoFar(t, host, mappings, except, i, given, resolved, claimed)
      {
        var x := mappings[i];
        if x.hostPort == 0 {
          var found := FindFreeHostPort(host, shuffles[i], claimed, except);
          if found == None {
            NoneLeft(t, host, mappings, except, i, given, resolved, claimed);
            return Exhausted;
          }
          NextAuto(t, host, mappings, except, i, given, resolved, claimed, found.value);
          claimed := claimed + {found.value};
          given := given + [x.(hostPort := found.value)];
          resolved := resolved + [x.(hostPort := found.value)];
        } else {
          NextAuto(t, host, mappings, except, i, given, resolved, claimed, 0);
        }
      }
      PutTogether(t, host, mappings, except, given, resolved, claimed);
      r := Resolved(resolved);
    }

    /** The loop of UPDATEs and INSERTs. */
    method Upsert(a: Id, m: seq<Mapping>)
      modifies this`links
      ensures links == Upserted(old(links), a, m)
    {
      for i := 0 to |m|
        invariant links == Upserted(old(links), a, m[..i])
      {
        assert m[..i + 1][..i] == m[..i];
        links := links[(a, m[i].name) := Link(m[i].containerPort, m[i].hostPort)];
      }
      assert m[..|m|] == m;
    }

    /** `_sync_port_mappings`. The labels gone from the manifest are deleted before anything can raise, and a reload
        that raises commits that much. */
    method SyncPortMappings(host: Host, a: Id, manifest: seq<Mapping>, shuffles: seq<seq<int>>) returns (r: Resolution)
      requires UniqueMain(View()) && |shuffles| == |manifest|
      requires forall i, p :: 0 <= i < |shuffles| ==> (p in shuffles[i] <==> host.low <= p <= host.high)
      modifies this`links
      ensures r.Resolved? <==>
        Resolvable(Pruned(old(View()), a, manifest), host, ToResolve(old(View()), a, manifest), Some(a))
      ensures r.Resolved? ==> Synced(old(View()), host, a, manifest, r.mappings, View())
      ensures !r.Resolved? ==> View() == Pruned(old(View()), a, manifest)
      ensures host.low > 0 && DistinctNames(manifest) && a in main ==> Steps(old(View()), Reload(a, manifest), View())
    {
      hide Resolvable, Resolves, Upserted, Names;
      var asked := ToResolve(View(), a, manifest);
      links := map k | k in links && !(k.0 == a && k.1 !in Names(manifest)) :: links[k];
      r := ResolvePortMappings(host, asked, Some(a), shuffles);
      if r.Resolved? { Upsert(a, r.mappings); }
      ghost var given := if r.Resolved? then r.mappings else [];
      assert host.low > 0 && DistinctNames(manifest) && a in main ==>
        StepsWith(old(View()), Reload(a, manifest), host, 0, given, View());
    }

    /** The port part of `insert_and_deploy`: the main port is picked first, and not kept out of the resolution. */
    method InsertApp(host: Host, a: Id, mappings: seq<Mapping>, shuffles: seq<seq<int>>)
      returns (main': Option<int>, r: Resolution)
      requires UniqueMain(View()) && a !in main && |shuffles| == |mappings|
      requires forall i, p :: 0 <= i < |shuffles| ==> (p in shuffles[i] <==> host.low <= p <= host.high)
      modifies this
      ensures main' == None || !r.Resolved? ==> View() == old(View())
      ensures main'.Some? && r.Resolved? ==> Installed(old(View()), host, a, mappings, main'.value, r.mappings, View())
      ensures main' == None <==> forall p :: !Pickable(old(View()), host, p, None)
      ensures main'.Some? ==> (r.Resolved? <==> Resolvable(old(View()), host, mappings, None))
      ensures host.low > 0 && DistinctNames(mappings) ==> Steps(old(View()), Install(a, mappings), View())
    {
      hide Resolvable, Resolves, Upserted, Pickable;
      main' := AllocatePort(host);
      if main' == None {
        assert DistinctNames(mappings) ==> StepsWith(old(View()), Install(a, mappings), host, 0, [], View());
        return None, Exhausted;
      }
      r := ResolvePortMappings(host, mappings, None, shuffles);
      if r.Resolved? {
        main := main[a := main'.value];
        Upsert(a, r.mappings);
        assert DistinctNames(mappings) ==>
          StepsWith(old(View()), Install(a, mappings), host, main'.value, r.mappings, View());
      } else {
        assert DistinctNames(mappings) ==> StepsWith(old(View()), Install(a, mappings), host, 0, [], View());
      }
    }

    /** Removal: the row goes, its mappings with it, and ports that were apart stay apart. */
    method RemoveApp(a: Id)
      modifies this
      ensures old(Inv(View())) ==> Inv(View())
      ensures View() == Removed(old(View()), a) && Steps(old(View()), Remove(a), View())
    {
      if Inv(View()) { RemovalKeeps(View(), a); }
      main := main - {a};
      links := map k | k in links && k.0 != a :: links[k];
      assert StepsWith(old(View()), Remove(a), Host(1, 1, {}), 0, [], View());
    }
  }

  // ---------------------------------------------------------------- what the operations come to

  ghost predicate Synced(t: Ledger, host: Host, a: Id, manifest: seq<Mapping>, r: seq<Mapping>, t': Ledger) {
    var pruned := Pruned(t, a, manifest);
    && Resolves(pruned, host, ToResolve(t, a, manifest), Some(a), r)
    && t' == pruned.(links := Upserted(pruned.links, a, r))
  }

  ghost predicate Installed(t: Ledger, host: Host, a: Id, m: seq<Mapping>, port: int, r: seq<Mapping>, t': Ledger) {
    && a !in t.main && Pickable(t, host, port, None) && Resolves(t, host, m, None, r)
    && t' == Ledger(t.main[a := port], Upserted(t.links, a, r))
  }

  function Removed(t: Ledger, a: Id): Ledger {
    Ledger(t.main - {a}, map k | k in t.links && k.0 != a :: t.links[k])
  }

  // ---------------------------------------------------------------- the two passes

  /** The first pass, before mapping `i`. */
  ghost predicate FixedSoFar(t: Ledger, host: Host, m: seq<Mapping>, except: Option<Id>, i: nat,
                             resolved: seq<Mapping>, claimed: set<int>)
    requires i <= |m|
  {
    && resolved == Fixed(m[..i]) && claimed == HostPorts(resolved)
    && DistinctPorts(resolved) && AllAvailable(t, host, resolved, except)
  }

  lemma {:induction false} StartFixed(t: Ledger, host: Host, m: seq<Mapping>, except: Option<Id>)
    ensures FixedSoFar(t, host, m, except, 0, [], {})
  {
    assert m[..0] == [];
  }

  lemma {:induction false} NextFixed(t: Ledger, host: Host, m: seq<Mapping>, except: Option<Id>, i: nat,
                  resolved: seq<Mapping>, claimed: set<int>)
    requires i < |m| && FixedSoFar(t, host, m, except, i, resolved, claimed)
    requires m[i].hostPort != 0 ==> Available(t, host, m[i].hostPort, except) && m[i].hostPort !in claimed
    ensures if m[i].hostPort == 0 then FixedSoFar(t, host, m, except, i + 1, resolved, claimed)
            else FixedSoFar(t, host, m, except, i + 1, resolved + [m[i]], claimed + {m[i].hostPort})
  {
    assert m[..i + 1] == m[..i] + [m[i]];
    OneMore(m[..i], m[i]);
    HostPortsGrow(resolved, m[i]);
    assert forall k :: 0 <= k < |resolved| ==> resolved[k].hostPort in claimed;
    hide Available, Fixed, HostPorts;
  }

  lemma {:induction false} HostPortsGrow(m: seq<Mapping>, x: Mapping)
    ensures HostPorts(m + [x]) == HostPorts(m) + {x.hostPort}
  {
  }

  lemma {:induction false} Blocks(t: Ledger, host: Host, m: seq<Mapping>, x: Mapping, except: Option<Id>)
    requires x in m && x.hostPort != 0 && !Available(t, host, x.hostPort, except)
    ensures !Resolvable(t, host, m, except)
  {
    Parts(m);
    assert x in Fixed(m);
    hide Fixed, Auto, Available;
  }

  lemma {:induction false} PortAt(m: seq<Mapping>, port: int) returns (k: nat)
    requires port in HostPorts(m)
    ensures k < |m| && m[k].hostPort == port
  {
    k :| 0 <= k < |m| && m[k].hostPort == port;
  }

  lemma {:induction false} AskedTwice(t: Ledger, host: Host, m: seq<Mapping>, except: Option<Id>, i: nat,
                   resolved: seq<Mapping>, claimed: set<int>)
    requires i < |m| && FixedSoFar(t, host, m, except, i, resolved, claimed)
    requires m[i].hostPort != 0 && m[i].hostPort in claimed
    ensures !DistinctPorts(Fixed(m)) && !Resolvable(t, host, m, except)
  {
    hide Available, Fixed, AllAvailable, AllPickable, HostPorts, DistinctPorts;
    assert m[..i + 1] == m[..i] + [m[i]];
    OneMore(m[..i], m[i]);
    FixedGrows(m, i + 1);
    var k := PortAt(resolved, m[i].hostPort);
    assert Fixed(m)[k] == resolved[k] && Fixed(m)[|resolved|] == m[i];
    TwoAlike(Fixed(m), k, |resolved|);
  }

  lemma {:induction false} TwoAlike(m: seq<Mapping>, i: nat, j: nat)
    requires i < j < |m| && m[i].hostPort == m[j].hostPort
    ensures !DistinctPorts(m)
  {
  }

  /** The second pass, before mapping `i`, when `given` have been picked. */
  ghost predicate AutoSoFar(t: Ledger, host: Host, m: seq<Mapping>, except: Option<Id>, i: nat,
                            given: seq<Mapping>, resolved: seq<Mapping>, claimed: set<int>)
    requires i <= |m|
  {
    var free := AllPickable(t, host, except) - HostPorts(Fixed(m));
    && AllAvailable(t, host, Fixed(m), except) && DistinctPorts(Fixed(m))
    && resolved == Fixed(m) + given && claimed == HostPorts(Fixed(m)) + HostPorts(given)
    && AllPicked(t, host, Auto(m[..i]), given, except) && DistinctPorts(given)
    && HostPorts(given) <= free && |HostPorts(given)| == |given|
  }

  lemma {:induction false} StartAuto(t: Ledger, host: Host, m: seq<Mapping>, except: Option<Id>, resolved: seq<Mapping>,
      claimed: set<int>)
    requires FixedSoFar(t, host, m, except, |m|, resolved, claimed)
    ensures AutoSoFar(t, host, m, except, 0, [], resolved, claimed)
  {
    assert m[..|m|] == m && m[..0] == [];
    assert resolved + [] == resolved && HostPorts([]) == {};
  }

  lemma {:induction false} NextAuto(t: Ledger, host: Host, m: seq<Mapping>, except: Option<Id>, i: nat,
                 given: seq<Mapping>, resolved: seq<Mapping>, claimed: set<int>, port: int)
    requires i < |m| && AutoSoFar(t, host, m, except, i, given, resolved, claimed)
    requires m[i].hostPort == 0 ==> Pickable(t, host, port, except) && port !in claimed
    ensures var x := m[i].(hostPort := port);
      if m[i].hostPort != 0 then AutoSoFar(t, host, m, except, i + 1, given, resolved, claimed)
      else AutoSoFar(t, host, m, except, i + 1, given + [x], resolved + [x], claimed + {port})
  {
    hide Available, Pickable, Fixed, Auto, HostPorts, AllAvailable, AllPicked, AllPickable, DistinctPorts;
    assert m[..i + 1] == m[..i] + [m[i]];
    OneMore(m[..i], m[i]);
    if m[i].hostPort == 0 {
      var x := m[i].(hostPort := port);
      OneMorePicked(t, host, Auto(m[..i]), given, m[i], x, except);
      assert resolved + [x] == Fixed(m) + (given + [x]);
    } else {
      assert Auto(m[..i + 1]) == Auto(m[..i]);
    }
  }

  lemma {:induction false} OneMorePicked(t: Ledger, host: Host, asked: seq<Mapping>, given: seq<Mapping>,
                                         x: Mapping, picked: Mapping, except: Option<Id>)
    requires AllPicked(t, host, asked, given, except) && DistinctPorts(given)
    requires picked == x.(hostPort := picked.hostPort) && Pickable(t, host, picked.hostPort, except)
    requires picked.hostPort !in HostPorts(given)
    ensures AllPicked(t, host, asked + [x], given + [picked], except) && DistinctPorts(given + [picked])
    ensures HostPorts(given + [picked]) == HostPorts(given) + {picked.hostPort}
    ensures picked.hostPort in AllPickable(t, host, except)
  {
    assert picked.hostPort in AllPickable(t, host, except);
    hide Pickable, AllPickable;
    HostPortsGrow(given, picked);
    assert forall k :: 0 <= k < |given| ==> given[k].hostPort in HostPorts(given);
    hide HostPorts;
  }

  lemma {:induction false} NoneLeft(t: Ledger, host: Host, m: seq<Mapping>, except: Option<Id>, i: nat,
                 given: seq<Mapping>, resolved: seq<Mapping>, claimed: set<int>)
    requires i < |m| && AutoSoFar(t, host, m, except, i, given, resolved, claimed) && m[i].hostPort == 0
    requires forall p :: Pickable(t, host, p, except) ==> p in claimed
    ensures |AllPickable(t, host, except) - HostPorts(Fixed(m))| < |Auto(m)| && !Resolvable(t, host, m, except)
  {
    hide Available, Pickable, Fixed, Auto, HostPorts, AllAvailable, Picked, DistinctPorts;
    assert m[..i + 1] == m[..i] + [m[i]];
    OneMore(m[..i], m[i]);
    AutoGrows(m, i + 1);
    assert AllPickable(t, host, except) - HostPorts(Fixed(m)) == HostPorts(given);
    hide AllPickable;
  }

  lemma {:induction false} PutTogether(t: Ledger, host: Host, m: seq<Mapping>, except: Option<Id>,
                    given: seq<Mapping>, resolved: seq<Mapping>, claimed: set<int>)
    requires AutoSoFar(t, host, m, except, |m|, given, resolved, claimed)
    ensures Resolves(t, host, m, except, resolved) && Resolvable(t, host, m, except)
  {
    hide Fixed, Auto, Available, Pickable, AllPickable, AllPicked, AllAvailable, HostPorts, DistinctPorts;
    assert m[..|m|] == m;
    SubsetIsNoLarger(HostPorts(given), AllPickable(t, host, except) - HostPorts(Fixed(m)));
    DistinctTogether(Fixed(m), given);
    assert AllPicked(t, host, Auto(m), given, except);
    LengthOfPicked(t, host, Auto(m), given, except);
    assert resolved[..|Fixed(m)|] == Fixed(m) && resolved[|Fixed(m)|..] == given;
  }

  lemma LengthOfPicked(t: Ledger, host: Host, asked: seq<Mapping>, given: seq<Mapping>, except: Option<Id>)
    requires AllPicked(t, host, asked, given, except)
    ensures |given| == |asked|
  {
  }

  lemma {:induction false} DistinctTogether(a: seq<Mapping>, b: seq<Mapping>)
    requires DistinctPorts(a) && DistinctPorts(b) && forall p :: p in HostPorts(b) ==> p !in HostPorts(a)
    ensures DistinctPorts(a + b)
  {
    var r := a + b;
    forall i, j | 0 <= i < j < |r| ensures r[i].hostPort != r[j].hostPort {
      if i < |a| <= j { assert r[i].hostPort in HostPorts(a) && b[j - |a|].hostPort in HostPorts(b); }
    }
  }

  lemma {:induction false} FixedGrows(m: seq<Mapping>, i: nat)
    requires i <= |m|
    ensures Fixed(m[..i]) <= Fixed(m)
    decreases |m| - i
  {
    if i < |m| {
      assert m[..i + 1] == m[..i] + [m[i]];
      OneMore(m[..i], m[i]);
      FixedGrows(m, i + 1);
    } else {
      assert m[..i] == m;
    }
  }

  lemma {:induction false} AutoGrows(m: seq<Mapping>, i: nat)
    requires i <= |m|
    ensures Auto(m[..i]) <= Auto(m)
    decreases |m| - i
  {
    if i < |m| {
      assert m[..i + 1] == m[..i] + [m[i]];
      OneMore(m[..i], m[i]);
      AutoGrows(m, i + 1);
    } else {
      assert m[..i] == m;
    }
  }

  // ---------------------------------------------------------------- the global invariant

  /** No port of one app is a port of another, and no two mappings share one. An app's own main port may be the port of
      one of its mappings. */
  ghost predicate Inv(t: Ledger) {
    && UniqueMain(t)
    && (forall k :: k in t.links ==> k.0 in t.main && t.links[k].hostPort != 0)
    && (forall k, l :: k in t.links && l in t.links && k != l ==> t.links[k].hostPort != t.links[l].hostPort)
    && (forall k, b :: k in t.links && b in t.main && t.links[k].hostPort == t.main[b] ==> k.0 == b)
  }

  predicate DistinctNames(m: seq<Mapping>) { forall i, j :: 0 <= i < j < |m| ==> m[i].name != m[j].name }

  lemma {:induction false} UpsertedAt(links: map<Slot, Link>, a: Id, m: seq<Mapping>, k: Slot)
    ensures var links' := Upserted(links, a, m);
      && (k in links' <==> k in links || (k.0 == a && k.1 in Names(m)))
      && (k.0 == a && k.1 in Names(m) ==>
            exists i :: 0 <= i < |m| && m[i].name == k.1 && links'[k] == Link(m[i].containerPort, m[i].hostPort))
      && (!(k.0 == a && k.1 in Names(m)) && k in links ==> links'[k] == links[k])
  {
    if m != [] {
      var n := |m| - 1;
      UpsertedAt(links, a, m[..n], k);
      assert m == m[..n] + [m[n]];
      assert Names(m) == Names(m[..n]) + {m[n].name};
      if k.0 == a && k.1 in Names(m[..n]) && k.1 != m[n].name {
        var i :| 0 <= i < n && m[..n][i].name == k.1
                 && Upserted(links, a, m[..n])[k] == Link(m[..n][i].containerPort, m[..n][i].hostPort);
        assert m[i] == m[..n][i];
      }
    }
  }

  /** A port nobody else has. */
  ghost predicate FreeFor(t: Ledger, a: Id, port: int) {
    && port != 0 && (forall b :: b in t.main && t.main[b] == port ==> b == a)
    && forall k :: k in t.links && t.links[k].hostPort == port ==> k.0 == a
  }

  lemma {:induction false} UpsertKeeps(t: Ledger, a: Id, r: seq<Mapping>)
    requires Inv(t) && a in t.main && DistinctPorts(r) && DistinctNames(r)
    requires forall k :: k in t.links && k.0 == a ==> k.1 in Names(r)
    requires forall i :: 0 <= i < |r| ==> FreeFor(t, a, r[i].hostPort)
    ensures Inv(t.(links := Upserted(t.links, a, r)))
  {
    var links' := Upserted(t.links, a, r);
    forall k | k in links'
      ensures if k.0 != a then k in t.links && links'[k] == t.links[k]
              else exists i :: 0 <= i < |r| && r[i].name == k.1 && links'[k].hostPort == r[i].hostPort
    {
      UpsertedAt(t.links, a, r, k);
    }
    forall k, l | k in links' && l in links' && k != l ensures links'[k].hostPort != links'[l].hostPort {
      hide Upserted;
      if k.0 == a && l.0 == a {
        var i :| 0 <= i < |r| && r[i].name == k.1 && links'[k].hostPort == r[i].hostPort;
        var j :| 0 <= j < |r| && r[j].name == l.1 && links'[l].hostPort == r[j].hostPort;
        assert i != j;
      }
    }
    hide Upserted;
  }

  lemma {:induction false} NamesApart(m: seq<Mapping>)
    requires DistinctNames(m)
    ensures DistinctNames(Fixed(m) + Auto(m)) && Names(Fixed(m) + Auto(m)) == Names(m)
  {
    Parts(m);
    forall i, j | 0 <= i < j < |Fixed(m) + Auto(m)|
      ensures (Fixed(m) + Auto(m))[i].name != (Fixed(m) + Auto(m))[j].name
    {
      hide Fixed, Auto;
      PermutedApart(m, Fixed(m) + Auto(m), i, j);
    }
    hide Fixed, Auto;
    assert forall x :: x in Fixed(m) + Auto(m) <==> x in m;
  }

  lemma {:induction false} PermutedApart(m: seq<Mapping>, p: seq<Mapping>, i: nat, j: nat)
    requires DistinctNames(m) && multiset(p) == multiset(m) && i < j < |p|
    ensures p[i].name != p[j].name
  {
    assert p[i] in multiset(p) && p[j] in multiset(p);
    var x :| 0 <= x < |m| && m[x] == p[i];
    var y :| 0 <= y < |m| && m[y] == p[j];
    AtLeastTwice(p, i, j);
    OnceOnly(m, x);
  }

  lemma {:induction false} AtLeastTwice(p: seq<Mapping>, i: nat, j: nat)
    requires i < j < |p|
    ensures p[i] == p[j] ==> multiset(p)[p[i]] >= 2
  {
    assert p == p[..i] + [p[i]] + p[i + 1..];
    assert p[i + 1..][j - i - 1] == p[j];
    assert p[j] in p[i + 1..];
  }

  lemma {:induction false} OnceOnly(m: seq<Mapping>, x: nat)
    requires DistinctNames(m) && x < |m|
    ensures multiset(m)[m[x]] == 1
  {
    assert m == m[..x] + [m[x]] + m[x + 1..];
    assert m[x] !in m[..x] && m[x] !in m[x + 1..];
  }

  // ---------------------------------------------------------------- resolutions

  /** A resolution is a permutation of what was asked, labels and container ports kept, with every port set: the fixed
      ones to what they were. */
  lemma {:induction false} ResolutionPermutes(t: Ledger, host: Host, m: seq<Mapping>, except: Option<Id>,
      r: seq<Mapping>)
    requires Resolves(t, host, m, except, r) && host.low > 0
    ensures multiset(Fixed(m) + Auto(m)) == multiset(m)
    ensures forall i :: 0 <= i < |r| ==>
      var asked := (Fixed(m) + Auto(m))[i];
      && r[i].hostPort != 0 && r[i] == asked.(hostPort := r[i].hostPort)
      && (asked.hostPort != 0 ==> r[i] == asked && Available(t, host, r[i].hostPort, except))
      && (asked.hostPort == 0 ==> Pickable(t, host, r[i].hostPort, except))
  {
    Parts(m);
    hide Fixed, Auto, Available, Pickable;
    var n := |Fixed(m)|;
    forall i | 0 <= i < |r|
      ensures var asked := (Fixed(m) + Auto(m))[i];
        && r[i].hostPort != 0 && r[i] == asked.(hostPort := r[i].hostPort)
        && (asked.hostPort != 0 ==> r[i] == asked && Available(t, host, r[i].hostPort, except))
        && (asked.hostPort == 0 ==> Pickable(t, host, r[i].hostPort, except))
    {
      if i < n {
        assert r[..n][i] == r[i] && Fixed(m)[i] in Fixed(m);
      } else {
        assert r[n..][i - n] == r[i] && Auto(m)[i - n] in Auto(m);
        assert Picked(t, host, Auto(m)[i - n], r[n..][i - n], except);
        PickableIsPositive(t, host, r[i].hostPort, except);
      }
    }
  }

  lemma {:induction false} PickableIsPositive(t: Ledger, host: Host, port: int, except: Option<Id>)
    requires Pickable(t, host, port, except) && host.low > 0
    ensures port > 0
  {
  }

  /** What `UpsertKeeps` needs of a resolution made for app `a`. */
  lemma {:induction false} ResolutionIsFree(t: Ledger, host: Host, m: seq<Mapping>, except: Option<Id>, a: Id,
      r: seq<Mapping>)
    requires Resolves(t, host, m, except, r) && host.low > 0 && DistinctNames(m) &&
      (except == None || except == Some(a))
    ensures DistinctNames(r) && Names(r) == Names(m)
    ensures forall i :: 0 <= i < |r| ==> FreeFor(t, a, r[i].hostPort)
  {
    ResolutionPermutes(t, host, m, except, r);
    NamesApart(m);
    hide Fixed, Auto, Resolves;
    var asked := Fixed(m) + Auto(m);
    assert forall i :: 0 <= i < |r| ==> r[i].name == asked[i].name;
    SameNames(r, asked);
    hide Names;
  }

  lemma {:induction false} SameNames(r: seq<Mapping>, s: seq<Mapping>)
    requires |r| == |s| && forall i :: 0 <= i < |r| ==> r[i].name == s[i].name
    ensures Names(r) == Names(s)
  {
    forall n | n in Names(r) ensures n in Names(s) {
      var i :| 0 <= i < |r| && r[i].name == n;
      assert s[i] in s;
    }
    forall n | n in Names(s) ensures n in Names(r) {
      var i :| 0 <= i < |s| && s[i].name == n;
      assert r[i] in r;
    }
  }

  // ---------------------------------------------------------------- every operation keeps the invariant

  lemma {:induction false} InstallKeeps(t: Ledger, host: Host, a: Id, m: seq<Mapping>, port: int, r: seq<Mapping>,
      t': Ledger)
    requires Inv(t) && host.low > 0 && DistinctNames(m) && Installed(t, host, a, m, port, r, t')
    ensures Inv(t')
  {
    ResolutionIsFree(t, host, m, None, a, r);
    var t1 := t.(main := t.main[a := port]);
    assert Inv(t1);
    forall i | 0 <= i < |r| ensures FreeFor(t1, a, r[i].hostPort) { assert FreeFor(t, a, r[i].hostPort); }
    hide Upserted;
    UpsertKeeps(t1, a, r);
  }

  lemma {:induction false} PruningKeeps(t: Ledger, a: Id, m: seq<Mapping>)
    requires Inv(t)
    ensures Inv(Pruned(t, a, m))
  {
    hide Names;
  }

  lemma {:induction false} SyncKeeps(t: Ledger, host: Host, a: Id, m: seq<Mapping>, r: seq<Mapping>, t': Ledger)
    requires Inv(t) && a in t.main && host.low > 0 && DistinctNames(m) && Synced(t, host, a, m, r, t')
    ensures Inv(t')
  {
    hide Names, Upserted, Resolves, Inv;
    PruningKeeps(t, a, m);
    var asked := ToResolve(t, a, m);
    SameNames(asked, m);
    ResolutionIsFree(Pruned(t, a, m), host, asked, Some(a), a, r);
    DistinctResolution(Pruned(t, a, m), host, asked, Some(a), r);
    UpsertKeeps(Pruned(t, a, m), a, r);
  }

  lemma {:induction false} DistinctResolution(t: Ledger, host: Host, m: seq<Mapping>, except: Option<Id>,
      r: seq<Mapping>)
    requires Resolves(t, host, m, except, r)
    ensures DistinctPorts(r)
  {
  }

  lemma {:induction false} RemovalKeeps(t: Ledger, a: Id)
    requires Inv(t)
    ensures Inv(Removed(t, a))
  {
  }

  /** What can happen to the table: an installation, or one that fails and changes nothing; a reload, or one that raises
      midway, its deletions committed; a removal. The manifests are parsed ones, so that labels are distinct. */
  datatype Action =
    | Install(app: Id, mappings: seq<Mapping>)
    | Reload(app: Id, mappings: seq<Mapping>)
    | Remove(app: Id)

  ghost predicate Steps(t: Ledger, action: Action, t': Ledger) {
    exists host: Host, port: int, r: seq<Mapping> :: host.low > 0 && StepsWith(t, action, host, port, r, t')
  }

  ghost predicate StepsWith(t: Ledger, action: Action, host: Host, port: int, r: seq<Mapping>, t': Ledger) {
    match action
    case Install(a, m) => DistinctNames(m) && (t' == t || Installed(t, host, a, m, port, r, t'))
    case Reload(a, m) =>
      a in t.main && DistinctNames(m) && (Synced(t, host, a, m, r, t') || t' == Pruned(t, a, m) || t' == t)
    case Remove(a) => t' == Removed(t, a)
  }

  /** A new instance has no ports at all. */
  lemma {:induction false} NewInstance()
    ensures Inv(Ledger(map[], map[]))
  {
  }

  /** No port, main or mapped, is held by two apps, and no app has two mappings to one port. */
  ghost predicate NothingShared(t: Ledger) {
    && (forall p: int, a, b :: HeldBy(t, a, p) && HeldBy(t, b, p) ==> a == b)
    && forall a, x, y ::
         (a, x) in t.links && (a, y) in t.links && t.links[(a, x)].hostPort == t.links[(a, y)].hostPort ==>
         x == y
  }

  ghost predicate HeldBy(t: Ledger, a: Id, p: int) {
    (a in t.main && t.main[a] == p) || exists name :: (a, name) in t.links && t.links[(a, name)].hostPort == p
  }

  lemma {:induction false} InvMeans(t: Ledger)
    ensures Inv(t) ==> NothingShared(t)
  {
    if Inv(t) {
      forall p: int, a, b | HeldBy(t, a, p) && HeldBy(t, b, p) ensures a == b { HeldOnce(t, a, b, p); }
      forall a, x, y | (a, x) in t.links && (a, y) in t.links && t.links[(a, x)].hostPort == t.links[(a, y)].hostPort
        ensures x == y
      {
        assert (a, x) == (a, y);
      }
    }
  }

  lemma {:induction false} HeldOnce(t: Ledger, a: Id, b: Id, p: int)
    requires Inv(t) && HeldBy(t, a, p) && HeldBy(t, b, p)
    ensures a == b
  {
  }

  /** Over any sequence of installations, reloads, failing ones included, and removals, whatever sockets are in use at
      each: ports of different apps differ, and so do the ports of one app's mappings. */
  lemma {:induction false} PortsStayApart(tables: seq<Ledger>, actions: seq<Action>)
    requires |tables| == |actions| + 1 && Inv(tables[0])
    requires forall i :: 0 <= i < |actions| ==> Steps(tables[i], actions[i], tables[i + 1])
    ensures Inv(tables[|actions|]) && NothingShared(tables[|actions|])
  {
    InvMeans(tables[|actions|]);
    if actions != [] {
      hide Inv, Steps;
      var n := |actions| - 1;
      PortsStayApart(tables[..n + 1], actions[..n]);
      assert Steps(tables[n], actions[n], tables[n + 1]);
      StepKeeps(tables[n], actions[n], tables[n + 1]);
    }
  }

  lemma {:induction false} StepKeeps(t: Ledger, action: Action, t': Ledger)
    requires Inv(t) && Steps(t, action, t')
    ensures Inv(t')
  {
    hide Inv, Installed, Synced, Pruned, Removed;
    var host: Host, port: int, r: seq<Mapping> :| host.low > 0 && StepsWith(t, action, host, port, r, t');
    match action
    case Install(a, m) => if t' != t { InstallKeeps(t, host, a, m, port, r, t'); }
    case Reload(a, m) =>
      PruningKeeps(t, a, m);
      if t' != t && t' != Pruned(t, a, m) { SyncKeeps(t, host, a, m, r, t'); }
    case Remove(a) => RemovalKeeps(t, a);
  }

  // ---------------------------------------------------------------- a reload's mappings

  /** After a reload the app's labels are the manifest's: those it had keep their host port and take the new container
      port, the others get the manifest's port or a fresh one; and no other app's rows change. */
  lemma {:induction false} SyncIsExact(t: Ledger, host: Host, a: Id, m: seq<Mapping>, r: seq<Mapping>, t': Ledger,
      i: nat)
    requires Inv(t) && a in t.main && host.low > 0 && DistinctNames(m) && i < |m| && Synced(t, host, a, m, r, t')
    ensures forall k: Slot :: k.0 == a ==> (k in t'.links <==> k.1 in Names(m))
    ensures forall k: Slot :: k.0 != a ==>
      (k in t'.links <==> k in t.links) && (k in t.links ==> t'.links[k] == t.links[k])
    ensures t'.main == t.main
    ensures var k := (a, m[i].name);
      && k in t'.links && t'.links[k].containerPort == m[i].containerPort && t'.links[k].hostPort != 0
      && (k in t.links ==> t'.links[k].hostPort == t.links[k].hostPort)
      && (k !in t.links && m[i].hostPort != 0 ==> t'.links[k].hostPort == m[i].hostPort)
  {
    var asked, k := ToResolve(t, a, m), (a, m[i].name);
    var pruned := Pruned(t, a, m);
    SameNames(asked, m);
    ResolutionIsFree(pruned, host, asked, Some(a), a, r);
    forall l: Slot ensures var links' := Upserted(pruned.links, a, r);
      && (l in links' <==> l in pruned.links || (l.0 == a && l.1 in Names(r)))
      && (!(l.0 == a && l.1 in Names(r)) && l in pruned.links ==> links'[l] == pruned.links[l])
    {
      UpsertedAt(pruned.links, a, r, l);
    }
    hide Upserted, Resolves, FreeFor, UniqueMain;
    assert m[i].name in Names(m);
    UpsertedAt(pruned.links, a, r, k);
    var j :| 0 <= j < |r| && r[j].name == k.1 && t'.links[k] == Link(r[j].containerPort, r[j].hostPort);
    EntryOf(pruned, host, asked, Some(a), r, j, i);
  }

  /** The entry of a resolution with a given label comes from the mapping asked for with that label. */
  lemma {:induction false} EntryOf(t: Ledger, host: Host, m: seq<Mapping>, except: Option<Id>, r: seq<Mapping>, j: nat,
      i: nat)
    requires Resolves(t, host, m, except, r) && host.low > 0 && DistinctNames(m)
    requires j < |r| && i < |m| && r[j].name == m[i].name
    ensures r[j] == m[i].(hostPort := r[j].hostPort) && r[j].hostPort != 0
    ensures m[i].hostPort != 0 ==> r[j] == m[i]
  {
    ResolutionPermutes(t, host, m, except, r);
    hide Resolves, Fixed, Auto, Available, Pickable;
    var asked := Fixed(m) + Auto(m);
    assert asked[j] in multiset(asked);
    var x :| 0 <= x < |m| && m[x] == asked[j];
    assert x == i;
  }

  /** A reload whose manifest names only labels the app has cannot fail, whatever sockets are in use. */
  lemma {:induction false} SyncCannotFail(t: Ledger, host: Host, a: Id, m: seq<Mapping>)
    requires Inv(t) && a in t.main && DistinctNames(m)
    requires forall i :: 0 <= i < |m| ==> (a, m[i].name) in t.links
    ensures Resolvable(Pruned(t, a, m), host, ToResolve(t, a, m), Some(a))
  {
    hide Pruned, Inv, Fixed, Auto, Available, UniqueMain;
    var asked, pruned := ToResolve(t, a, m), Pruned(t, a, m);
    forall i | 0 <= i < |asked|
      ensures asked[i].hostPort != 0 && Available(pruned, host, asked[i].hostPort, Some(a))
    {
      OwnPortIsAvailable(t, host, a, m, i);
    }
    AllFixed(asked);
    forall i, j | 0 <= i < j < |asked| ensures asked[i].hostPort != asked[j].hostPort {
      DifferentPorts(t, (a, m[i].name), (a, m[j].name));
    }
  }

  lemma {:induction false} DifferentPorts(t: Ledger, k: Slot, l: Slot)
    requires Inv(t) && k in t.links && l in t.links && k != l
    ensures t.links[k].hostPort != t.links[l].hostPort
  {
  }

  lemma {:induction false} OwnPortIsAvailable(t: Ledger, host: Host, a: Id, m: seq<Mapping>, i: nat)
    requires Inv(t) && i < |m| && (a, m[i].name) in t.links
    ensures var port := t.links[(a, m[i].name)].hostPort;
      port != 0 && Available(Pruned(t, a, m), host, port, Some(a))
  {
    var k := (a, m[i].name);
    assert m[i].name in Names(m);
    assert k in Pruned(t, a, m).links && Pruned(t, a, m).links[k] == t.links[k];
    hide Names;
    assert Holds(Pruned(t, a, m), a, t.links[k].hostPort);
  }

  lemma {:induction false} AllFixed(m: seq<Mapping>)
    requires forall i :: 0 <= i < |m| ==> m[i].hostPort != 0
    ensures Fixed(m) == m && Auto(m) == []
  {
    if m != [] {
      var n := |m| - 1;
      AllFixed(m[..n]);
      assert m == m[..n] + [m[n]];
    }
  }

  // ---------------------------------------------------------------- an app's own main port

  lemma {:induction false} PickFrom(free: set<int>, n: nat, first: Option<int>) returns (picks: seq<int>)
    requires n <= |free| && (first.Some? ==> first.value in free)
    ensures |picks| == n && (n > 0 && first.Some? ==> picks[0] == first.value)
    ensures forall i :: 0 <= i < n ==> picks[i] in free
    ensures forall i, j :: 0 <= i < j < n ==> picks[i] != picks[j]
  {
    if n == 0 { return []; }
    var p;
    if first.Some? { p := first.value; } else { p := AnElement(free); }
    var rest := free - {p};
    assert free == rest + {p};
    var more := PickFrom(rest, n - 1, None);
    picks := [p] + more;
  }

  lemma {:induction false} SomeResolution(t: Ledger, host: Host, m: seq<Mapping>, except: Option<Id>,
      first: Option<int>)
    returns (r: seq<Mapping>)
    requires Resolvable(t, host, m, except)
    requires first.Some? ==> Pickable(t, host, first.value, except) && first.value !in HostPorts(Fixed(m))
    ensures Resolves(t, host, m, except, r) && HostPorts(Fixed(m)) <= HostPorts(r)
    ensures Auto(m) != [] && first.Some? ==> first.value in HostPorts(r)
  {
    hide Fixed, Auto, Pickable, AllAvailable, HostPorts, DistinctPorts;
    var free := AllPickable(t, host, except) - HostPorts(Fixed(m));
    assert first.Some? ==> first.value in free by { hide Resolvable; PickableIsInRange(t, host, except, first); }
    var picks := PickFrom(free, |Auto(m)|, first);
    var given := Give(Auto(m), picks);
    assert forall p :: p in free ==> Pickable(t, host, p, except);
    hide AllPickable;
    GivenPorts(Auto(m), picks);
    assert AllPicked(t, host, Auto(m), given, except);
    assert forall p :: p in HostPorts(given) ==> p in picks && p in free;
    DistinctTogether(Fixed(m), given);
    r := Fixed(m) + given;
    assert r[..|Fixed(m)|] == Fixed(m) && r[|Fixed(m)|..] == given;
    PortsTogether(Fixed(m), given);
  }

  lemma PickableIsInRange(t: Ledger, host: Host, except: Option<Id>, first: Option<int>)
    requires first.Some? ==> Pickable(t, host, first.value, except)
    ensures first.Some? ==> first.value in AllPickable(t, host, except)
  {
  }

  function Give(asked: seq<Mapping>, picks: seq<int>): (given: seq<Mapping>)
    requires |picks| == |asked|
    ensures |given| == |asked|
    ensures forall i :: 0 <= i < |asked| ==> given[i] == asked[i].(hostPort := picks[i])
  {
    seq(|picks|, i requires 0 <= i < |picks| => asked[i].(hostPort := picks[i]))
  }

  lemma {:induction false} GivenPorts(asked: seq<Mapping>, picks: seq<int>)
    requires |picks| == |asked| && forall i, j :: 0 <= i < j < |picks| ==> picks[i] != picks[j]
    ensures DistinctPorts(Give(asked, picks))
    ensures forall p :: p in HostPorts(Give(asked, picks)) <==> p in picks
  {
    var given := Give(asked, picks);
    forall p | p in picks ensures p in HostPorts(given) {
      var i :| 0 <= i < |picks| && picks[i] == p;
      assert given[i].hostPort == p;
    }
  }

  lemma {:induction false} PortsTogether(a: seq<Mapping>, b: seq<Mapping>)
    ensures HostPorts(a + b) == HostPorts(a) + HostPorts(b)
  {
  }

  lemma NothingInIt<T>(s: set<T>)
    requires forall y :: y !in s
    ensures s == {}
  {
  }

  lemma AnElement(s: set<int>) returns (x: int)
    requires |s| > 0
    ensures x in s
  {
    if forall y :: y !in s { NothingInIt(s); }
    x :| x in s;
  }

  /** An installation picks the main port first and does not keep it out of the resolution, so that one of the app's
      mappings can get it as well. None does, whatever order ports are tried in, exactly when no mapping asks for that
      port or for any port at all. */
  lemma {:induction false} OwnPortsApartExactly(t: Ledger, host: Host, m: seq<Mapping>, port: int)
    requires Pickable(t, host, port, None) && Resolvable(t, host, m, None)
    ensures (forall r :: Resolves(t, host, m, None, r) ==> port !in HostPorts(r))
      <==> port !in HostPorts(Fixed(m)) && Auto(m) == []
  {
    hide Pickable, Resolvable, Fixed, Auto, HostPorts;
    if port !in HostPorts(Fixed(m)) && Auto(m) == [] {
      forall r | Resolves(t, host, m, None, r) ensures port !in HostPorts(r) {
        assert r == r[..|Fixed(m)|];
      }
    } else {
      hide Resolves;
      var r := SomeResolution(t, host, m, None, if port in HostPorts(Fixed(m)) then None else Some(port));
      assert Resolves(t, host, m, None, r) && port in HostPorts(r);
    }
  }

  /** What the manifest's parser accepts has labels that are distinct. */
  lemma {:induction false} ParsedLabelsDiffer(entries: seq<Entry>, m: seq<Mapping>)
    requires Parses(entries, m)
    ensures DistinctNames(m)
  {
    forall i, j | 0 <= i < j < |m| ensures m[i].name != m[j].name { assert Apart(m[i], m[j]); }
  }
}
