/** The [[ports]] section of an app manifest. */
module Manifest {
  import opened Common

  /** A TOML value as the parser tells values apart; its booleans pass for integers. */
  datatype Value = Missing | Number(n: int) | Text(s: string) | Other

  /** One entry of the array: a table, or something else. */
  datatype Entry = Table(name: Value, containerPort: Value, hostPort: Value) | NoTable

  /** A mapping is known by its label, here `name`; a host port of 0 asks for one to be assigned. */
  datatype Mapping = Mapping(name: string, containerPort: int, hostPort: int)

  const UNPRIVILEGED_PORT_FLOOR := 25

  function HostPortOf(e: Entry): Option<int>
    requires e.Table?
  {
    if e.hostPort.Missing? then Some(0) else if e.hostPort.Number? then Some(e.hostPort.n) else None
  }

  /** An entry that is right by itself. */
  predicate WellFormed(e: Entry) {
    && e.Table? && e.name.Text? && e.name.s != ""
    && e.containerPort.Number? && e.containerPort.n >= 0
    && HostPortOf(e).Some? && (HostPortOf(e).value == 0 || HostPortOf(e).value >= UNPRIVILEGED_PORT_FLOOR)
  }

  function MappingOf(e: Entry): Mapping
    requires WellFormed(e)
  {
    Mapping(e.name.s, e.containerPort.n, HostPortOf(e).value)
  }

  /** No label, container port or fixed host port twice. */
  predicate Apart(a: Mapping, b: Mapping) {
    a.name != b.name && a.containerPort != b.containerPort && (a.hostPort == b.hostPort ==> a.hostPort == 0)
  }

  predicate AllApart(m: seq<Mapping>) { forall i, j :: 0 <= i < j < |m| ==> Apart(m[i], m[j]) }

  predicate Parses(entries: seq<Entry>, m: seq<Mapping>) {
    && |m| == |entries| && AllApart(m)
    && forall i :: 0 <= i < |entries| ==> WellFormed(entries[i]) && m[i] == MappingOf(entries[i])
  }

  /** What is accepted and as what, told from the fields: a table with a label that is not empty, a container port that
      is no negative number, and a host port that is missing, zero, or not privileged; and no two of them alike. */
  lemma {:induction false} ParsesExactly(entries: seq<Entry>, m: seq<Mapping>)
    ensures Parses(entries, m) <==>
      && |m| == |entries|
      && (forall i :: 0 <= i < |entries| ==>
            && entries[i].Table? && entries[i].name == Text(m[i].name) && m[i].name != ""
            && entries[i].containerPort == Number(m[i].containerPort) && m[i].containerPort >= 0
            && (entries[i].hostPort == Number(m[i].hostPort) || (entries[i].hostPort.Missing? && m[i].hostPort == 0))
            && (m[i].hostPort == 0 || m[i].hostPort >= 25))
      && (forall i, j :: 0 <= i < j < |m| ==>
            && m[i].name != m[j].name && m[i].containerPort != m[j].containerPort
            && (m[i].hostPort == m[j].hostPort ==> m[i].hostPort == 0))
  {
  }

  /** `_parse_ports`: it accepts exactly the entries that are right by themselves and apart from one another. */
  method ParsePorts(entries: seq<Entry>) returns (r: Option<seq<Mapping>>)
    ensures r.Some? <==> exists m :: Parses(entries, m)
    ensures r.Some? ==> Parses(entries, r.value)
  {
    var seenLabels: set<string>, seenContainerPorts: set<int>, seenHostPorts: set<int> := {}, {}, {};
    var result: seq<Mapping> := [];
    for i := 0 to |entries|
      invariant Parses(entries[..i], result)
      invariant seenLabels == set m | m in result :: m.name
      invariant seenContainerPorts == set m | m in result :: m.containerPort
      invariant seenHostPorts == set m | m in result && m.hostPort != 0 :: m.hostPort
    {
      var e := entries[i];
      if !e.Table? || !e.name.Text? || e.name.s == "" { Rejects(entries, i, result); return None; }
      if e.name.s in seenLabels { Rejects(entries, i, result); return None; }
      if !e.containerPort.Number? || e.containerPort.n < 0 { Rejects(entries, i, result); return None; }
      if e.containerPort.n in seenContainerPorts { Rejects(entries, i, result); return None; }
      var hostPort := HostPortOf(e);
      if hostPort == None || hostPort.value < 0 { Rejects(entries, i, result); return None; }
      if hostPort.value != 0 && hostPort.value < UNPRIVILEGED_PORT_FLOOR { Rejects(entries, i, result); return None; }
      if hostPort.value != 0 && hostPort.value in seenHostPorts { Rejects(entries, i, result); return None; }
      seenLabels := seenLabels + {e.name.s};
      seenContainerPorts := seenContainerPorts + {e.containerPort.n};
      if hostPort.value != 0 { seenHostPorts := seenHostPorts + {hostPort.value}; }
      result := result + [MappingOf(e)];
      assert entries[..i + 1] == entries[..i] + [e];
    }
    assert entries[..|entries|] == entries;
    r := Some(result);
  }

  /** A prefix parses in one way only, so an entry that does not fit it is final. */
  lemma Rejects(entries: seq<Entry>, i: nat, result: seq<Mapping>)
    requires i < |entries| && Parses(entries[..i], result)
    requires WellFormed(entries[i]) ==> exists k :: 0 <= k < i && !Apart(result[k], MappingOf(entries[i]))
    ensures !exists m :: Parses(entries, m)
  {
    if WellFormed(entries[i]) {
      var k :| 0 <= k < i && !Apart(result[k], MappingOf(entries[i]));
      assert entries[..i][k] == entries[k];
      Clash(entries, k, i);
    }
  }

  lemma Clash(entries: seq<Entry>, k: nat, i: nat)
    requires k < i < |entries| && WellFormed(entries[k]) && WellFormed(entries[i])
    requires !Apart(MappingOf(entries[k]), MappingOf(entries[i]))
    ensures forall m :: !Parses(entries, m)
  {
    forall m ensures !Parses(entries, m) {
      if |m| == |entries| && m[k] == MappingOf(entries[k]) && m[i] == MappingOf(entries[i]) {
        assert !Apart(m[k], m[i]);
      }
    }
  }
}
