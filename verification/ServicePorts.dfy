// The connectivity service of pkg/controller/edgedevice/svc_conn.go: the ports required
// for all virtual nodes, and the check that a service has exactly these.
module ServicePorts {
  import opened Prelude
  import opened Ordering

  /** A service port; `target` is the integer value of its target port. */
  datatype Port = Port(name: string, port: int, target: int)

  datatype Service = Service(name: string, labels: map<string, string>, ports: seq<Port>)

  const LabelRoleValueConnectivity := "Connectivity"

  /** A virtual node and the port its connectivity server listens on, if it has one. */
  datatype Node = Node(name: string, listener: Option<int>)

  function PortName(p: Port): (n: string) { p.name }

  function NodeName(n: Node): (name: string) { n.name }

  // ---------------------------------------------------------------- required ports

  function Collect(nodes: seq<Node>): (ps: seq<Port>)
  {
    if nodes == [] then []
    else
      var n := nodes[|nodes| - 1];
      Collect(nodes[..|nodes| - 1]) +
      if n.listener.None? then [] else [Port(n.name, n.listener.value, n.listener.value)]
  }

  /** getAllRequiredServicePorts, for one order in which the map of nodes is walked. */
  method RequiredPorts(nodes: seq<Node>) returns (ports: seq<Port>)
    ensures ports == SortByName(Collect(nodes), PortName)
  {
    ports := [];
    for i := 0 to |nodes|
      invariant ports == Collect(nodes[..i])
    {
      assert nodes[..i + 1][..i] == nodes[..i];
      var n := nodes[i];
      if n.listener.None? {
        continue;
      }
      ports := ports + [Port(n.name, n.listener.value, n.listener.value)];
    }
    assert nodes[..|nodes|] == nodes;
    ports := SortByName(ports, PortName);
  }

  lemma {:induction false} CollectHolds(nodes: seq<Node>, p: Port)
    ensures p in Collect(nodes) <==> p.target == p.port && Node(p.name, Some(p.port)) in nodes
  {
    if nodes != [] {
      CollectHolds(nodes[..|nodes| - 1], p);
      assert nodes == nodes[..|nodes| - 1] + [nodes[|nodes| - 1]];
    }
  }

  lemma {:induction false} CollectDistinct(nodes: seq<Node>)
    requires DistinctNames(nodes, NodeName)
    ensures DistinctNames(Collect(nodes), PortName)
  {
    if nodes != [] {
      var front := nodes[..|nodes| - 1];
      CollectDistinct(front);
      forall i | 0 <= i < |Collect(front)| ensures PortName(Collect(front)[i]) != nodes[|nodes| - 1].name {
        var p := Collect(front)[i];
        CollectHolds(front, p);
        var j :| 0 <= j < |front| && front[j] == Node(p.name, Some(p.port));
        assert NodeName(nodes[j]) != NodeName(nodes[|nodes| - 1]);
      }
    }
  }

  /** The required ports do not depend on the order in which the nodes are walked. */
  lemma RequiredIgnoresOrder(nodes: seq<Node>, others: seq<Node>)
    requires DistinctNames(nodes, NodeName) && multiset(nodes) == multiset(others)
    ensures SortByName(Collect(nodes), PortName) == SortByName(Collect(others), PortName)
  {
    PermutedNamesDistinct(nodes, others, NodeName);
    var a, b := Collect(nodes), Collect(others);
    CollectDistinct(nodes);
    CollectDistinct(others);
    SortAscends(a, PortName);
    SortAscends(b, PortName);
    forall p ensures p in SortByName(a, PortName) <==> p in SortByName(b, PortName) {
      MemberOf(SortByName(a, PortName), a, p);
      MemberOf(SortByName(b, PortName), b, p);
      CollectHolds(nodes, p);
      CollectHolds(others, p);
      MemberOf(nodes, others, Node(p.name, Some(p.port)));
    }
    AscendingIsUnique(SortByName(a, PortName), SortByName(b, PortName), PortName);
  }

  // ---------------------------------------------------------------- the check

  /** What the controller builds: one entry for each name, forwarding to the port itself. */
  ghost predicate Required(ports: seq<Port>)
  {
    DistinctNames(ports, PortName) && forall i :: 0 <= i < |ports| ==> ports[i].target == ports[i].port
  }

  predicate HasRole(svc: Service)
  {
    LabelRole in svc.labels && svc.labels[LabelRole] == LabelRoleValueConnectivity
  }

  /** requiredPorts: the port wanted under each name. */
  ghost predicate Indexes(m: map<string, int>, ports: seq<Port>)
  {
    && (forall n :: n in m ==> Port(n, m[n], m[n]) in ports)
    && (forall i :: 0 <= i < |ports| ==> ports[i].name in m && m[ports[i].name] == ports[i].port)
  }

  /** The port at k is not in the required map any more: unknown, or named before. */
  ghost predicate Unknown(m: map<string, int>, ports: seq<Port>, k: nat)
    requires k < |ports|
  {
    ports[k].name !in m || exists j :: 0 <= j < k && ports[j].name == ports[k].name
  }

  ghost predicate NoneUnknown(m: map<string, int>, ports: seq<Port>)
  {
    forall k :: 0 <= k < |ports| ==> !Unknown(m, ports, k)
  }

  /** Every port is the one required under its name. */
  ghost predicate AllMatch(m: map<string, int>, ports: seq<Port>)
  {
    forall k :: 0 <= k < |ports| ==> ports[k].name in m && ports[k] == Port(ports[k].name, m[ports[k].name], m[ports[k].name])
  }

  /** Known ports without repetition, as many as required and all as required, are a permutation. */
  lemma KnownAndMatching(m: map<string, int>, ports: seq<Port>, all: seq<Port>)
    requires Required(all) && Indexes(m, all) && |ports| == |all|
    requires NoneUnknown(m, ports) && AllMatch(m, ports)
    ensures multiset(ports) == multiset(all)
  {
    assert DistinctNames(ports, PortName) by {
      forall i, j | 0 <= i < j < |ports| ensures ports[i].name != ports[j].name { assert !Unknown(m, ports, j); }
    }
    forall p | p in ports ensures p in all {
      var k :| 0 <= k < |ports| && ports[k] == p;
    }
    SameLengthSubset(ports, all);
  }

  lemma {:induction false} SameLengthSubset(xs: seq<Port>, ys: seq<Port>)
    requires DistinctNames(xs, PortName) && DistinctNames(ys, PortName)
    requires |xs| == |ys| && forall x :: x in xs ==> x in ys
    ensures multiset(xs) == multiset(ys)
  {
    assert multiset(xs) <= multiset(ys) by {
      forall x ensures multiset(xs)[x] <= multiset(ys)[x] {
        OneOccurrence(xs, PortName, x);
        if x in xs { assert x in multiset(ys); }
      }
    }
    var more := multiset(ys) - multiset(xs);
    assert multiset(ys) == multiset(xs) + more;
    assert |multiset(xs)| == |xs| && |multiset(ys)| == |ys|;
  }

  lemma PermutationMatches(m: map<string, int>, ports: seq<Port>, all: seq<Port>)
    requires Required(all) && Indexes(m, all) && multiset(ports) == multiset(all)
    ensures |ports| == |all| && NoneUnknown(m, ports) && AllMatch(m, ports)
  {
    PermutedNamesDistinct(all, ports, PortName);
    forall k | 0 <= k < |ports|
      ensures ports[k].name in m && ports[k] == Port(ports[k].name, m[ports[k].name], m[ports[k].name])
    {
      MemberOf(ports, all, ports[k]);
      var i :| 0 <= i < |all| && all[i] == ports[k];
    }
    forall k | 0 <= k < |ports| ensures !Unknown(m, ports, k) {
      forall j | 0 <= j < k ensures ports[j].name != ports[k].name { assert PortName(ports[j]) != PortName(ports[k]); }
    }
    assert |multiset(ports)| == |ports| && |multiset(all)| == |all|;
  }

  method IndexPorts(all: seq<Port>) returns (m: map<string, int>)
    requires Required(all)
    ensures Indexes(m, all)
  {
    m := map[];
    for i := 0 to |all|
      invariant Indexes(m, all[..i])
    {
      assert all[..i + 1] == all[..i] + [all[i]];
      forall j | 0 <= j < i ensures all[j].name != all[i].name { assert PortName(all[j]) != PortName(all[i]); }
      m := m[all[i].name := all[i].port];
    }
    assert all[..|all|] == all;
  }

  /** The loop over a service's ports, which strikes each name it meets from the required map. */
  method StrikePorts(required: map<string, int>, ports: seq<Port>)
    returns (hasUnknown: bool, matching: bool, left: map<string, int>)
    ensures hasUnknown <==> !NoneUnknown(required, ports)
    ensures !hasUnknown ==> (matching <==> AllMatch(required, ports))
    ensures left.Keys == required.Keys - set p | p in ports :: p.name
  {
    hasUnknown, matching, left := false, true, required;
    for i := 0 to |ports|
      invariant forall n :: n in left <==> n in required && forall j :: 0 <= j < i ==> ports[j].name != n
      invariant forall n :: n in left ==> left[n] == required[n]
      invariant hasUnknown <==> exists k :: 0 <= k < i && Unknown(required, ports, k)
      invariant !hasUnknown ==> forall k :: 0 <= k < i ==> ports[k].name in required
      invariant !hasUnknown ==>
                  (matching <==> forall k :: 0 <= k < i ==>
                     ports[k].port == required[ports[k].name] && ports[k].target == required[ports[k].name])
    {
      var p := ports[i];
      assert p.name !in left <==> Unknown(required, ports, i);
      var rp := if p.name in left then left[p.name] else 0;
      if p.name !in left {
        hasUnknown := true;
      }
      if p.port != rp || p.target != rp {
        matching := false;
      }
      left := left - {p.name};
    }
    forall n ensures n in left <==> n in required && n !in set p | p in ports :: p.name {
      if n !in left && n in required {
        var j :| 0 <= j < |ports| && ports[j].name == n;
        assert ports[j] in ports;
      }
    }
    if !hasUnknown && matching {
      forall k | 0 <= k < |ports|
        ensures ports[k] == Port(ports[k].name, required[ports[k].name], required[ports[k].name])
      {}
    }
  }

  /** The port at k has a name nobody requires, or one an earlier port has. */
  ghost predicate Stray(ports: seq<Port>, k: nat, all: seq<Port>)
    requires k < |ports|
  {
    || (forall i :: 0 <= i < |all| ==> all[i].name != ports[k].name)
    || (exists j :: 0 <= j < k && ports[j].name == ports[k].name)
  }

  lemma StrayIsUnknown(m: map<string, int>, ports: seq<Port>, k: nat, all: seq<Port>)
    requires Indexes(m, all) && k < |ports|
    ensures Unknown(m, ports, k) <==> Stray(ports, k, all)
  {
    if ports[k].name in m {
      var n := ports[k].name;
      var i :| 0 <= i < |all| && all[i] == Port(n, m[n], m[n]);
    }
  }

  /**
   * checkServiceUpToDate. For the managed service it reports no unknown port and up to date
   * exactly when the role label is right and the ports are a permutation of the required ones.
   */
  method CheckServiceUpToDate(managed: string, svc: Service, all: seq<Port>)
    returns (hasUnknownPort: bool, upToDate: bool)
    requires Required(all)
    ensures svc.name != managed ==> !hasUnknownPort && upToDate
    ensures svc.name == managed ==>
              (!hasUnknownPort && upToDate <==>
                 && LabelRole in svc.labels && svc.labels[LabelRole] == "Connectivity"
                 && multiset(svc.ports) == multiset(all))
    ensures svc.name == managed ==>
              (hasUnknownPort <==> exists k :: 0 <= k < |svc.ports| && Stray(svc.ports, k, all))
  {
    hasUnknownPort, upToDate := false, true;
    if managed != svc.name {
      return;
    }
    if !HasRole(svc) {
      upToDate := false;
    }
    if |svc.ports| != |all| {
      upToDate := false;
    }
    var required := IndexPorts(all);
    var matching, left;
    hasUnknownPort, matching, left := StrikePorts(required, svc.ports);
    forall k | 0 <= k < |svc.ports| ensures Unknown(required, svc.ports, k) <==> Stray(svc.ports, k, all) {
      StrayIsUnknown(required, svc.ports, k, all);
    }
    if !matching {
      upToDate := false;
    }
    if |left| > 0 {
      upToDate := false;
    }
    if HasRole(svc) && multiset(svc.ports) == multiset(all) {
      PermutationMatches(required, svc.ports, all);
      NothingLeft(required, svc.ports, all);
      assert left.Keys == {};
    }
    if !hasUnknownPort && upToDate {
      KnownAndMatching(required, svc.ports, all);
    }
  }

  lemma NothingLeft(m: map<string, int>, ports: seq<Port>, all: seq<Port>)
    requires Indexes(m, all) && multiset(ports) == multiset(all)
    ensures m.Keys - (set p | p in ports :: p.name) == {}
  {
    forall n | n in m ensures exists p :: p in ports && p.name == n {
      var p := Port(n, m[n], m[n]);
      assert p in all;
      MemberOf(ports, all, p);
      assert p in ports && p.name == n;
    }
  }

  /** The ports collected in one order are a permutation of those collected in any other. */
  lemma BuiltPortsMatch(nodes: seq<Node>, others: seq<Node>)
    requires DistinctNames(nodes, NodeName) && multiset(nodes) == multiset(others)
    ensures Required(SortByName(Collect(others), PortName))
    ensures multiset(SortByName(Collect(nodes), PortName)) == multiset(SortByName(Collect(others), PortName))
  {
    RequiredIgnoresOrder(nodes, others);
    PermutedNamesDistinct(nodes, others, NodeName);
    CollectDistinct(others);
    var ports := SortByName(Collect(others), PortName);
    PermutedNamesDistinct(Collect(others), ports, PortName);
    forall i | 0 <= i < |ports| ensures ports[i].target == ports[i].port {
      MemberOf(ports, Collect(others), ports[i]);
      CollectHolds(others, ports[i]);
    }
  }

  /** newServiceForAllEdgeDevices. */
  method BuildService(managed: string, nodes: seq<Node>) returns (svc: Service)
    ensures svc.name == managed && HasRole(svc) && svc.ports == SortByName(Collect(nodes), PortName)
  {
    var ports := RequiredPorts(nodes);
    return Service(managed, map[LabelRole := LabelRoleValueConnectivity], ports);
  }

  /** A service built from the nodes in one order passes the check made from any other order. */
  method BuiltServicePasses(managed: string, nodes: seq<Node>, others: seq<Node>)
    returns (svc: Service, hasUnknownPort: bool, upToDate: bool)
    requires DistinctNames(nodes, NodeName) && multiset(nodes) == multiset(others)
    ensures svc.name == managed && !hasUnknownPort && upToDate
    ensures forall p :: p in svc.ports <==> p.target == p.port && Node(p.name, Some(p.port)) in nodes
  {
    svc := BuildService(managed, nodes);
    var all := RequiredPorts(others);
    BuiltPortsMatch(nodes, others);
    hasUnknownPort, upToDate := CheckServiceUpToDate(managed, svc, all);
    forall p ensures p in svc.ports <==> p.target == p.port && Node(p.name, Some(p.port)) in nodes {
      MemberOf(svc.ports, Collect(nodes), p);
      CollectHolds(nodes, p);
    }
  }
}
