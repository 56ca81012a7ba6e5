// The managed node cluster role of pkg/controller/edgedevice/node_clusterrole.go: the
// role built for all edge devices, and the check that a role is up to date.
module ClusterRole {
  import opened Prelude

  datatype Permissions = Permissions(nodeVerbs: seq<string>, statusVerbs: seq<string>)

  datatype Device = Device(name: string, permissions: map<string, Permissions>)

  datatype Rule = Rule(apiGroups: seq<string>, resources: seq<string>, verbs: seq<string>, names: seq<string>)

  datatype Role = Role(name: string, labels: map<string, string>, rules: seq<Rule>)

  const LabelRoleValueNodeClusterRole := "NodeClusterRole"
  const LabelNamespace := "arhat.dev/namespace"
  const Nodes := "nodes"
  const NodesStatus := "nodes/status"

  /**
   * What the controller sees: the roles it manages, the devices in its informer's store,
   * and the devices only the API server knows. One namespace, so names are unique.
   */
  datatype World = World(managed: map<string, Permissions>, devices: seq<Device>, remote: map<string, Device>, sysNS: string)
  {
    ghost predicate Valid()
    {
      forall i, j :: 0 <= i < j < |devices| ==> devices[i].name != devices[j].name
    }

    function Names(): (s: set<string>) { set d | d in devices :: d.name }

    function Find(name: string): (r: Option<Device>)
    {
      FindIn(devices, name, remote)
    }
  }

  /** getEdgeDeviceObject: the store first, then the API server. */
  function FindIn(devices: seq<Device>, name: string, remote: map<string, Device>): (r: Option<Device>)
  {
    if devices == [] then (if name in remote then Some(remote[name]) else None)
    else if devices[0].name == name then Some(devices[0])
    else FindIn(devices[1..], name, remote)
  }

  lemma {:induction false} FindsAt(devices: seq<Device>, k: nat, remote: map<string, Device>)
    requires k < |devices| && forall i, j :: 0 <= i < j < |devices| ==> devices[i].name != devices[j].name
    ensures FindIn(devices, devices[k].name, remote) == Some(devices[k])
  {
    if k > 0 { FindsAt(devices[1..], k - 1, remote); }
  }

  lemma FindsOwn(w: World, d: Device)
    requires w.Valid() && d in w.devices
    ensures w.Find(d.name) == Some(d)
  {
    var k :| 0 <= k < |w.devices| && w.devices[k] == d;
    FindsAt(w.devices, k, w.remote);
  }

  // ---------------------------------------------------------------- building the role

  /** The device is named in the role: it lists no permissions at all, or lists this role. */
  predicate Listed(d: Device, cr: string) { |d.permissions| == 0 || cr in d.permissions }

  /** The verbs a device asks for instead of the role's own, empty for none. */
  function OwnVerbs(d: Device, cr: string, resource: string): (verbs: seq<string>)
  {
    if cr !in d.permissions then []
    else if resource == Nodes then d.permissions[cr].nodeVerbs
    else d.permissions[cr].statusVerbs
  }

  predicate UsesDefault(d: Device, cr: string, resource: string)
  {
    Listed(d, cr) && OwnVerbs(d, cr, resource) == []
  }

  function OwnRule(d: Device, cr: string, resource: string): (rs: seq<Rule>)
  {
    if OwnVerbs(d, cr, resource) == [] then []
    else [Rule([""], [resource], OwnVerbs(d, cr, resource), [d.name])]
  }

  function OwnRules(ds: seq<Device>, cr: string): (rs: seq<Rule>)
  {
    if ds == [] then []
    else
      var d := ds[|ds| - 1];
      OwnRules(ds[..|ds| - 1], cr) + OwnRule(d, cr, Nodes) + OwnRule(d, cr, NodesStatus)
  }

  function DefaultNames(ds: seq<Device>, cr: string, resource: string): (ns: seq<string>)
  {
    if ds == [] then []
    else
      DefaultNames(ds[..|ds| - 1], cr, resource) +
      if UsesDefault(ds[|ds| - 1], cr, resource) then [ds[|ds| - 1].name] else []
  }

  function DefaultRule(ns: seq<string>, resource: string, verbs: seq<string>): (rs: seq<Rule>)
  {
    if ns == [] then [] else [Rule([""], [resource], verbs, ns)]
  }

  function Build(w: World, cr: string, spec: Permissions): (r: Role)
  {
    Role(cr, map[LabelRole := LabelRoleValueNodeClusterRole, LabelNamespace := w.sysNS],
         OwnRules(w.devices, cr) +
         DefaultRule(DefaultNames(w.devices, cr, Nodes), Nodes, spec.nodeVerbs) +
         DefaultRule(DefaultNames(w.devices, cr, NodesStatus), NodesStatus, spec.statusVerbs))
  }

  /** One round of the loop over the devices. */
  method AddDevice(d: Device, cr: string, policies: seq<Rule>, nodeDefault: seq<string>, statusDefault: seq<string>)
    returns (policies': seq<Rule>, nodeDefault': seq<string>, statusDefault': seq<string>)
    ensures policies' == policies + OwnRule(d, cr, Nodes) + OwnRule(d, cr, NodesStatus)
    ensures nodeDefault' == nodeDefault + if UsesDefault(d, cr, Nodes) then [d.name] else []
    ensures statusDefault' == statusDefault + if UsesDefault(d, cr, NodesStatus) then [d.name] else []
  {
    policies', nodeDefault', statusDefault' := policies, nodeDefault, statusDefault;
    if |d.permissions| == 0 {
      nodeDefault' := nodeDefault' + [d.name];
      statusDefault' := statusDefault' + [d.name];
    } else if cr in d.permissions {
      var p := d.permissions[cr];
      if |p.nodeVerbs| != 0 {
        policies' := policies' + [Rule([""], [Nodes], p.nodeVerbs, [d.name])];
      } else {
        nodeDefault' := nodeDefault' + [d.name];
      }
      if |p.statusVerbs| != 0 {
        policies' := policies' + [Rule([""], [NodesStatus], p.statusVerbs, [d.name])];
      } else {
        statusDefault' := statusDefault' + [d.name];
      }
    }
  }

  /** newNodeClusterRoleForAllEdgeDevices. */
  method NewNodeClusterRole(w: World, cr: string, spec: Permissions) returns (r: Role)
    ensures r == Build(w, cr, spec)
  {
    var policies: seq<Rule>, nodeDefault: seq<string>, statusDefault: seq<string> := [], [], [];
    for i := 0 to |w.devices|
      invariant policies == OwnRules(w.devices[..i], cr)
      invariant nodeDefault == DefaultNames(w.devices[..i], cr, Nodes)
      invariant statusDefault == DefaultNames(w.devices[..i], cr, NodesStatus)
    {
      assert w.devices[..i + 1][..i] == w.devices[..i] && w.devices[..i + 1][i] == w.devices[i];
      policies, nodeDefault, statusDefault := AddDevice(w.devices[i], cr, policies, nodeDefault, statusDefault);
    }
    assert w.devices[..|w.devices|] == w.devices;
    if |nodeDefault| != 0 {
      policies := policies + [Rule([""], [Nodes], spec.nodeVerbs, nodeDefault)];
    }
    if |statusDefault| != 0 {
      policies := policies + [Rule([""], [NodesStatus], spec.statusVerbs, statusDefault)];
    }
    r := Role(cr, map[LabelRole := LabelRoleValueNodeClusterRole, LabelNamespace := w.sysNS], policies);
  }

  // ---------------------------------------------------------------- checking a role

  predicate Includes(actual: seq<string>, expected: seq<string>) { forall v :: v in expected ==> v in actual }

  /** The verbs a rule has to include: a rule that names one device honours its overrides. */
  function Required(w: World, cr: string, spec: Permissions, rule: Rule): (verbs: Option<seq<string>>)
    requires |rule.resources| == 1
  {
    var resource := rule.resources[0];
    if resource != Nodes && resource != NodesStatus then None
    else
      var default := if resource == Nodes then spec.nodeVerbs else spec.statusVerbs;
      if |rule.names| != 1 then Some(default)
      else
        var d := w.Find(rule.names[0]);
        if d.None? then None
        else Some(if OwnVerbs(d.value, cr, resource) == [] then default else OwnVerbs(d.value, cr, resource))
  }

  predicate RuleOk(w: World, cr: string, spec: Permissions, rule: Rule)
  {
    && rule.names != [] && rule.apiGroups == [""] && |rule.resources| == 1
    && var verbs := Required(w, cr, spec, rule); verbs.Some? && Includes(rule.verbs, verbs.value)
  }

  function NamesIn(rules: seq<Rule>): (s: set<string>)
  {
    set r, n | r in rules && n in r.names :: n
  }

  /** A label of the role; looking up a missing one gives the empty string. */
  function Label(role: Role, key: string): (v: string)
  {
    if key in role.labels then role.labels[key] else ""
  }

  /** A managed role is up to date when it is labelled, its rules are, and it names every device and no other. */
  ghost predicate UpToDate(w: World, role: Role)
  {
    role.name in w.managed ==>
      && Label(role, LabelRole) == LabelRoleValueNodeClusterRole
      && Label(role, LabelNamespace) == w.sysNS
      && (forall r :: r in role.rules ==> RuleOk(w, role.name, w.managed[role.name], r))
      && NamesIn(role.rules) == w.Names()
  }

  method ContainsAll(actual: seq<string>, expected: seq<string>) returns (r: bool)
    ensures r <==> Includes(actual, expected)
  {
    var wanted: set<string> := {};
    for i := 0 to |expected|
      invariant forall v :: v in wanted <==> v in expected[..i]
    {
      wanted := wanted + {expected[i]};
    }
    assert expected[..|expected|] == expected;
    for i := 0 to |actual|
      invariant forall v :: v in wanted <==> v in expected && v !in actual[..i]
    {
      wanted := wanted - {actual[i]};
    }
    assert actual[..|actual|] == actual;
    r := |wanted| == 0;
    if !r {
      var v :| v in wanted;
    }
  }

  method CheckRule(w: World, cr: string, spec: Permissions, p: Rule) returns (ok: bool)
    ensures ok <==> RuleOk(w, cr, spec, p)
  {
    if |p.names| == 0 {
      return false;
    }
    if |p.apiGroups| != 1 || p.apiGroups[0] != "" || |p.resources| != 1 {
      return false;
    }
    var nodeVerbs, statusVerbs := spec.nodeVerbs, spec.statusVerbs;
    if |p.names| == 1 {
      var d := w.Find(p.names[0]);
      if d.None? {
        return false;
      }
      if |d.value.permissions| != 0 && cr in d.value.permissions {
        var own := d.value.permissions[cr];
        if |own.nodeVerbs| != 0 {
          nodeVerbs := own.nodeVerbs;
        }
        if |own.statusVerbs| != 0 {
          statusVerbs := own.statusVerbs;
        }
      }
    }
    if p.resources[0] == Nodes {
      ok := ContainsAll(p.verbs, nodeVerbs);
    } else if p.resources[0] == NodesStatus {
      ok := ContainsAll(p.verbs, statusVerbs);
    } else {
      return false;
    }
  }

  lemma FirstNameApart(ds: seq<Device>, d: Device)
    requires ds != [] && d in ds[1..] && forall i, j :: 0 <= i < j < |ds| ==> ds[i].name != ds[j].name
    ensures d.name != ds[0].name
  {
    var i :| 0 <= i < |ds[1..]| && ds[1..][i] == d;
    assert ds[i + 1] == d;
  }

  lemma {:induction false} NameCount(ds: seq<Device>)
    requires forall i, j :: 0 <= i < j < |ds| ==> ds[i].name != ds[j].name
    ensures |set d | d in ds :: d.name| == |ds|
  {
    var all := set d | d in ds :: d.name;
    if ds != [] {
      var rest := ds[1..];
      NameCount(rest);
      var others := set d | d in rest :: d.name;
      forall d | d in rest ensures d.name != ds[0].name { FirstNameApart(ds, d); }
      assert ds == [ds[0]] + rest;
      assert all == others + {ds[0].name};
    }
  }

  lemma SameSizeSubset(a: set<string>, b: set<string>)
    requires a <= b && |a| == |b|
    ensures a == b
  {
    var more := b - a;
    assert b == a + more && |b| == |a| + |more|;
  }

  /** The loop over the rules, which stops at the first bad one and collects the names. */
  method CheckRules(w: World, cr: string, spec: Permissions, rules: seq<Rule>) returns (ok: bool, nodeNames: set<string>)
    ensures ok <==> forall r :: r in rules ==> RuleOk(w, cr, spec, r)
    ensures ok ==> nodeNames == NamesIn(rules)
  {
    nodeNames := {};
    for i := 0 to |rules|
      invariant forall r :: r in rules[..i] ==> RuleOk(w, cr, spec, r)
      invariant nodeNames == NamesIn(rules[..i])
    {
      var p := rules[i];
      var good := CheckRule(w, cr, spec, p);
      if !good {
        assert p in rules;
        return false, nodeNames;
      }
      nodeNames := nodeNames + set n | n in p.names;
      assert rules[..i + 1] == rules[..i] + [p];
    }
    assert rules[..|rules|] == rules;
    return true, nodeNames;
  }

  /** Counting the names and then striking out the devices decides that they are exactly the devices. */
  method CheckNames(w: World, nodeNames: set<string>) returns (ok: bool)
    requires w.Valid()
    ensures ok <==> nodeNames == w.Names()
  {
    NameCount(w.devices);
    if |w.devices| != |nodeNames| {
      return false;
    }
    var left := nodeNames;
    for i := 0 to |w.devices|
      invariant forall n :: n in left <==> n in nodeNames && forall j :: 0 <= j < i ==> w.devices[j].name != n
    {
      left := left - {w.devices[i].name};
    }
    ok := |left| == 0;
    if ok {
      forall n | n in nodeNames ensures n in w.Names() {
        assert n !in left;
      }
      SameSizeSubset(nodeNames, w.Names());
    } else {
      var n :| n in left;
      assert n !in w.Names();
    }
  }

  /** checkNodeClusterRoleUpToDate. */
  method CheckUpToDate(w: World, role: Role) returns (ok: bool)
    requires w.Valid()
    ensures ok <==> UpToDate(w, role)
  {
    if role.name !in w.managed {
      return true;
    }
    var spec := w.managed[role.name];
    if |role.labels| == 0 || Label(role, LabelRole) != LabelRoleValueNodeClusterRole {
      assert |role.labels| == 0 ==> LabelRole !in role.labels;
      return false;
    }
    if Label(role, LabelNamespace) != w.sysNS {
      return false;
    }
    var good, nodeNames := CheckRules(w, role.name, spec, role.rules);
    if !good {
      return false;
    }
    ok := CheckNames(w, nodeNames);
  }

  // ---------------------------------------------------------------- build against check

  lemma {:induction false} DefaultNamesAre(ds: seq<Device>, cr: string, resource: string, n: string)
    ensures n in DefaultNames(ds, cr, resource) <==> exists d :: d in ds && UsesDefault(d, cr, resource) && d.name == n
  {
    if ds != [] {
      DefaultNamesAre(ds[..|ds| - 1], cr, resource, n);
      assert ds == ds[..|ds| - 1] + [ds[|ds| - 1]];
    }
  }

  lemma {:induction false} OwnRulesAre(ds: seq<Device>, cr: string, r: Rule)
    ensures r in OwnRules(ds, cr) <==>
            exists d :: d in ds && (r in OwnRule(d, cr, Nodes) || r in OwnRule(d, cr, NodesStatus))
  {
    if ds != [] {
      OwnRulesAre(ds[..|ds| - 1], cr, r);
      assert ds == ds[..|ds| - 1] + [ds[|ds| - 1]];
    }
  }

  lemma OwnRuleOk(w: World, cr: string, spec: Permissions, d: Device, resource: string, r: Rule)
    requires w.Valid() && d in w.devices && (resource == Nodes || resource == NodesStatus)
    requires r in OwnRule(d, cr, resource)
    ensures RuleOk(w, cr, spec, r)
  {
    FindsOwn(w, d);
  }

  lemma DefaultRuleOk(w: World, cr: string, spec: Permissions, resource: string, r: Rule)
    requires w.Valid() && (resource == Nodes || resource == NodesStatus)
    requires r in DefaultRule(DefaultNames(w.devices, cr, resource), resource,
                              if resource == Nodes then spec.nodeVerbs else spec.statusVerbs)
    ensures RuleOk(w, cr, spec, r)
  {
    if |r.names| == 1 {
      DefaultNamesAre(w.devices, cr, resource, r.names[0]);
      var d :| d in w.devices && UsesDefault(d, cr, resource) && d.name == r.names[0];
      FindsOwn(w, d);
    }
  }

  lemma BuiltRulesOk(w: World, cr: string, spec: Permissions, r: Rule)
    requires w.Valid() && r in Build(w, cr, spec).rules
    ensures RuleOk(w, cr, spec, r)
  {
    OwnRulesAre(w.devices, cr, r);
    if r in OwnRules(w.devices, cr) {
      var d :| d in w.devices && (r in OwnRule(d, cr, Nodes) || r in OwnRule(d, cr, NodesStatus));
      OwnRuleOk(w, cr, spec, d, if r in OwnRule(d, cr, Nodes) then Nodes else NodesStatus, r);
    } else if r in DefaultRule(DefaultNames(w.devices, cr, Nodes), Nodes, spec.nodeVerbs) {
      DefaultRuleOk(w, cr, spec, Nodes, r);
    } else {
      DefaultRuleOk(w, cr, spec, NodesStatus, r);
    }
  }

  /** The built role names exactly the listed devices. */
  lemma BuiltNames(w: World, cr: string, spec: Permissions, n: string)
    ensures n in NamesIn(Build(w, cr, spec).rules) <==> exists d :: d in w.devices && Listed(d, cr) && d.name == n
  {
    var rules := Build(w, cr, spec).rules;
    DefaultNamesAre(w.devices, cr, Nodes, n);
    DefaultNamesAre(w.devices, cr, NodesStatus, n);
    if r :| r in rules && n in r.names {
      OwnRulesAre(w.devices, cr, r);
    }
    if d :| d in w.devices && Listed(d, cr) && d.name == n {
      NamedInBuilt(w, cr, spec, d);
    }
  }

  lemma NamedInBuilt(w: World, cr: string, spec: Permissions, d: Device)
    requires d in w.devices && Listed(d, cr)
    ensures d.name in NamesIn(Build(w, cr, spec).rules)
  {
    var rules := Build(w, cr, spec).rules;
    if OwnVerbs(d, cr, Nodes) == [] {
      DefaultNamesAre(w.devices, cr, Nodes, d.name);
      var r := Rule([""], [Nodes], spec.nodeVerbs, DefaultNames(w.devices, cr, Nodes));
      assert r in rules && d.name in r.names;
    } else {
      var r := Rule([""], [Nodes], OwnVerbs(d, cr, Nodes), [d.name]);
      OwnRulesAre(w.devices, cr, r);
      assert r in OwnRule(d, cr, Nodes);
      assert r in rules && d.name in r.names;
    }
  }

  /**
   * The role the controller builds passes its own check exactly when every device either
   * lists no cluster role permissions or lists this role: a device that lists only other
   * roles is left out of the rules, and the check never stops asking for it.
   */
  lemma BuiltRolePassesIff(w: World, cr: string)
    requires w.Valid() && cr in w.managed
    ensures UpToDate(w, Build(w, cr, w.managed[cr])) <==> forall d :: d in w.devices ==> Listed(d, cr)
  {
    var spec := w.managed[cr];
    var role := Build(w, cr, spec);
    forall r | r in role.rules ensures RuleOk(w, cr, spec, r) { BuiltRulesOk(w, cr, spec, r); }
    forall n ensures n in NamesIn(role.rules) <==> exists d :: d in w.devices && Listed(d, cr) && d.name == n {
      BuiltNames(w, cr, spec, n);
    }
    if NamesIn(role.rules) == w.Names() {
      forall d | d in w.devices ensures Listed(d, cr) {
        assert d.name in w.Names();
        var e :| e in w.devices && Listed(e, cr) && e.name == d.name;
        var i, j :| 0 <= i < |w.devices| && w.devices[i] == d && 0 <= j < |w.devices| && w.devices[j] == e;
        assert !(i < j) && !(j < i);
      }
    }
  }

  /** One device that lists another role is enough to keep the built role out of date. */
  lemma OtherRoleNeverPasses(sysNS: string, spec: Permissions)
    ensures var w := World(map["cr" := spec], [Device("d", map["other" := spec])], map[], sysNS);
            w.Valid() && !UpToDate(w, Build(w, "cr", spec))
  {
    var d := Device("d", map["other" := spec]);
    var w := World(map["cr" := spec], [d], map[], sysNS);
    assert "other" in d.permissions && "cr" !in d.permissions;
    assert d in w.devices && !Listed(d, "cr");
    BuiltRolePassesIff(w, "cr");
  }

  // ---------------------------------------------------------------- what a role grants

  /** The verbs a device is meant to have on a resource: its own, or the role's. */
  function Wanted(d: Device, cr: string, spec: Permissions, resource: string): (verbs: seq<string>)
  {
    if resource == "nodes" then
      if cr in d.permissions && d.permissions[cr].nodeVerbs != [] then d.permissions[cr].nodeVerbs else spec.nodeVerbs
    else
      if cr in d.permissions && d.permissions[cr].statusVerbs != [] then d.permissions[cr].statusVerbs else spec.statusVerbs
  }

  /** One rule gives the device all the verbs it is meant to have on the resource. */
  predicate Grants(rule: Rule, d: Device, cr: string, spec: Permissions, resource: string)
  {
    && d.name in rule.names && rule.apiGroups == [""] && rule.resources == [resource]
    && Includes(rule.verbs, Wanted(d, cr, spec, resource))
  }

  ghost predicate Granted(rules: seq<Rule>, d: Device, cr: string, spec: Permissions, resource: string)
  {
    exists r :: r in rules && Grants(r, d, cr, spec, resource)
  }

  /** The built role gives every listed device what it is meant to have on either resource, and no other device anything. */
  lemma BuiltRoleGrantsIff(w: World, cr: string, spec: Permissions, d: Device, resource: string)
    requires w.Valid() && d in w.devices && (resource == Nodes || resource == NodesStatus)
    ensures Granted(Build(w, cr, spec).rules, d, cr, spec, resource) <==> Listed(d, cr)
  {
    var rules := Build(w, cr, spec).rules;
    if Listed(d, cr) {
      var r := if OwnVerbs(d, cr, resource) == [] then
                 Rule([""], [resource], Wanted(d, cr, spec, resource), DefaultNames(w.devices, cr, resource))
               else Rule([""], [resource], OwnVerbs(d, cr, resource), [d.name]);
      DefaultNamesAre(w.devices, cr, resource, d.name);
      OwnRulesAre(w.devices, cr, r);
      assert OwnVerbs(d, cr, resource) != [] ==> r in OwnRule(d, cr, resource);
      assert r in rules && Grants(r, d, cr, spec, resource);
    } else {
      BuiltNames(w, cr, spec, d.name);
      if e :| e in w.devices && Listed(e, cr) && e.name == d.name {
        FindsOwn(w, d);
        FindsOwn(w, e);
      }
    }
  }

  /** And no more than that: every rule of the built role that names a device has exactly the verbs it is meant to have. */
  lemma BuiltRoleGrantsOnly(w: World, cr: string, spec: Permissions, r: Rule, d: Device)
    requires w.Valid() && r in Build(w, cr, spec).rules && d in w.devices && d.name in r.names
    ensures |r.resources| == 1 && (r.resources[0] == "nodes" || r.resources[0] == "nodes/status")
    ensures r.apiGroups == [""] && r.verbs == Wanted(d, cr, spec, r.resources[0])
  {
    OwnRulesAre(w.devices, cr, r);
    FindsOwn(w, d);
    if r in OwnRules(w.devices, cr) {
      var e :| e in w.devices && (r in OwnRule(e, cr, Nodes) || r in OwnRule(e, cr, NodesStatus));
      FindsOwn(w, e);
    } else {
      var resource := r.resources[0];
      DefaultNamesAre(w.devices, cr, resource, d.name);
      var e :| e in w.devices && UsesDefault(e, cr, resource) && e.name == d.name;
      FindsOwn(w, e);
    }
  }

  /** A managed role that passes is labelled, and its rules name every device and nothing else. */
  lemma PassingRoleNames(w: World, role: Role, n: string)
    requires role.name in w.managed && UpToDate(w, role)
    ensures LabelRole in role.labels && role.labels[LabelRole] == "NodeClusterRole"
    ensures w.sysNS != "" ==> "arhat.dev/namespace" in role.labels && role.labels["arhat.dev/namespace"] == w.sysNS
    ensures (exists d :: d in w.devices && d.name == n) <==> exists r :: r in role.rules && n in r.names
  {
    assert n in NamesIn(role.rules) <==> n in w.Names();
  }

  /** A device missing from the store is looked up at the API server. */
  lemma {:induction false} FindsRemote(devices: seq<Device>, name: string, remote: map<string, Device>)
    requires forall i :: 0 <= i < |devices| ==> devices[i].name != name
    ensures FindIn(devices, name, remote) == if name in remote then Some(remote[name]) else None
  {
    if devices != [] { FindsRemote(devices[1..], name, remote); }
  }

  /**
   * A rule that passes the check gives a device it names what that device is meant to have,
   * unless it names several and lacks verbs the device overrides. So a role that passes
   * grants a device a resource exactly when some rule for it is the device's own or has
   * the device's verbs: a role without any rule for a resource passes as well.
   */
  lemma PassingRoleGrantsIff(w: World, role: Role, d: Device, resource: string)
    requires w.Valid() && role.name in w.managed && UpToDate(w, role) && d in w.devices
    requires resource == Nodes || resource == NodesStatus
    ensures var cr, spec := role.name, w.managed[role.name];
            Granted(role.rules, d, cr, spec, resource) <==>
            exists r :: && r in role.rules && d.name in r.names && r.resources == [resource]
                        && (|r.names| == 1 || OwnVerbs(d, cr, resource) == [] || Includes(r.verbs, OwnVerbs(d, cr, resource)))
  {
    var cr, spec := role.name, w.managed[role.name];
    FindsOwn(w, d);
    if r :| && r in role.rules && d.name in r.names && r.resources == [resource]
            && (|r.names| == 1 || OwnVerbs(d, cr, resource) == [] || Includes(r.verbs, OwnVerbs(d, cr, resource))) {
      assert RuleOk(w, cr, spec, r);
      assert Grants(r, d, cr, spec, resource);
    }
    if r :| r in role.rules && Grants(r, d, cr, spec, resource) {
      assert |r.names| == 1 || OwnVerbs(d, cr, resource) == [] || Includes(r.verbs, OwnVerbs(d, cr, resource));
    }
  }

  /** A role with no rule for the status of nodes passes the check, and grants the device nothing there. */
  lemma PassesWithoutStatus(sysNS: string)
    ensures var d := Device("d", map[]);
            var spec := Permissions(["get"], ["patch"]);
            var w := World(map["cr" := spec], [d], map[], sysNS);
            var role := Role("cr", map[LabelRole := LabelRoleValueNodeClusterRole, LabelNamespace := sysNS],
                             [Rule([""], [Nodes], ["get"], ["d"])]);
            w.Valid() && UpToDate(w, role) && !Granted(role.rules, d, "cr", spec, NodesStatus)
  {
    var d := Device("d", map[]);
    var spec := Permissions(["get"], ["patch"]);
    var w := World(map["cr" := spec], [d], map[], sysNS);
    var rule := Rule([""], [Nodes], ["get"], ["d"]);
    assert w.Find("d") == Some(d);
    assert RuleOk(w, "cr", spec, rule);
    assert rule in [rule] && "d" in rule.names && d in w.devices;
    assert NamesIn([rule]) == {"d"} == w.Names();
  }
}
