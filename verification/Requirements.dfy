/** Requirements of configured modules: checking their connections, and the ordered map that hands them to a
    module. */
module Requirements {
  import opened Options
  import opened OrderedMaps
  import opened Sets

  datatype RequirementEntry = RequirementEntry(interface: string, minConnections: int, maxConnections: int)

  /** `provided` gives the interface of each implementation. */
  datatype Manifest = Manifest(provided: map<string, string>, requirements: map<string, RequirementEntry>)

  datatype Target = Target(moduleId: string, implementationId: string)

  datatype ModuleConfig = ModuleConfig(moduleName: string, connections: map<string, seq<Target>>)

  type Configs = map<string, ModuleConfig>
  type Manifests = map<string, Manifest>

  /** Loading stops the start-up when a configured module has no manifest. */
  ghost predicate AllLoaded(configs: Configs, manifests: Manifests) {
    forall m :: m in configs ==> configs[m].moduleName in manifests
  }

  // ----- which configurations are sound -----

  /** The target exists and provides the implementation with the interface asked for. */
  predicate Fulfils(configs: Configs, manifests: Manifests, t: Target, interface: string) {
    && t.moduleId in configs
    && configs[t.moduleId].moduleName in manifests
    && var provided := manifests[configs[t.moduleId].moduleName].provided;
       t.implementationId in provided && provided[t.implementationId] == interface
  }

  ghost predicate RequirementMet(configs: Configs, manifests: Manifests, c: ModuleConfig, id: string,
                                 entry: RequirementEntry)
  {
    if id !in c.connections then entry.minConnections < 1
    else
      && entry.minConnections <= |c.connections[id]| <= entry.maxConnections
      && forall t :: t in c.connections[id] ==> Fulfils(configs, manifests, t, entry.interface)
  }

  ghost predicate ModuleConnected(configs: Configs, manifests: Manifests, c: ModuleConfig)
    requires c.moduleName in manifests
  {
    var declared := manifests[c.moduleName].requirements;
    && c.connections.Keys <= declared.Keys
    && forall id :: id in declared ==> RequirementMet(configs, manifests, c, id, declared[id])
  }

  ghost predicate WellConnected(configs: Configs, manifests: Manifests)
    requires AllLoaded(configs, manifests)
  {
    forall m :: m in configs ==> ModuleConnected(configs, manifests, configs[m])
  }

  // ----- the check -----

  datatype Problem = UnknownRequirement | NotListed | WrongCount | ModuleNotLoaded | NotProvided | WrongInterface

  /** Which complaint a single connection deserves. */
  ghost predicate TargetProblem(configs: Configs, manifests: Manifests, t: Target, interface: string, p: Problem) {
    match p
    case ModuleNotLoaded => t.moduleId !in configs
    case NotProvided =>
      && t.moduleId in configs && configs[t.moduleId].moduleName in manifests
      && t.implementationId !in manifests[configs[t.moduleId].moduleName].provided
    case WrongInterface =>
      && t.moduleId in configs && configs[t.moduleId].moduleName in manifests
      && var provided := manifests[configs[t.moduleId].moduleName].provided;
         t.implementationId in provided && provided[t.implementationId] != interface
    case _ => false
  }

  ghost predicate RequirementProblem(configs: Configs, manifests: Manifests, c: ModuleConfig, id: string,
                                     entry: RequirementEntry, p: Problem)
  {
    match p
    case UnknownRequirement => false
    case NotListed => id !in c.connections && entry.minConnections >= 1
    case WrongCount =>
      id in c.connections && !(entry.minConnections <= |c.connections[id]| <= entry.maxConnections)
    case _ =>
      && id in c.connections
      && exists t :: t in c.connections[id] && TargetProblem(configs, manifests, t, entry.interface, p)
  }

  ghost predicate ModuleProblem(configs: Configs, manifests: Manifests, c: ModuleConfig, p: Problem)
    requires c.moduleName in manifests
  {
    var declared := manifests[c.moduleName].requirements;
    if p == UnknownRequirement then exists id :: id in c.connections && id !in declared
    else exists id :: id in declared && RequirementProblem(configs, manifests, c, id, declared[id], p)
  }

  method CheckTargets(configs: Configs, manifests: Manifests, targets: seq<Target>, interface: string)
    returns (problem: Option<Problem>)
    requires AllLoaded(configs, manifests)
    ensures problem == None <==> forall t :: t in targets ==> Fulfils(configs, manifests, t, interface)
    ensures problem.Some? ==>
              exists t :: t in targets && TargetProblem(configs, manifests, t, interface, problem.value)
  {
    for i := 0 to |targets|
      invariant forall t :: t in targets[..i] ==> Fulfils(configs, manifests, t, interface)
    {
      var t := targets[i];
      assert t in targets;
      if t.moduleId !in configs {
        assert TargetProblem(configs, manifests, t, interface, ModuleNotLoaded);
        return Some(ModuleNotLoaded);
      }
      var provided := manifests[configs[t.moduleId].moduleName].provided;
      if t.implementationId !in provided {
        assert TargetProblem(configs, manifests, t, interface, NotProvided);
        return Some(NotProvided);
      }
      if interface != provided[t.implementationId] {
        assert TargetProblem(configs, manifests, t, interface, WrongInterface);
        return Some(WrongInterface);
      }
    }
    assert targets[..|targets|] == targets;
    return None;
  }

  method CheckModule(configs: Configs, manifests: Manifests, c: ModuleConfig) returns (problem: Option<Problem>)
    requires AllLoaded(configs, manifests) && c.moduleName in manifests
    ensures problem == None <==> ModuleConnected(configs, manifests, c)
    ensures problem.Some? ==> ModuleProblem(configs, manifests, c, problem.value)
  {
    var declared := manifests[c.moduleName].requirements;
    if c.connections.Keys - declared.Keys != {} {
      var id :| id in c.connections.Keys - declared.Keys;
      return Some(UnknownRequirement);
    }
    EmptyDifference(c.connections.Keys, declared.Keys);
    problem := CheckDeclared(configs, manifests, c, declared, SortedKeys(declared));
  }

  /** The loop over the declared requirements, in the order of their ids. */
  method CheckDeclared(configs: Configs, manifests: Manifests, c: ModuleConfig, declared: map<string, RequirementEntry>,
                       ids: seq<string>)
    returns (problem: Option<Problem>)
    requires AllLoaded(configs, manifests)
    requires forall id :: id in ids ==> id in declared
    ensures problem == None <==> forall id :: id in ids ==> RequirementMet(configs, manifests, c, id, declared[id])
    ensures problem.Some? ==> problem.value != UnknownRequirement
    ensures problem.Some? ==>
              exists id :: id in ids && RequirementProblem(configs, manifests, c, id, declared[id], problem.value)
  {
    hide RequirementMet, RequirementProblem;
    for i := 0 to |ids|
      invariant forall k :: 0 <= k < i ==> RequirementMet(configs, manifests, c, ids[k], declared[ids[k]])
    {
      assert ids[i] in ids;
      problem := CheckRequirement(configs, manifests, c, ids[i], declared[ids[i]]);
      if problem.Some? {
        return;
      }
    }
    return None;
  }

  method CheckRequirement(configs: Configs, manifests: Manifests, c: ModuleConfig, id: string,
                          entry: RequirementEntry) returns (problem: Option<Problem>)
    requires AllLoaded(configs, manifests)
    ensures problem == None <==> RequirementMet(configs, manifests, c, id, entry)
    ensures problem.Some? ==> problem.value != UnknownRequirement
    ensures problem.Some? ==> RequirementProblem(configs, manifests, c, id, entry, problem.value)
  {
    if id !in c.connections {
      return if entry.minConnections < 1 then None else Some(NotListed);
    }
    var fulfillments := c.connections[id];
    if |fulfillments| < entry.minConnections || |fulfillments| > entry.maxConnections {
      return Some(WrongCount);
    }
    problem := CheckTargets(configs, manifests, fulfillments, entry.interface);
  }

  /** The check passes exactly the well-connected configurations, and what it reports otherwise is a true
      problem of the module it names. */
  method ResolveAllRequirements(configs: Configs, manifests: Manifests)
    returns (problem: Option<Problem>, culprit: string)
    requires AllLoaded(configs, manifests)
    ensures problem == None <==> WellConnected(configs, manifests)
    ensures problem.Some? ==>
              culprit in configs && ModuleProblem(configs, manifests, configs[culprit], problem.value)
  {
    hide ModuleConnected, ModuleProblem;
    var modules := SortedKeys(configs);
    culprit := "";
    for i := 0 to |modules|
      invariant forall m :: m in modules[..i] ==> ModuleConnected(configs, manifests, configs[m])
    {
      culprit := modules[i];
      problem := CheckModule(configs, manifests, configs[culprit]);
      if problem.Some? {
        return;
      }
    }
    assert modules[..|modules|] == modules;
    return None, "";
  }

  // ----- the ordered map of requirements -----

  datatype Requirement = Requirement(id: string, index: nat)

  predicate RequirementLess(a: Requirement, b: Requirement) {
    if StringLess(a.id, b.id) then true
    else if a.id == b.id then a.index < b.index
    else false
  }

  /** Without this a map keyed by requirements could merge or lose entries. */
  lemma RequirementLessIsTotalOrder()
    ensures StrictTotalOrder(RequirementLess)
  {
    StringLessIsTotalOrder();
    forall a, b, c | Chain(RequirementLess, a, b, c) ensures RequirementLess(a, c) {
      if StringLess(a.id, b.id) && StringLess(b.id, c.id) { assert Chain(StringLess, a.id, b.id, c.id); }
    }
  }

  datatype Fulfillment = Fulfillment(target: Target, requirement: Requirement)

  /** An absent list of connections reads as empty. */
  function ConnectionsOf(c: ModuleConfig, id: string): seq<Target> {
    if id in c.connections then c.connections[id] else []
  }

  /** The map entries of some requirement ids: one for each connection, under its position. */
  ghost predicate ResolvedFor(c: ModuleConfig, ids: seq<string>, r: map<Requirement, Fulfillment>) {
    && (forall q :: q in r <==> q.id in ids && q.index < |ConnectionsOf(c, q.id)|)
    && (forall q :: q in r ==> r[q] == Fulfillment(ConnectionsOf(c, q.id)[q.index], q))
  }

  /** Some ids done and the first connections of one more. */
  ghost predicate ResolvedPartly(c: ModuleConfig, ids: seq<string>, id: string, index: nat,
                                 r: map<Requirement, Fulfillment>)
  {
    && index <= |ConnectionsOf(c, id)|
    && (forall q :: q in r <==>
          (q.id in ids && q.index < |ConnectionsOf(c, q.id)|) || (q.id == id && q.index < index))
    && (forall q :: q in r ==> r[q] == Fulfillment(ConnectionsOf(c, q.id)[q.index], q))
  }

  lemma ResolvedOneMore(c: ModuleConfig, ids: seq<string>, id: string, index: nat, r: map<Requirement, Fulfillment>)
    requires ResolvedPartly(c, ids, id, index, r) && index < |ConnectionsOf(c, id)|
    ensures var q := Requirement(id, index);
            ResolvedPartly(c, ids, id, index + 1, r[q := Fulfillment(ConnectionsOf(c, id)[index], q)])
  {
  }

  lemma ResolvedWhole(c: ModuleConfig, ids: seq<string>, i: nat, r: map<Requirement, Fulfillment>)
    requires i < |ids|
    requires ResolvedPartly(c, ids[..i], ids[i], |ConnectionsOf(c, ids[i])|, r)
    ensures ResolvedFor(c, ids[..i + 1], r)
  {
    assert forall j :: j in ids[..i + 1] <==> j in ids[..i] || j == ids[i];
  }

  method ResolveRequirements(c: ModuleConfig, m: Manifest) returns (r: map<Requirement, Fulfillment>)
    ensures ResolvedFor(c, SortedKeys(m.requirements), r)
  {
    r := map[];
    var ids := SortedKeys(m.requirements);
    for i := 0 to |ids|
      invariant ResolvedFor(c, ids[..i], r)
    {
      var resolved := ConnectionsOf(c, ids[i]);
      for index := 0 to |resolved|
        invariant ResolvedPartly(c, ids[..i], ids[i], index, r)
      {
        ResolvedOneMore(c, ids[..i], ids[i], index, r);
        var req := Requirement(ids[i], index);
        r := r[req := Fulfillment(resolved[index], req)];
      }
      ResolvedWhole(c, ids, i, r);
    }
    assert ids[..|ids|] == ids;
  }

  /** The fulfillments of one requirement, as declared. */
  function Listed(c: ModuleConfig, id: string): seq<Fulfillment> {
    seq(|ConnectionsOf(c, id)|, i requires 0 <= i < |ConnectionsOf(c, id)| =>
      Fulfillment(ConnectionsOf(c, id)[i], Requirement(id, i)))
  }

  /** A requirement that is not connected has none; otherwise they are its connections in order, numbered from zero. */
  lemma ListedInOrder(c: ModuleConfig, id: string)
    ensures id !in c.connections ==> Listed(c, id) == []
    ensures id in c.connections ==>
              && |Listed(c, id)| == |c.connections[id]|
              && forall k :: 0 <= k < |c.connections[id]| ==>
                   Listed(c, id)[k] == Fulfillment(c.connections[id][k], Requirement(id, k))
  {
  }

  function At(m: map<string, seq<Fulfillment>>, id: string): seq<Fulfillment> {
    if id in m then m[id] else []
  }

  function Seen(keys: seq<Requirement>, j: nat): set<Requirement>
    requires j <= |keys|
  {
    set k | 0 <= k < j :: keys[k]
  }

  lemma SeenOneMore(keys: seq<Requirement>, j: nat)
    requires j < |keys|
    ensures Seen(keys, j + 1) == Seen(keys, j) + {keys[j]}
  {
  }

  lemma SeenAll(keys: seq<Requirement>, r: map<Requirement, Fulfillment>)
    requires forall q :: q in keys <==> q in r
    ensures Seen(keys, |keys|) == r.Keys
  {
    forall q | q in r ensures q in Seen(keys, |keys|) {
      var k :| 0 <= k < |keys| && keys[k] == q;
    }
  }

  lemma NotSmallerFrom(keys: seq<Requirement>, j: nat, k: nat)
    requires Increasing(RequirementLess, keys) && j <= k < |keys|
    ensures !RequirementLess(keys[k], keys[j])
  {
    RequirementLessIsTotalOrder();
    assert k == j || RequirementLess(keys[j], keys[k]);
  }

  /** The keys before a key are the smaller ones. */
  lemma SeenAreTheSmaller(keys: seq<Requirement>, j: nat, q: Requirement)
    requires Increasing(RequirementLess, keys) && j < |keys|
    ensures q in Seen(keys, j) <==> q in keys && RequirementLess(q, keys[j])
  {
    if q in keys && RequirementLess(q, keys[j]) {
      var k :| 0 <= k < |keys| && keys[k] == q;
      if k >= j { NotSmallerFrom(keys, j, k); }
    }
  }

  /** The keys seen so far are spread over the groups, each group holding the indices from 0. */
  ghost predicate Grouped(r: map<Requirement, Fulfillment>, seen: set<Requirement>,
                          res: map<string, seq<Fulfillment>>)
  {
    && (forall id :: id in res ==> res[id] != [])
    && (forall q :: q in seen <==> q.index < |At(res, q.id)|)
    && (forall q :: q in seen ==> q in r && At(res, q.id)[q.index] == r[q])
  }

  lemma NextInGroup(r: map<Requirement, Fulfillment>, keys: seq<Requirement>, j: nat,
                    res: map<string, seq<Fulfillment>>)
    requires j < |keys| && Increasing(RequirementLess, keys)
    requires forall i: nat | i < keys[j].index :: Requirement(keys[j].id, i) in keys
    requires Grouped(r, Seen(keys, j), res)
    ensures |At(res, keys[j].id)| == keys[j].index
  {
    RequirementLessIsTotalOrder();
    StringLessIsTotalOrder();
    var id, n, index := keys[j].id, |At(res, keys[j].id)|, keys[j].index;
    SeenAreTheSmaller(keys, j, Requirement(id, index));
    SeenAreTheSmaller(keys, j, Requirement(id, n));
    assert Requirement(id, n) in Seen(keys, j) <==> n < |At(res, id)|;
    assert Requirement(id, index) in Seen(keys, j) <==> index < n;
  }

  lemma GroupOneMore(r: map<Requirement, Fulfillment>, seen: set<Requirement>, q: Requirement,
                     res: map<string, seq<Fulfillment>>)
    requires q in r && Grouped(r, seen, res) && |At(res, q.id)| == q.index
    ensures Grouped(r, seen + {q}, res[q.id := At(res, q.id) + [r[q]]])
  {
    var next := res[q.id := At(res, q.id) + [r[q]]];
    forall p ensures p in seen + {q} <==> p.index < |At(next, p.id)| {
      if p.id != q.id { assert At(next, p.id) == At(res, p.id); }
    }
    forall p | p in seen + {q} ensures p in r && At(next, p.id)[p.index] == r[p] {
      if p.id != q.id { assert At(next, p.id) == At(res, p.id); }
    }
  }

  lemma GroupStep(c: ModuleConfig, ids: seq<string>, r: map<Requirement, Fulfillment>, keys: seq<Requirement>, j: nat,
                  res: map<string, seq<Fulfillment>>)
    requires ResolvedFor(c, ids, r)
    requires j < |keys| && Increasing(RequirementLess, keys)
    requires forall q :: q in keys <==> q in r
    requires Grouped(r, Seen(keys, j), res)
    ensures keys[j] in r
    ensures Grouped(r, Seen(keys, j + 1), res[keys[j].id := At(res, keys[j].id) + [r[keys[j]]]])
  {
    assert keys[j] in keys;
    NextInGroup(r, keys, j, res);
    GroupOneMore(r, Seen(keys, j), keys[j], res);
    SeenOneMore(keys, j);
  }

  function OrderedRequirements(r: map<Requirement, Fulfillment>): (keys: seq<Requirement>)
    ensures Increasing(RequirementLess, keys)
    ensures forall q :: q in keys <==> q in r
  {
    RequirementLessIsTotalOrder();
    InOrder(RequirementLess, r.Keys)
  }

  /** Regrouping the ordered map gives every declared requirement its connections back, all of them, in their
      configured order and numbered from 0; requirements without connections are left out. */
  method GetFulfillments(c: ModuleConfig, m: Manifest) returns (res: map<string, seq<Fulfillment>>)
    ensures forall id :: id in res <==> id in m.requirements && ConnectionsOf(c, id) != []
    ensures forall id :: id in res ==> res[id] == Listed(c, id)
  {
    var r := ResolveRequirements(c, m);
    var keys := OrderedRequirements(r);
    res := map[];
    for j := 0 to |keys|
      invariant Grouped(r, Seen(keys, j), res)
    {
      GroupStep(c, SortedKeys(m.requirements), r, keys, j, res);
      res := res[keys[j].id := At(res, keys[j].id) + [r[keys[j]]]];
    }
    SeenAll(keys, r);
    GroupsAreComplete(c, m, r, res);
  }

  lemma GroupsAreComplete(c: ModuleConfig, m: Manifest, r: map<Requirement, Fulfillment>,
                          res: map<string, seq<Fulfillment>>)
    requires ResolvedFor(c, SortedKeys(m.requirements), r)
    requires Grouped(r, r.Keys, res)
    ensures forall id :: id in res <==> id in m.requirements && ConnectionsOf(c, id) != []
    ensures forall id :: id in res ==> res[id] == Listed(c, id)
  {
    forall id | id in res ensures res[id] == Listed(c, id) {
      GroupIsComplete(c, SortedKeys(m.requirements), r, res, id);
    }
    forall id ensures id in res <==> id in m.requirements && ConnectionsOf(c, id) != [] {
      assert Requirement(id, 0) in r.Keys <==> 0 < |At(res, id)|;
    }
  }

  lemma GroupIsComplete(c: ModuleConfig, ids: seq<string>, r: map<Requirement, Fulfillment>,
                        res: map<string, seq<Fulfillment>>, id: string)
    requires ResolvedFor(c, ids, r)
    requires Grouped(r, r.Keys, res)
    requires id in res
    ensures res[id] == Listed(c, id)
  {
    GroupHasTheLength(c, ids, r, res, id);
    forall i | 0 <= i < |res[id]| ensures res[id][i] == Listed(c, id)[i] { assert Requirement(id, i) in r.Keys; }
  }

  lemma GroupHasTheLength(c: ModuleConfig, ids: seq<string>, r: map<Requirement, Fulfillment>,
                          res: map<string, seq<Fulfillment>>, id: string)
    requires ResolvedFor(c, ids, r)
    requires Grouped(r, r.Keys, res)
    requires id in res
    ensures |res[id]| == |ConnectionsOf(c, id)|
  {
    var n := |At(res, id)|;
    assert Requirement(id, n) !in r.Keys;
    assert Requirement(id, n - 1) in r.Keys;
  }

  // ----- what the check and the map mean for a module -----

  /** Sound for a requirement of a module: it is connected at least and at most as often as its manifest says, where a
      requirement that is not listed counts as connected never and only the minimum applies; and every connection leads
      to an existing module that provides the implementation with the required interface. */
  ghost predicate SoundFor(configs: Configs, manifests: Manifests, m: string, id: string)
    requires AllLoaded(configs, manifests) && m in configs && id in manifests[configs[m].moduleName].requirements
  {
    var entry, targets := manifests[configs[m].moduleName].requirements[id], ConnectionsOf(configs[m], id);
    && |targets| >= entry.minConnections
    && (id in configs[m].connections ==> |targets| <= entry.maxConnections)
    && forall k :: 0 <= k < |targets| ==>
         && targets[k].moduleId in configs
         && var provided := manifests[configs[targets[k].moduleId].moduleName].provided;
            targets[k].implementationId in provided && provided[targets[k].implementationId] == entry.interface
  }

  /** The configuration passes exactly when modules connect declared requirements only, each soundly. */
  lemma WellConnectedIffSound(configs: Configs, manifests: Manifests)
    requires AllLoaded(configs, manifests)
    ensures WellConnected(configs, manifests) <==>
            forall m :: m in configs ==>
              && (forall id :: id in configs[m].connections ==> id in manifests[configs[m].moduleName].requirements)
              && (forall id :: id in manifests[configs[m].moduleName].requirements ==>
                    SoundFor(configs, manifests, m, id))
  {
    hide SoundFor, RequirementMet;
    forall m, id | m in configs && id in manifests[configs[m].moduleName].requirements
      ensures SoundFor(configs, manifests, m, id)
         <==> RequirementMet(configs, manifests, configs[m], id, manifests[configs[m].moduleName].requirements[id])
    {
      SoundIffMet(configs, manifests, m, id);
    }
  }

  lemma SoundIffMet(configs: Configs, manifests: Manifests, m: string, id: string)
    requires AllLoaded(configs, manifests) && m in configs && id in manifests[configs[m].moduleName].requirements
    ensures SoundFor(configs, manifests, m, id)
       <==> RequirementMet(configs, manifests, configs[m], id, manifests[configs[m].moduleName].requirements[id])
  {
    var targets := ConnectionsOf(configs[m], id);
    var interface := manifests[configs[m].moduleName].requirements[id].interface;
    if SoundFor(configs, manifests, m, id) {
      forall t | t in targets ensures Fulfils(configs, manifests, t, interface) {
        var k :| 0 <= k < |targets| && targets[k] == t;
      }
    }
    if RequirementMet(configs, manifests, configs[m], id, manifests[configs[m].moduleName].requirements[id]) {
      forall k | 0 <= k < |targets| ensures Fulfils(configs, manifests, targets[k], interface) {
        assert targets[k] in targets;
      }
    }
  }

  // ----- the look-up of a call -----

  /** Every requirement handed to a module can be called: in a checked configuration its index is within the
      module's connections, and the connected module exists and provides the interface asked for. */
  lemma CallsFindTheirTarget(configs: Configs, manifests: Manifests, m: string, r: map<Requirement, Fulfillment>,
                             q: Requirement)
    requires AllLoaded(configs, manifests) && WellConnected(configs, manifests)
    requires m in configs
    requires ResolvedFor(configs[m], SortedKeys(manifests[configs[m].moduleName].requirements), r)
    requires q in r
    ensures var declared := manifests[configs[m].moduleName].requirements;
            && q.id in declared
            && q.index < |ConnectionsOf(configs[m], q.id)|
            && var target := ConnectionsOf(configs[m], q.id)[q.index];
               && r[q] == Fulfillment(target, q)
               && Fulfils(configs, manifests, target, declared[q.id].interface)
  {
    assert ModuleConnected(configs, manifests, configs[m]);
    var target := ConnectionsOf(configs[m], q.id)[q.index];
    assert target in configs[m].connections[q.id];
  }

  /** A module gets at least as many fulfillments as its manifest demands, so a required connection is always
      there to call. */
  lemma RequiredConnectionsAreThere(configs: Configs, manifests: Manifests, m: string,
                                    r: map<Requirement, Fulfillment>, id: string, index: nat)
    requires AllLoaded(configs, manifests) && WellConnected(configs, manifests)
    requires m in configs
    requires var declared := manifests[configs[m].moduleName].requirements;
             ResolvedFor(configs[m], SortedKeys(declared), r) && id in declared && index < declared[id].minConnections
    ensures Requirement(id, index) in r
  {
    assert ModuleConnected(configs, manifests, configs[m]);
    assert id in SortedKeys(manifests[configs[m].moduleName].requirements);
  }
}
