/** The manifest that start-up makes up for a probe module: whatever the configuration connects to it and from
    it, it provides and requires. */
module ProbeModule {
  import opened Options
  import opened OrderedMaps
  import opened Requirements

  const PROBE_NAME := "ProbeModule"

  /** One connection into the probe: the module, its requirement, and the position in the list. */
  datatype Ask = Ask(moduleId: string, requirement: string, index: nat)

  function AskedTarget(configs: Configs, a: Ask): Target
    requires a.moduleId in configs && a.requirement in configs[a.moduleId].connections
    requires a.index < |configs[a.moduleId].connections[a.requirement]|
  {
    configs[a.moduleId].connections[a.requirement][a.index]
  }

  ghost predicate IsAsk(configs: Configs, probe: string, a: Ask) {
    && a.moduleId in configs && a.moduleId != probe
    && a.requirement in configs[a.moduleId].connections
    && a.index < |configs[a.moduleId].connections[a.requirement]|
    && AskedTarget(configs, a).moduleId == probe
  }

  predicate Declared(configs: Configs, manifests: Manifests, m: string, requirement: string) {
    && m in configs && configs[m].moduleName in manifests
    && requirement in manifests[configs[m].moduleName].requirements
  }

  function InterfaceOf(configs: Configs, manifests: Manifests, m: string, requirement: string): string {
    if Declared(configs, manifests, m, requirement)
    then manifests[configs[m].moduleName].requirements[requirement].interface else ""
  }

  /** Two connections into the probe that can share one implementation. */
  ghost predicate Compatible(configs: Configs, manifests: Manifests, probe: string, a: Ask, b: Ask)
    requires IsAsk(configs, probe, a) && IsAsk(configs, probe, b)
  {
    AskedTarget(configs, a).implementationId == AskedTarget(configs, b).implementationId ==>
      InterfaceOf(configs, manifests, a.moduleId, a.requirement)
        == InterfaceOf(configs, manifests, b.moduleId, b.requirement)
  }

  ghost predicate AsksAgree(configs: Configs, manifests: Manifests, probe: string) {
    forall a, b :: IsAsk(configs, probe, a) && IsAsk(configs, probe, b) ==>
      Compatible(configs, manifests, probe, a, b)
  }

  ghost predicate ConnectionsDeclared(configs: Configs, manifests: Manifests, probe: string) {
    forall m, r :: m in configs && m != probe && r in configs[m].connections ==> Declared(configs, manifests, m, r)
  }

  // ----- what the probe provides -----

  /** An implementation of the probe that some module wants with some interface. */
  datatype Wish = Wish(implementation: string, interface: string)

  datatype Outcome =
    | Built(provided: map<string, string>)
    | Clash(first: Wish, second: Wish)
    | Undeclared(moduleId: string, requirement: string)

  /** Two wishes for one implementation that no manifest can satisfy together. */
  ghost predicate Clashing(wishes: set<Wish>, v: Wish, w: Wish) {
    v in wishes && w in wishes && v.implementation == w.implementation && v.interface != w.interface
  }

  ghost predicate Answers(wishes: set<Wish>, provided: map<string, string>) {
    && (forall w :: w in wishes ==> w.implementation in provided && provided[w.implementation] == w.interface)
    && (forall i :: i in provided ==> Wish(i, provided[i]) in wishes)
  }

  lemma AnswerOneMore(wishes: set<Wish>, provided: map<string, string>, w: Wish)
    requires Answers(wishes, provided)
    requires w.implementation in provided ==> provided[w.implementation] == w.interface
    ensures Answers(wishes + {w}, provided[w.implementation := w.interface])
  {
  }

  /** A requirement of a module with its connections, as the loops of the start-up come to it. */
  datatype Entry = Entry(moduleId: string, requirement: string, declared: bool, interface: string,
                         targets: seq<Target>)

  function EntryOf(configs: Configs, manifests: Manifests, m: string, r: string): Entry
    requires m in configs && r in configs[m].connections
  {
    Entry(m, r, Declared(configs, manifests, m, r), InterfaceOf(configs, manifests, m, r), configs[m].connections[r])
  }

  /** Some wishes and those in a list of connections. */
  ghost function WithList(wishes: set<Wish>, targets: seq<Target>, probe: string, interface: string): set<Wish>
    decreases |targets|
  {
    if targets == [] then wishes
    else
      var last := targets[|targets| - 1];
      WithList(wishes, targets[..|targets| - 1], probe, interface)
      + if last.moduleId == probe then {Wish(last.implementationId, interface)} else {}
  }

  ghost function WishesOf(entries: seq<Entry>, probe: string): set<Wish>
    decreases |entries|
  {
    if entries == [] then {}
    else
      var last := entries[|entries| - 1];
      WithList(WishesOf(entries[..|entries| - 1], probe), last.targets, probe, last.interface)
  }

  lemma ListOneMore(wishes: set<Wish>, targets: seq<Target>, k: nat, probe: string, interface: string)
    requires k < |targets|
    ensures WithList(wishes, targets[..k + 1], probe, interface)
         == WithList(wishes, targets[..k], probe, interface)
            + if targets[k].moduleId == probe then {Wish(targets[k].implementationId, interface)} else {}
  {
    assert targets[..k + 1][..k] == targets[..k];
  }

  lemma WishesOneMore(entries: seq<Entry>, i: nat, probe: string)
    requires i < |entries|
    ensures WishesOf(entries[..i + 1], probe)
         == WithList(WishesOf(entries[..i], probe), entries[i].targets, probe, entries[i].interface)
  {
    assert entries[..i + 1][..i] == entries[..i];
  }

  lemma {:induction false} ListGrows(wishes: set<Wish>, targets: seq<Target>, k: nat, probe: string, interface: string)
    requires k <= |targets|
    ensures wishes <= WithList(wishes, targets[..k], probe, interface) <= WithList(wishes, targets, probe, interface)
    decreases |targets|
  {
    if k == |targets| {
      assert targets[..k] == targets;
      if k > 0 { ListGrows(wishes, targets[..k - 1], k - 1, probe, interface); }
    } else {
      var front := targets[..|targets| - 1];
      assert front[..k] == targets[..k];
      ListGrows(wishes, front, k, probe, interface);
    }
  }

  lemma {:induction false} WishesGrow(entries: seq<Entry>, i: nat, probe: string)
    requires i <= |entries|
    ensures WishesOf(entries[..i], probe) <= WishesOf(entries, probe)
    decreases |entries|
  {
    if i == |entries| {
      assert entries[..i] == entries;
    } else {
      var front, last := entries[..|entries| - 1], entries[|entries| - 1];
      assert front[..i] == entries[..i];
      WishesGrow(front, i, probe);
      ListGrows(WishesOf(front, probe), last.targets, 0, probe, last.interface);
    }
  }

  method ProvideForRequirement(targets: seq<Target>, probe: string, interface: string, before: map<string, string>,
                               ghost wishes: set<Wish>)
    returns (outcome: Outcome)
    requires Answers(wishes, before)
    ensures outcome.Built? ==> Answers(WithList(wishes, targets, probe, interface), outcome.provided)
    ensures outcome.Clash? ==>
              Clashing(WithList(wishes, targets, probe, interface), outcome.first, outcome.second)
    ensures !outcome.Undeclared?
  {
    var collected := before;
    for k := 0 to |targets|
      invariant Answers(WithList(wishes, targets[..k], probe, interface), collected)
    {
      var t := targets[k];
      ListOneMore(wishes, targets, k, probe, interface);
      if t.moduleId != probe {
        continue;
      }
      var w := Wish(t.implementationId, interface);
      if t.implementationId in collected && collected[t.implementationId] != interface {
        ListGrows(wishes, targets, k + 1, probe, interface);
        return Clash(Wish(t.implementationId, collected[t.implementationId]), w);
      }
      AnswerOneMore(WithList(wishes, targets[..k], probe, interface), collected, w);
      collected := collected[t.implementationId := interface];
    }
    assert targets[..|targets|] == targets;
    return Built(collected);
  }

  ghost predicate IsOutcome(entries: seq<Entry>, wishes: set<Wish>, outcome: Outcome) {
    match outcome
    case Built(provided) => Answers(wishes, provided) && forall e :: e in entries ==> e.declared
    case Clash(first, second) => Clashing(wishes, first, second)
    case Undeclared(who, what) =>
      exists e :: e in entries && e.moduleId == who && e.requirement == what && !e.declared
  }

  /** The loops over modules and their requirements, the probe itself left out. */
  method CollectProvided(entries: seq<Entry>, probe: string) returns (outcome: Outcome)
    ensures IsOutcome(entries, WishesOf(entries, probe), outcome)
  {
    outcome := Built(map[]);
    for i := 0 to |entries|
      invariant outcome.Built? && Answers(WishesOf(entries[..i], probe), outcome.provided)
      invariant forall k :: 0 <= k < i ==> entries[k].declared
    {
      var e := entries[i];
      if !e.declared {
        assert e in entries;
        return Undeclared(e.moduleId, e.requirement);
      }
      WishesOneMore(entries, i, probe);
      outcome := ProvideForRequirement(e.targets, probe, e.interface, outcome.provided, WishesOf(entries[..i], probe));
      if !outcome.Built? {
        WishesGrow(entries, i + 1, probe);
        return;
      }
    }
    assert entries[..|entries|] == entries;
  }

  // ----- the entries of a configuration -----

  function ModuleEntries(configs: Configs, manifests: Manifests, m: string, rs: seq<string>): seq<Entry>
    requires m in configs && forall r :: r in rs ==> r in configs[m].connections
  {
    if rs == [] then [] else [EntryOf(configs, manifests, m, rs[0])] + ModuleEntries(configs, manifests, m, rs[1..])
  }

  function EntriesFrom(configs: Configs, manifests: Manifests, probe: string, ms: seq<string>): seq<Entry>
    requires forall m :: m in ms ==> m in configs
  {
    if ms == [] then []
    else
      (if ms[0] == probe then []
       else ModuleEntries(configs, manifests, ms[0], SortedKeys(configs[ms[0]].connections)))
      + EntriesFrom(configs, manifests, probe, ms[1..])
  }

  /** Modules by id, and each module's connections by requirement id, without the probe's own. */
  function Entries(configs: Configs, manifests: Manifests, probe: string): seq<Entry> {
    EntriesFrom(configs, manifests, probe, SortedKeys(configs))
  }

  ghost predicate IsEntry(configs: Configs, manifests: Manifests, probe: string, e: Entry) {
    && e.moduleId in configs && e.moduleId != probe && e.requirement in configs[e.moduleId].connections
    && e == EntryOf(configs, manifests, e.moduleId, e.requirement)
  }

  lemma {:induction false} ModuleEntriesContents(configs: Configs, manifests: Manifests, m: string, rs: seq<string>,
                                                 e: Entry)
    requires m in configs && forall r :: r in rs ==> r in configs[m].connections
    ensures e in ModuleEntries(configs, manifests, m, rs)
       <==> e.requirement in rs && e == EntryOf(configs, manifests, m, e.requirement)
  {
    if rs != [] { ModuleEntriesContents(configs, manifests, m, rs[1..], e); }
  }

  lemma {:induction false} EntriesFromContents(configs: Configs, manifests: Manifests, probe: string, ms: seq<string>,
                                               e: Entry)
    requires forall m :: m in ms ==> m in configs
    ensures e in EntriesFrom(configs, manifests, probe, ms)
       <==> e.moduleId in ms && IsEntry(configs, manifests, probe, e)
  {
    if ms != [] {
      EntriesFromContents(configs, manifests, probe, ms[1..], e);
      if ms[0] != probe {
        ModuleEntriesContents(configs, manifests, ms[0], SortedKeys(configs[ms[0]].connections), e);
      }
    }
  }

  lemma EntriesContents(configs: Configs, manifests: Manifests, probe: string, e: Entry)
    ensures e in Entries(configs, manifests, probe) <==> IsEntry(configs, manifests, probe, e)
  {
    EntriesFromContents(configs, manifests, probe, SortedKeys(configs), e);
  }

  // ----- wishes and connections -----

  ghost predicate WishAt(e: Entry, probe: string, w: Wish, k: nat) {
    k < |e.targets| && e.targets[k].moduleId == probe && w == Wish(e.targets[k].implementationId, e.interface)
  }

  lemma {:induction false} ListContents(wishes: set<Wish>, targets: seq<Target>, probe: string, interface: string,
                                        w: Wish)
    ensures w in WithList(wishes, targets, probe, interface)
       <==> w in wishes
            || exists k :: 0 <= k < |targets| && targets[k].moduleId == probe
                           && w == Wish(targets[k].implementationId, interface)
    decreases |targets|
  {
    if targets != [] {
      ListContents(wishes, targets[..|targets| - 1], probe, interface, w);
    }
  }

  ghost predicate WishedBy(e: Entry, probe: string, w: Wish) {
    exists k: nat :: WishAt(e, probe, w, k)
  }

  lemma {:induction false} WishesContents(entries: seq<Entry>, probe: string, w: Wish)
    ensures w in WishesOf(entries, probe) <==> exists e :: e in entries && WishedBy(e, probe, w)
    decreases |entries|
  {
    if entries != [] {
      var front, last := entries[..|entries| - 1], entries[|entries| - 1];
      WishesContents(front, probe, w);
      ListContents(WishesOf(front, probe), last.targets, probe, last.interface, w);
      assert WishedBy(last, probe, w) <==>
          exists k :: 0 <= k < |last.targets| && last.targets[k].moduleId == probe
                      && w == Wish(last.targets[k].implementationId, last.interface) by {
        if k :| 0 <= k < |last.targets| && last.targets[k].moduleId == probe
                && w == Wish(last.targets[k].implementationId, last.interface) {
          assert WishAt(last, probe, w, k);
        }
      }
      if e :| e in entries && WishedBy(e, probe, w) { assert e in front || e == last; }
    }
  }

  /** The wishes of a configuration are those of its connections into the probe. */
  ghost function WishOf(configs: Configs, manifests: Manifests, probe: string, a: Ask): Wish
    requires IsAsk(configs, probe, a)
  {
    Wish(AskedTarget(configs, a).implementationId, InterfaceOf(configs, manifests, a.moduleId, a.requirement))
  }

  lemma AskIsWish(configs: Configs, manifests: Manifests, probe: string, a: Ask)
    requires IsAsk(configs, probe, a)
    ensures WishOf(configs, manifests, probe, a) in WishesOf(Entries(configs, manifests, probe), probe)
  {
    var e := EntryOf(configs, manifests, a.moduleId, a.requirement);
    EntriesContents(configs, manifests, probe, e);
    assert WishAt(e, probe, WishOf(configs, manifests, probe, a), a.index);
    WishesContents(Entries(configs, manifests, probe), probe, WishOf(configs, manifests, probe, a));
  }

  lemma WishIsAsk(configs: Configs, manifests: Manifests, probe: string, w: Wish) returns (a: Ask)
    requires w in WishesOf(Entries(configs, manifests, probe), probe)
    ensures IsAsk(configs, probe, a) && w == WishOf(configs, manifests, probe, a)
  {
    WishesContents(Entries(configs, manifests, probe), probe, w);
    var e :| e in Entries(configs, manifests, probe) && WishedBy(e, probe, w);
    EntriesContents(configs, manifests, probe, e);
    var k: nat :| WishAt(e, probe, w, k);
    a := Ask(e.moduleId, e.requirement, k);
  }

  /** The wishes clash exactly when two connections ask for one implementation with different interfaces. */
  lemma WishesClashIffAsksDisagree(configs: Configs, manifests: Manifests, probe: string)
    ensures (exists v, w :: Clashing(WishesOf(Entries(configs, manifests, probe), probe), v, w))
       <==> !AsksAgree(configs, manifests, probe)
  {
    var wishes := WishesOf(Entries(configs, manifests, probe), probe);
    if v, w :| Clashing(wishes, v, w) {
      var a := WishIsAsk(configs, manifests, probe, v);
      var b := WishIsAsk(configs, manifests, probe, w);
      assert !Compatible(configs, manifests, probe, a, b);
    }
    if !AsksAgree(configs, manifests, probe) {
      var a, b :| IsAsk(configs, probe, a) && IsAsk(configs, probe, b) && !Compatible(configs, manifests, probe, a, b);
      AskIsWish(configs, manifests, probe, a);
      AskIsWish(configs, manifests, probe, b);
      assert Clashing(wishes, WishOf(configs, manifests, probe, a), WishOf(configs, manifests, probe, b));
    }
  }

  /** With known requirement ids, what the probe provides can be made up exactly when no two connections ask for
      one of its implementations with different interfaces; it then gives every connection what it asks for. */
  lemma ProvidingFailsIffAsksDisagree(configs: Configs, manifests: Manifests, probe: string, outcome: Outcome)
    requires IsOutcome(Entries(configs, manifests, probe), WishesOf(Entries(configs, manifests, probe), probe), outcome)
    ensures outcome.Built? <==> ConnectionsDeclared(configs, manifests, probe) && AsksAgree(configs, manifests, probe)
    ensures outcome.Built? ==>
              forall a :: IsAsk(configs, probe, a) ==> AskAnswered(configs, manifests, probe, a, outcome.provided)
  {
    var entries := Entries(configs, manifests, probe);
    match outcome
    case Built(provided) =>
      forall m, r | m in configs && m != probe && r in configs[m].connections
        ensures Declared(configs, manifests, m, r)
      {
        EntriesContents(configs, manifests, probe, EntryOf(configs, manifests, m, r));
      }
      forall a | IsAsk(configs, probe, a) ensures AskAnswered(configs, manifests, probe, a, provided) {
        AskIsWish(configs, manifests, probe, a);
      }
      forall a, b | IsAsk(configs, probe, a) && IsAsk(configs, probe, b)
        ensures Compatible(configs, manifests, probe, a, b)
      {
        assert AskAnswered(configs, manifests, probe, a, provided);
        assert AskAnswered(configs, manifests, probe, b, provided);
      }
    case Clash(first, second) =>
      var a := WishIsAsk(configs, manifests, probe, first);
      var b := WishIsAsk(configs, manifests, probe, second);
      assert !Compatible(configs, manifests, probe, a, b);
    case Undeclared(who, what) =>
      var e :| e in entries && e.moduleId == who && e.requirement == what && !e.declared;
      EntriesContents(configs, manifests, probe, e);
  }

  ghost predicate AskAnswered(configs: Configs, manifests: Manifests, probe: string, a: Ask,
                              provided: map<string, string>)
    requires IsAsk(configs, probe, a)
  {
    var w := WishOf(configs, manifests, probe, a);
    w.implementation in provided && provided[w.implementation] == w.interface
  }

  // ----- what the probe requires -----

  datatype Found = NoModule | NoImplementation | Provides(interface: string)

  /** A connection of the probe and what its target turns out to provide. */
  datatype Link = Link(requirement: string, found: Found)

  function FoundAt(configs: Configs, manifests: Manifests, t: Target): Found {
    if t.moduleId !in configs then NoModule
    else if !ProvidedBy(configs, manifests, t) then NoImplementation
    else Provides(manifests[configs[t.moduleId].moduleName].provided[t.implementationId])
  }

  predicate ProvidedBy(configs: Configs, manifests: Manifests, t: Target)
    requires t.moduleId in configs
  {
    && configs[t.moduleId].moduleName in manifests
    && t.implementationId in manifests[configs[t.moduleId].moduleName].provided
  }

  function ListLinks(configs: Configs, manifests: Manifests, r: string, targets: seq<Target>): (links: seq<Link>)
    ensures |links| == |targets|
    ensures forall k :: 0 <= k < |targets| ==> links[k] == Link(r, FoundAt(configs, manifests, targets[k]))
  {
    seq(|targets|, k requires 0 <= k < |targets| => Link(r, FoundAt(configs, manifests, targets[k])))
  }

  function LinksFor(configs: Configs, manifests: Manifests, c: ModuleConfig, rs: seq<string>): seq<Link>
    requires forall r :: r in rs ==> r in c.connections
  {
    if rs == [] then []
    else ListLinks(configs, manifests, rs[0], c.connections[rs[0]]) + LinksFor(configs, manifests, c, rs[1..])
  }

  function Links(configs: Configs, manifests: Manifests, c: ModuleConfig): seq<Link> {
    LinksFor(configs, manifests, c, SortedKeys(c.connections))
  }

  ghost predicate LinkAt(configs: Configs, manifests: Manifests, c: ModuleConfig, l: Link, k: nat) {
    && l.requirement in c.connections && k < |c.connections[l.requirement]|
    && l.found == FoundAt(configs, manifests, c.connections[l.requirement][k])
  }

  ghost predicate IsLink(configs: Configs, manifests: Manifests, c: ModuleConfig, l: Link) {
    exists k: nat :: LinkAt(configs, manifests, c, l, k)
  }

  lemma ListLinksContents(configs: Configs, manifests: Manifests, c: ModuleConfig, r: string, l: Link)
    requires r in c.connections
    ensures l in ListLinks(configs, manifests, r, c.connections[r])
       <==> l.requirement == r && IsLink(configs, manifests, c, l)
  {
    var targets := c.connections[r];
    var links := ListLinks(configs, manifests, r, targets);
    if l in links {
      var k :| 0 <= k < |links| && links[k] == l;
      assert LinkAt(configs, manifests, c, l, k);
    }
    if l.requirement == r && IsLink(configs, manifests, c, l) {
      var k: nat :| LinkAt(configs, manifests, c, l, k);
      assert links[k] == l;
    }
  }

  lemma {:induction false} LinksForContents(configs: Configs, manifests: Manifests, c: ModuleConfig, rs: seq<string>,
                                            l: Link)
    requires forall r :: r in rs ==> r in c.connections
    ensures l in LinksFor(configs, manifests, c, rs) <==> l.requirement in rs && IsLink(configs, manifests, c, l)
  {
    if rs != [] {
      LinksForContents(configs, manifests, c, rs[1..], l);
      ListLinksContents(configs, manifests, c, rs[0], l);
    }
  }

  lemma LinksContents(configs: Configs, manifests: Manifests, c: ModuleConfig, l: Link)
    ensures l in Links(configs, manifests, c) <==> IsLink(configs, manifests, c, l)
  {
    LinksForContents(configs, manifests, c, SortedKeys(c.connections), l);
  }

  /** The interfaces found so far; requirement ids take the place of implementation ids here. */
  ghost function LinkWishes(links: seq<Link>, n: nat): set<Wish>
    requires n <= |links|
  {
    set k | 0 <= k < n && links[k].found.Provides? :: Wish(links[k].requirement, links[k].found.interface)
  }

  lemma LinkWishesOneMore(links: seq<Link>, n: nat)
    requires n < |links| && links[n].found.Provides?
    ensures LinkWishes(links, n + 1) == LinkWishes(links, n) + {Wish(links[n].requirement, links[n].found.interface)}
  {
  }

  /** The loops over the probe's own connections. */
  method CollectRequired(links: seq<Link>) returns (required: Option<map<string, string>>)
    ensures required.Some? ==>
              && (forall l :: l in links ==> l.found.Provides?)
              && Answers(LinkWishes(links, |links|), required.value)
    ensures required == None ==>
              || (exists l :: l in links && !l.found.Provides?)
              || exists v, w :: Clashing(LinkWishes(links, |links|), v, w)
  {
    var collected: map<string, string> := map[];
    for i := 0 to |links|
      invariant forall k :: 0 <= k < i ==> links[k].found.Provides?
      invariant Answers(LinkWishes(links, i), collected)
    {
      var l := links[i];
      assert l in links;
      if !l.found.Provides? {
        return None;
      }
      var w := Wish(l.requirement, l.found.interface);
      LinkWishesOneMore(links, i);
      if l.requirement in collected && collected[l.requirement] != l.found.interface {
        var v := Wish(l.requirement, collected[l.requirement]);
        assert v in LinkWishes(links, i) && w in LinkWishes(links, i + 1);
        assert Clashing(LinkWishes(links, |links|), v, w);
        return None;
      }
      AnswerOneMore(LinkWishes(links, i), collected, w);
      collected := collected[l.requirement := l.found.interface];
    }
    return Some(collected);
  }

  // ----- the generated manifest -----

  /** A manifest without implementations is not allowed, so an unused probe provides a dummy. */
  function ProvidedOrDummy(provided: map<string, string>): map<string, string> {
    if provided == map[] then map["none" := "empty"] else provided
  }

  /** The manifest schema fills in one connection as minimum and maximum. */
  function WithDefaults(required: map<string, string>): map<string, RequirementEntry> {
    map r | r in required :: RequirementEntry(required[r], 1, 1)
  }

  ghost predicate OneProbe(configs: Configs, manifests: Manifests, probe: string) {
    && probe in configs
    && forall m :: m in configs ==>
         if m == probe then configs[m].moduleName == PROBE_NAME
         else configs[m].moduleName != PROBE_NAME && configs[m].moduleName in manifests
  }

  function WithProbe(manifests: Manifests, provided: map<string, string>, required: map<string, RequirementEntry>)
    : Manifests
  {
    manifests[PROBE_NAME := Manifest(provided, required)]
  }

  /** What goes into a generated manifest: the answers to all asks and the interfaces of all own connections. */
  ghost predicate Generated(configs: Configs, manifests: Manifests, probe: string, provided: map<string, string>,
                            required: map<string, string>)
    requires probe in configs
  {
    && Builds(configs, manifests, probe, provided)
    && LinksFit(configs, WithProbe(manifests, ProvidedOrDummy(provided), map[]), configs[probe])
    && var links := Links(configs, WithProbe(manifests, ProvidedOrDummy(provided), map[]), configs[probe]);
       Answers(LinkWishes(links, |links|), required)
  }

  ghost predicate Builds(configs: Configs, manifests: Manifests, probe: string, provided: map<string, string>) {
    IsOutcome(Entries(configs, manifests, probe), WishesOf(Entries(configs, manifests, probe), probe), Built(provided))
  }

  /** Every connection of the probe finds its implementation, and those of one requirement the same interface. */
  ghost predicate LinksFit(configs: Configs, manifests: Manifests, c: ModuleConfig) {
    && (forall l :: IsLink(configs, manifests, c, l) ==> l.found.Provides?)
    && (forall k, l ::
          IsLink(configs, manifests, c, k) && IsLink(configs, manifests, c, l) && k.requirement == l.requirement ==>
            k.found == l.found)
  }

  lemma LinkWishesContents(links: seq<Link>, w: Wish)
    ensures w in LinkWishes(links, |links|) <==> Link(w.implementation, Provides(w.interface)) in links
  {
    if Link(w.implementation, Provides(w.interface)) in links {
      var k :| 0 <= k < |links| && links[k] == Link(w.implementation, Provides(w.interface));
    }
  }

  /** The two loops over the probe's connections accept exactly the fitting ones. */
  lemma RequiringSucceedsIffLinksFit(configs: Configs, manifests: Manifests, c: ModuleConfig,
                                     required: Option<map<string, string>>)
    requires var links := Links(configs, manifests, c);
             && (required.Some? ==>
                   && (forall l :: l in links ==> l.found.Provides?)
                   && Answers(LinkWishes(links, |links|), required.value))
             && (required == None ==>
                   || (exists l :: l in links && !l.found.Provides?)
                   || exists v, w :: Clashing(LinkWishes(links, |links|), v, w))
    ensures required.Some? <==> LinksFit(configs, manifests, c)
  {
    var links := Links(configs, manifests, c);
    if required.Some? {
      forall l | IsLink(configs, manifests, c, l)
        ensures l.found.Provides?
        ensures l.requirement in required.value && required.value[l.requirement] == l.found.interface
      {
        LinksContents(configs, manifests, c, l);
        LinkWishesContents(links, Wish(l.requirement, l.found.interface));
      }
    } else if v, w :| Clashing(LinkWishes(links, |links|), v, w) {
      LinkWishesContents(links, v);
      LinkWishesContents(links, w);
      var k, l := Link(v.implementation, Provides(v.interface)), Link(w.implementation, Provides(w.interface));
      LinksContents(configs, manifests, c, k);
      LinksContents(configs, manifests, c, l);
    } else {
      var l :| l in links && !l.found.Provides?;
      LinksContents(configs, manifests, c, l);
    }
  }

  ghost predicate IsConnection(configs: Configs, m: string, r: string, k: nat) {
    m in configs && r in configs[m].connections && k < |configs[m].connections[r]|
  }

  /** A connection passes the existence, provides and interface checks of requirement resolution. */
  ghost predicate Passes(configs: Configs, manifests: Manifests, m: string, r: string, k: nat)
    requires IsConnection(configs, m, r, k)
  {
    && Declared(configs, manifests, m, r)
    && Fulfils(configs, manifests, configs[m].connections[r][k], InterfaceOf(configs, manifests, m, r))
  }

  lemma AnsweredAskPasses(configs: Configs, manifests: Manifests, probe: string, provided: map<string, string>,
                          required: map<string, RequirementEntry>, a: Ask)
    requires OneProbe(configs, manifests, probe)
    requires IsAsk(configs, probe, a) && AskAnswered(configs, manifests, probe, a, provided)
    requires Declared(configs, manifests, a.moduleId, a.requirement)
    ensures Passes(configs, WithProbe(manifests, ProvidedOrDummy(provided), required),
                   a.moduleId, a.requirement, a.index)
  {
    var result := WithProbe(manifests, ProvidedOrDummy(provided), required);
    var name := configs[a.moduleId].moduleName;
    assert name != PROBE_NAME && result[name] == manifests[name];
    assert result[PROBE_NAME].provided == provided;
  }

  lemma AskPasses(configs: Configs, manifests: Manifests, probe: string, provided: map<string, string>,
                  required: map<string, string>, a: Ask)
    requires OneProbe(configs, manifests, probe)
    requires Builds(configs, manifests, probe, provided)
    requires IsAsk(configs, probe, a)
    ensures Passes(configs, WithProbe(manifests, ProvidedOrDummy(provided), WithDefaults(required)),
                   a.moduleId, a.requirement, a.index)
  {
    ProvidingFailsIffAsksDisagree(configs, manifests, probe, Built(provided));
    assert AskAnswered(configs, manifests, probe, a, provided);
    assert Declared(configs, manifests, a.moduleId, a.requirement);
    AnsweredAskPasses(configs, manifests, probe, provided, WithDefaults(required), a);
  }

  /** By construction every connection into the probe and out of it passes. */
  lemma ProbeConnectionsPass(configs: Configs, manifests: Manifests, probe: string, provided: map<string, string>,
                             required: map<string, string>, m: string, r: string, k: nat)
    requires OneProbe(configs, manifests, probe)
    requires Generated(configs, manifests, probe, provided, required)
    requires IsConnection(configs, m, r, k)
    requires m == probe || configs[m].connections[r][k].moduleId == probe
    ensures Passes(configs, WithProbe(manifests, ProvidedOrDummy(provided), WithDefaults(required)), m, r, k)
  {
    hide Builds, LinksFit, Answers, Fulfils;
    if m == probe {
      OwnConnectionPasses(configs, manifests, probe, provided, required, r, k);
    } else {
      AskPasses(configs, manifests, probe, provided, required, Ask(m, r, k));
    }
  }

  /** A connection of the probe led to its requirement, with the interface found at its target. */
  lemma OwnConnectionCounts(configs: Configs, manifests: Manifests, probe: string, provided: map<string, string>,
                            required: map<string, string>, r: string, k: nat)
    requires probe in configs && Generated(configs, manifests, probe, provided, required)
    requires IsConnection(configs, probe, r, k)
    ensures var sofar := WithProbe(manifests, ProvidedOrDummy(provided), map[]);
            && r in required
            && FoundAt(configs, sofar, configs[probe].connections[r][k]) == Provides(required[r])
  {
    var sofar := WithProbe(manifests, ProvidedOrDummy(provided), map[]);
    var l := Link(r, FoundAt(configs, sofar, configs[probe].connections[r][k]));
    assert LinkAt(configs, sofar, configs[probe], l, k);
    assert IsLink(configs, sofar, configs[probe], l);
    LinksContents(configs, sofar, configs[probe], l);
    LinkWishesContents(Links(configs, sofar, configs[probe]), Wish(r, l.found.interface));
  }

  /** Filling in the probe's requirements does not change what modules provide. */
  lemma FoundMeansFulfilled(configs: Configs, manifests: Manifests, provided: map<string, string>,
                            required: map<string, RequirementEntry>, t: Target, interface: string)
    requires FoundAt(configs, WithProbe(manifests, provided, map[]), t) == Provides(interface)
    ensures Fulfils(configs, WithProbe(manifests, provided, required), t, interface)
  {
  }

  lemma OwnConnectionPasses(configs: Configs, manifests: Manifests, probe: string, provided: map<string, string>,
                            required: map<string, string>, r: string, k: nat)
    requires OneProbe(configs, manifests, probe)
    requires Generated(configs, manifests, probe, provided, required)
    requires IsConnection(configs, probe, r, k)
    ensures r in required
    ensures Fulfils(configs, WithProbe(manifests, ProvidedOrDummy(provided), WithDefaults(required)),
                    configs[probe].connections[r][k], required[r])
  {
    OwnConnectionCounts(configs, manifests, probe, provided, required, r, k);
    FoundMeansFulfilled(configs, manifests, ProvidedOrDummy(provided), WithDefaults(required),
                        configs[probe].connections[r][k], required[r]);
  }

  /** The probe has a requirement for each of its non-empty lists of connections, and for nothing else. */
  lemma RequiredAreTheConnected(configs: Configs, manifests: Manifests, probe: string, provided: map<string, string>,
                                required: map<string, string>, r: string)
    requires OneProbe(configs, manifests, probe)
    requires Generated(configs, manifests, probe, provided, required)
    ensures r in required <==> r in configs[probe].connections && configs[probe].connections[r] != []
  {
    var sofar := WithProbe(manifests, ProvidedOrDummy(provided), map[]);
    if r in required {
      var l := Link(r, Provides(required[r]));
      LinkWishesContents(Links(configs, sofar, configs[probe]), Wish(r, required[r]));
      LinksContents(configs, sofar, configs[probe], l);
      var k: nat :| LinkAt(configs, sofar, configs[probe], l, k);
    }
    if r in configs[probe].connections && configs[probe].connections[r] != [] {
      OwnConnectionCounts(configs, manifests, probe, provided, required, r, 0);
    }
  }

  lemma DefaultsNeedSingleConnections(configs: Configs, manifests: Manifests, c: ModuleConfig,
                                      required: map<string, string>)
    requires c.moduleName in manifests && manifests[c.moduleName].requirements == WithDefaults(required)
    requires forall r :: r in required <==> r in c.connections && c.connections[r] != []
    requires forall r, t :: r in required && t in c.connections[r] ==> Fulfils(configs, manifests, t, required[r])
    ensures ModuleConnected(configs, manifests, c)
       <==> forall r :: r in c.connections ==> |c.connections[r]| == 1
  {
    forall r | r in required
      ensures RequirementMet(configs, manifests, c, r, WithDefaults(required)[r]) <==> |c.connections[r]| == 1
    {
    }
  }

  /** With the default counts the probe itself resolves exactly when each of its requirements has one
      connection. */
  lemma ProbeResolvesIffSingleConnections(configs: Configs, manifests: Manifests, probe: string,
                                          provided: map<string, string>, required: map<string, string>)
    requires OneProbe(configs, manifests, probe)
    requires Generated(configs, manifests, probe, provided, required)
    ensures var c := configs[probe];
            var result := WithProbe(manifests, ProvidedOrDummy(provided), WithDefaults(required));
            ModuleConnected(configs, result, c) <==> forall r :: r in c.connections ==> |c.connections[r]| == 1
  {
    var c := configs[probe];
    var result := WithProbe(manifests, ProvidedOrDummy(provided), WithDefaults(required));
    forall r ensures r in required <==> r in c.connections && c.connections[r] != [] {
      RequiredAreTheConnected(configs, manifests, probe, provided, required, r);
    }
    forall r, t | r in required && t in c.connections[r] ensures Fulfils(configs, result, t, required[r]) {
      var k :| 0 <= k < |c.connections[r]| && c.connections[r][k] == t;
      OwnConnectionPasses(configs, manifests, probe, provided, required, r, k);
    }
    DefaultsNeedSingleConnections(configs, result, c, required);
  }

  // ----- what the generated manifest holds -----

  /** Some module's requirement `r`, whose manifest asks for this interface, is connected to the implementation `i` of
      the probe. */
  ghost predicate Wanted(configs: Configs, manifests: Manifests, probe: string, i: string, interface: string) {
    exists m, r :: WantedBy(configs, manifests, probe, i, interface, m, r)
  }

  ghost predicate WantedBy(configs: Configs, manifests: Manifests, probe: string, i: string, interface: string,
                           m: string, r: string)
  {
    && m in configs && m != probe && configs[m].moduleName in manifests
    && r in configs[m].connections && Target(probe, i) in configs[m].connections[r]
    && r in manifests[configs[m].moduleName].requirements
    && manifests[configs[m].moduleName].requirements[r].interface == interface
  }

  /** It provides exactly what is wanted, with the interfaces wanted, or "none" with the interface "empty" if nothing
      is; it requires what its own connections lead to, each requirement with the interface of its targets and just one
      connection; and no other manifest has changed. */
  ghost predicate FitsConnections(configs: Configs, manifests: Manifests, probe: string, result: Manifests)
    requires probe in configs
  {
    && result.Keys == manifests.Keys + {"ProbeModule"}
    && (forall name :: name in manifests && name != "ProbeModule" ==> result[name] == manifests[name])
    && FitsWishes(configs, manifests, probe, result["ProbeModule"].provided)
    && FitsTargets(configs, probe, result, result["ProbeModule"].requirements)
  }

  ghost predicate FitsWishes(configs: Configs, manifests: Manifests, probe: string, provided: map<string, string>) {
    if forall i, interface :: !Wanted(configs, manifests, probe, i, interface) then provided == map["none" := "empty"]
    else
      forall i, interface ::
        i in provided && provided[i] == interface <==> Wanted(configs, manifests, probe, i, interface)
  }

  ghost predicate FitsTargets(configs: Configs, probe: string, result: Manifests,
                              required: map<string, RequirementEntry>)
    requires probe in configs
  {
    && (forall r :: r in required <==> r in configs[probe].connections && configs[probe].connections[r] != [])
    && (forall r :: r in required ==> required[r].minConnections == 1 && required[r].maxConnections == 1)
    && (forall r, k :: r in required && 0 <= k < |configs[probe].connections[r]| ==>
          Fulfils(configs, result, configs[probe].connections[r][k], required[r].interface))
  }

  lemma WishIsWanted(configs: Configs, manifests: Manifests, probe: string, w: Wish)
    requires ConnectionsDeclared(configs, manifests, probe)
    ensures w in WishesOf(Entries(configs, manifests, probe), probe)
       <==> Wanted(configs, manifests, probe, w.implementation, w.interface)
  {
    if w in WishesOf(Entries(configs, manifests, probe), probe) {
      var a := WishIsAsk(configs, manifests, probe, w);
      assert Declared(configs, manifests, a.moduleId, a.requirement);
      var t := configs[a.moduleId].connections[a.requirement][a.index];
      assert t == Target(probe, w.implementation);
      assert WantedBy(configs, manifests, probe, w.implementation, w.interface, a.moduleId, a.requirement);
    }
    if m, r :| WantedBy(configs, manifests, probe, w.implementation, w.interface, m, r) {
      var targets := configs[m].connections[r];
      var k :| 0 <= k < |targets| && targets[k] == Target(probe, w.implementation);
      AskIsWish(configs, manifests, probe, Ask(m, r, k));
    }
  }

  lemma TwoWishesDisagree(configs: Configs, manifests: Manifests, probe: string, i: string, x: string, y: string)
    requires ConnectionsDeclared(configs, manifests, probe) && x != y
    requires Wanted(configs, manifests, probe, i, x) && Wanted(configs, manifests, probe, i, y)
    ensures !AsksAgree(configs, manifests, probe)
  {
    hide Wanted, WishesOf, Entries, ConnectionsDeclared, AsksAgree;
    WishIsWanted(configs, manifests, probe, Wish(i, x));
    WishIsWanted(configs, manifests, probe, Wish(i, y));
    assert Clashing(WishesOf(Entries(configs, manifests, probe), probe), Wish(i, x), Wish(i, y));
    WishesClashIffAsksDisagree(configs, manifests, probe);
  }

  /** The connections into the probe agree exactly when nothing is wanted with two interfaces. */
  lemma AsksAgreeIffWantedOnce(configs: Configs, manifests: Manifests, probe: string)
    requires ConnectionsDeclared(configs, manifests, probe)
    ensures AsksAgree(configs, manifests, probe) <==>
            forall i, x, y ::
              Wanted(configs, manifests, probe, i, x) && Wanted(configs, manifests, probe, i, y) ==> x == y
  {
    hide Wanted, WishesOf, Entries, ConnectionsDeclared, AsksAgree;
    WishesClashIffAsksDisagree(configs, manifests, probe);
    if AsksAgree(configs, manifests, probe) {
      forall i, x, y | Wanted(configs, manifests, probe, i, x) && Wanted(configs, manifests, probe, i, y)
        ensures x == y
      {
        if x != y { TwoWishesDisagree(configs, manifests, probe, i, x, y); }
      }
    } else {
      var v, w :| Clashing(WishesOf(Entries(configs, manifests, probe), probe), v, w);
      WishIsWanted(configs, manifests, probe, v);
      WishIsWanted(configs, manifests, probe, w);
    }
  }

  /** The connections of a module fit exactly when those of each requirement have an interface that all of their targets
      provide. */
  lemma LinksFitIffSharedInterfaces(configs: Configs, manifests: Manifests, c: ModuleConfig)
    ensures LinksFit(configs, manifests, c) <==>
            forall r :: r in c.connections ==> SharedInterface(configs, manifests, c.connections[r])
  {
    hide Fulfils, FoundAt;
    if LinksFit(configs, manifests, c) {
      forall r | r in c.connections ensures SharedInterface(configs, manifests, c.connections[r]) {
        FittingLinksShare(configs, manifests, c, r);
      }
    }
    if forall r :: r in c.connections ==> SharedInterface(configs, manifests, c.connections[r]) {
      forall l | IsLink(configs, manifests, c, l) ensures l.found.Provides? { LinkShares(configs, manifests, c, l); }
      forall k, l
        | IsLink(configs, manifests, c, k) && IsLink(configs, manifests, c, l) && k.requirement == l.requirement
        ensures k.found == l.found
      {
        LinkShares(configs, manifests, c, k);
        LinkShares(configs, manifests, c, l);
        SharedIsUnique(configs, manifests, c, k, l);
      }
    }
  }

  ghost predicate SharedInterface(configs: Configs, manifests: Manifests, targets: seq<Target>) {
    exists interface :: AllFulfil(configs, manifests, targets, interface)
  }

  ghost predicate AllFulfil(configs: Configs, manifests: Manifests, targets: seq<Target>, interface: string) {
    forall k :: 0 <= k < |targets| ==> Fulfils(configs, manifests, targets[k], interface)
  }

  lemma FoundMeansFulfils(configs: Configs, manifests: Manifests, t: Target, interface: string)
    ensures FoundAt(configs, manifests, t) == Provides(interface) <==> Fulfils(configs, manifests, t, interface)
  {
  }

  lemma FittingLinksShare(configs: Configs, manifests: Manifests, c: ModuleConfig, r: string)
    requires LinksFit(configs, manifests, c) && r in c.connections
    ensures SharedInterface(configs, manifests, c.connections[r])
  {
    var targets := c.connections[r];
    if targets == [] {
      assert AllFulfil(configs, manifests, targets, "");
    } else {
      hide FoundAt, Fulfils;
      var first := Link(r, FoundAt(configs, manifests, targets[0]));
      assert LinkAt(configs, manifests, c, first, 0);
      forall k | 0 <= k < |targets| ensures Fulfils(configs, manifests, targets[k], first.found.interface) {
        var l := Link(r, FoundAt(configs, manifests, targets[k]));
        assert LinkAt(configs, manifests, c, l, k);
        assert IsLink(configs, manifests, c, first) && IsLink(configs, manifests, c, l);
        FoundMeansFulfils(configs, manifests, targets[k], first.found.interface);
      }
      assert AllFulfil(configs, manifests, targets, first.found.interface);
    }
  }

  lemma LinkShares(configs: Configs, manifests: Manifests, c: ModuleConfig, l: Link)
    requires IsLink(configs, manifests, c, l) && l.requirement in c.connections
    requires SharedInterface(configs, manifests, c.connections[l.requirement])
    ensures l.found.Provides? && AllFulfil(configs, manifests, c.connections[l.requirement], l.found.interface)
  {
    hide FoundAt, Fulfils;
    var targets := c.connections[l.requirement];
    var k: nat :| LinkAt(configs, manifests, c, l, k);
    var interface :| AllFulfil(configs, manifests, targets, interface);
    FoundMeansFulfils(configs, manifests, targets[k], interface);
  }

  lemma SharedIsUnique(configs: Configs, manifests: Manifests, c: ModuleConfig, k: Link, l: Link)
    requires IsLink(configs, manifests, c, k) && IsLink(configs, manifests, c, l) && k.requirement == l.requirement
    requires k.requirement in c.connections && k.found.Provides? && l.found.Provides?
    requires AllFulfil(configs, manifests, c.connections[k.requirement], k.found.interface)
    ensures k.found == l.found
  {
    hide FoundAt, Fulfils;
    var j: nat :| LinkAt(configs, manifests, c, l, j);
    FoundMeansFulfils(configs, manifests, c.connections[k.requirement][j], k.found.interface);
  }

  lemma AnswersAreTheWishes(wishes: set<Wish>, provided: map<string, string>, i: string, interface: string)
    requires Answers(wishes, provided)
    ensures i in provided && provided[i] == interface <==> Wish(i, interface) in wishes
  {
    assert Wish(i, interface).implementation == i;
  }

  lemma DummyIfNothing(configs: Configs, manifests: Manifests, probe: string, provided: map<string, string>)
    requires forall i, interface ::
               i in provided && provided[i] == interface <==> Wanted(configs, manifests, probe, i, interface)
    ensures FitsWishes(configs, manifests, probe, ProvidedOrDummy(provided))
  {
    hide Wanted;
    if provided != map[] {
      var i :| i in provided;
      assert Wanted(configs, manifests, probe, i, provided[i]);
    }
  }

  lemma ProvidedFitWishes(configs: Configs, manifests: Manifests, probe: string, provided: map<string, string>)
    requires ConnectionsDeclared(configs, manifests, probe)
    requires Builds(configs, manifests, probe, provided)
    ensures FitsWishes(configs, manifests, probe, ProvidedOrDummy(provided))
  {
    assert Answers(WishesOf(Entries(configs, manifests, probe), probe), provided);
    hide *;
    forall i, interface
      ensures i in provided && provided[i] == interface <==> Wanted(configs, manifests, probe, i, interface)
    {
      AnswersAreTheWishes(WishesOf(Entries(configs, manifests, probe), probe), provided, i, interface);
      WishIsWanted(configs, manifests, probe, Wish(i, interface));
    }
    DummyIfNothing(configs, manifests, probe, provided);
  }

  lemma RequiredFitTargets(configs: Configs, manifests: Manifests, probe: string, provided: map<string, string>,
                           required: map<string, string>)
    requires OneProbe(configs, manifests, probe)
    requires Generated(configs, manifests, probe, provided, required)
    ensures FitsTargets(configs, probe, WithProbe(manifests, ProvidedOrDummy(provided), WithDefaults(required)),
                        WithDefaults(required))
  {
    var c := configs[probe];
    var result := WithProbe(manifests, ProvidedOrDummy(provided), WithDefaults(required));
    forall r ensures r in required <==> r in c.connections && c.connections[r] != [] {
      RequiredAreTheConnected(configs, manifests, probe, provided, required, r);
    }
    forall r, k | r in required && 0 <= k < |c.connections[r]|
      ensures Fulfils(configs, result, c.connections[r][k], required[r])
    {
      OwnConnectionPasses(configs, manifests, probe, provided, required, r, k);
    }
  }

  lemma GeneratedPasses(configs: Configs, manifests: Manifests, probe: string, provided: map<string, string>,
                        required: map<string, string>)
    requires OneProbe(configs, manifests, probe)
    requires Generated(configs, manifests, probe, provided, required)
    ensures ProbePasses(configs, probe, WithProbe(manifests, ProvidedOrDummy(provided), WithDefaults(required)))
  {
    var result := WithProbe(manifests, ProvidedOrDummy(provided), WithDefaults(required));
    hide Generated, Passes, ProvidedOrDummy, WithDefaults, WithProbe, OneProbe;
    forall m, r, k: nat
      | IsConnection(configs, m, r, k) && (m == probe || configs[m].connections[r][k].moduleId == probe)
      ensures Passes(configs, result, m, r, k)
    {
      ProbeConnectionsPass(configs, manifests, probe, provided, required, m, r, k);
    }
  }

  lemma GeneratedFits(configs: Configs, manifests: Manifests, probe: string, provided: map<string, string>,
                      required: map<string, string>)
    requires OneProbe(configs, manifests, probe) && ConnectionsDeclared(configs, manifests, probe)
    requires Generated(configs, manifests, probe, provided, required)
    ensures FitsConnections(configs, manifests, probe,
                            WithProbe(manifests, ProvidedOrDummy(provided), WithDefaults(required)))
  {
    assert Builds(configs, manifests, probe, provided);
    assert probe in configs;
    hide *;
    ProvidedFitWishes(configs, manifests, probe, provided);
    RequiredFitTargets(configs, manifests, probe, provided, required);
    BothFit(configs, manifests, probe, ProvidedOrDummy(provided), WithDefaults(required));
  }

  lemma BothFit(configs: Configs, manifests: Manifests, probe: string, provided: map<string, string>,
                required: map<string, RequirementEntry>)
    requires probe in configs
    requires FitsWishes(configs, manifests, probe, provided)
    requires FitsTargets(configs, probe, WithProbe(manifests, provided, required), required)
    ensures FitsConnections(configs, manifests, probe, WithProbe(manifests, provided, required))
  {
    hide FitsWishes, FitsTargets;
  }

  /** Start-up gives the probe a manifest exactly when all requirement ids of the other modules are declared, no
      two connections into the probe disagree, and its own connections fit. */
  method SetupProbeModuleManifest(configs: Configs, manifests: Manifests, probe: string)
    returns (result: Option<Manifests>)
    requires OneProbe(configs, manifests, probe)
    ensures result.Some? ==> ConnectionsDeclared(configs, manifests, probe) && AsksAgree(configs, manifests, probe)
    ensures result.Some? ==>
              exists provided, required ::
                && Generated(configs, manifests, probe, provided, required)
                && result.value == WithProbe(manifests, ProvidedOrDummy(provided), WithDefaults(required))
    ensures result.Some? ==> ProbePasses(configs, probe, result.value)
    ensures result.Some? ==> FitsConnections(configs, manifests, probe, result.value)
    ensures result == None ==>
              || !ConnectionsDeclared(configs, manifests, probe) || !AsksAgree(configs, manifests, probe)
              || exists provided ::
                   && Builds(configs, manifests, probe, provided)
                   && !LinksFit(configs, WithProbe(manifests, ProvidedOrDummy(provided), map[]), configs[probe])
  {
    hide ProbePasses, FitsConnections;
    var outcome := CollectProvided(Entries(configs, manifests, probe), probe);
    ProvidingFailsIffAsksDisagree(configs, manifests, probe, outcome);
    if !outcome.Built? {
      return None;
    }
    assert Builds(configs, manifests, probe, outcome.provided);
    var provided := ProvidedOrDummy(outcome.provided);
    var sofar := WithProbe(manifests, provided, map[]);
    var required := CollectRequired(Links(configs, sofar, configs[probe]));
    RequiringSucceedsIffLinksFit(configs, sofar, configs[probe], required);
    if required == None {
      return None;
    }
    assert Generated(configs, manifests, probe, outcome.provided, required.value);
    result := Some(WithProbe(manifests, provided, WithDefaults(required.value)));
    GeneratedPasses(configs, manifests, probe, outcome.provided, required.value);
    GeneratedFits(configs, manifests, probe, outcome.provided, required.value);
  }

  ghost predicate ProbePasses(configs: Configs, probe: string, manifests: Manifests) {
    forall m, r, k: nat :: IsConnection(configs, m, r, k)
                           && (m == probe || configs[m].connections[r][k].moduleId == probe) ==>
      Passes(configs, manifests, m, r, k)
  }
}
