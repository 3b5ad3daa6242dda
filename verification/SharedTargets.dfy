/** All requirements of one module together: each has its own copy of the errors of the implementation it is connected
    to, and several may be connected to the same one. */
module SharedTargets {
  import opened ErrorDatabase
  import opened ErrorManagers
  import opened ErrorReplication
  import opened ErrorRouting
  import opened Requirements
  import MessageHandling

  /** A requirement in the order of set-up: where it is connected, and who subscribed to its error manager. */
  datatype Listener = Listener(target: Target, subs: Subscribers)

  /** `configs` gives the error types of each implementation's interface; requirements are only connected to
      implementations of their own interface. */
  datatype Wiring = Wiring(base: string, listeners: seq<Listener>, configs: map<Target, Config>) {
    ghost predicate Valid() {
      && (forall t :: t in configs ==>
            && configs[t].Valid()
            && Clean(base, t.moduleId, t.implementationId)
            && forall e :: e in configs[t].allowed ==> CleanType(e))
      && forall k :: 0 <= k < |listeners| ==> listeners[k].target in configs
    }

    function ConfigOf(t: Target): Config {
      if t in configs then configs[t] else Config([], {})
    }

    function Links(): (links: seq<Link>)
      ensures |links| == |listeners|
      ensures forall k :: 0 <= k < |links| ==>
        links[k] == Link(listeners[k].target, ConfigOf(listeners[k].target).allowed)
    {
      seq(|listeners|, k requires 0 <= k < |listeners| =>
        Link(listeners[k].target, ConfigOf(listeners[k].target).allowed))
    }

    /** The requirements that run for an error type of an implementation. */
    function Hearing(t: Target, errorType: ErrorType): seq<nat> {
      MessageHandling.ErrorRecipients(HandlersOf(base, Links()), TypeTopic(base, t, errorType))
    }
  }

  datatype Sent = Sent(target: Target, message: ErrorMessage)

  datatype ModuleState = ModuleState(providers: map<Target, Db>, inFlight: seq<Sent>, replicas: seq<Replica>) {
    function DbOf(t: Target): Db {
      if t in providers then providers[t] else map[]
    }
  }

  datatype ModuleStep = CallOf(target: Target, action: ProviderAction) | Arrival

  const NEW_REPLICA: Replica := Replica(map[], [])

  function SetUp(w: Wiring): ModuleState {
    ModuleState(map[], [], seq(|w.listeners|, _ => NEW_REPLICA))
  }

  function SentBy(t: Target, ms: seq<ErrorMessage>): (r: seq<Sent>)
    ensures |r| == |ms|
    ensures forall i :: 0 <= i < |r| ==> r[i] == Sent(t, ms[i])
  {
    seq(|ms|, i requires 0 <= i < |ms| => Sent(t, ms[i]))
  }

  ghost function DeliverTo(w: Wiring, rs: seq<Replica>, k: nat, m: ErrorMessage): (r: seq<Replica>)
    ensures |r| == |rs|
  {
    if k < |rs| && k < |w.listeners| then
      var l := w.listeners[k];
      rs[k := Deliver(w.ConfigOf(l.target), l.subs, rs[k], m)]
    else rs
  }

  ghost function DeliverAll(w: Wiring, rs: seq<Replica>, hs: seq<nat>, m: ErrorMessage): (r: seq<Replica>)
    ensures |r| == |rs|
    decreases |hs|
  {
    if hs == [] then rs else DeliverAll(w, DeliverTo(w, rs, hs[0], m), hs[1..], m)
  }

  ghost function NextInModule(w: Wiring, s: ModuleState, step: ModuleStep): ModuleState {
    match step
    case CallOf(t, a) =>
      var p := Act(w.ConfigOf(t), s.DbOf(t), a);
      s.(providers := s.providers[t := p.db], inFlight := s.inFlight + SentBy(t, p.published))
    case Arrival =>
      if s.inFlight == [] then s
      else
        var first := s.inFlight[0];
        var hs := w.Hearing(first.target, first.message.error.errorType);
        s.(inFlight := s.inFlight[1..], replicas := DeliverAll(w, s.replicas, hs, first.message))
  }

  ghost function RunInModule(w: Wiring, s: ModuleState, steps: seq<ModuleStep>): ModuleState
    decreases |steps|
  {
    if steps == [] then s else RunInModule(w, NextInModule(w, s, steps[0]), steps[1..])
  }

  /** A later requirement is connected to the same implementation, and the interface has errors. */
  ghost predicate Superseded(w: Wiring, k: nat)
    requires k < |w.listeners|
  {
    && w.ConfigOf(w.listeners[k].target).allowed != []
    && exists j :: k < j < |w.listeners| && w.listeners[j].target == w.listeners[k].target
  }

  // ----- what every run keeps -----

  ghost predicate Sound(w: Wiring, s: ModuleState) {
    && |s.replicas| == |w.listeners|
    && (forall t :: Wellformed(w.ConfigOf(t), s.DbOf(t)))
    && (forall i :: 0 <= i < |s.inFlight| ==>
          s.inFlight[i].message.error.errorType in w.ConfigOf(s.inFlight[i].target).allowed)
  }

  lemma PublishedAreAllowed(cfg: Config, db: Db, a: ProviderAction)
    requires Wellformed(cfg, db)
    ensures forall i :: 0 <= i < |Act(cfg, db, a).published| ==>
      Act(cfg, db, a).published[i].error.errorType in cfg.allowed
  {
    if !a.DoRaise? {
      var xs := Select(db, FiltersOf(a));
      SelectIsExact(db, FiltersOf(a));
      assert forall i :: 0 <= i < |xs| ==> xs[i] in xs;
    }
  }

  lemma StepKeepsSound(w: Wiring, s: ModuleState, step: ModuleStep)
    requires Sound(w, s)
    ensures Sound(w, NextInModule(w, s, step))
  {
    hide Wellformed, Act;
    match step
    case CallOf(t, a) =>
      ActKeepsWellformed(w.ConfigOf(t), s.DbOf(t), a);
      PublishedAreAllowed(w.ConfigOf(t), s.DbOf(t), a);
    case Arrival =>
  }

  lemma LinksAreClean(w: Wiring)
    requires w.Valid()
    ensures AllClean(w.base, w.Links())
  {
  }

  /** Of the requirements connected to an implementation the last one runs for its messages, and no other. */
  lemma LastListenerHears(w: Wiring, t: Target, errorType: ErrorType)
    requires w.Valid()
    requires errorType in w.ConfigOf(t).allowed
    ensures var hs := w.Hearing(t, errorType);
            && |hs| <= 1
            && (forall k: nat :: k < |w.listeners| ==>
                  (hs == [k] <==> w.listeners[k].target == t && !Superseded(w, k)))
            && (forall k: nat :: hs == [k] ==> k < |w.listeners|)
  {
    hide HandlersOf, TypeTopic, CleanType, LastFor;
    var links := w.Links();
    LinksAreClean(w);
    LastRequirementHearsAlone(w.base, links, t, errorType);
    LastForIsLast(links, t, errorType);
    assert forall k: nat :: k < |links| ==> (Wants(links[k], t, errorType) <==> w.listeners[k].target == t);
  }

  // ----- one requirement of many runs as if it were the only one -----

  /** What was sent by one implementation. */
  function Mine(sent: seq<Sent>, t: Target): seq<ErrorMessage>
    decreases |sent|
  {
    if sent == [] then []
    else (if sent[0].target == t then [sent[0].message] else []) + Mine(sent[1..], t)
  }

  lemma {:induction false} MineConcat(a: seq<Sent>, b: seq<Sent>, t: Target)
    ensures Mine(a + b, t) == Mine(a, t) + Mine(b, t)
    decreases |a|
  {
    if a == [] {
      assert a + b == b;
    } else {
      assert (a + b)[1..] == a[1..] + b;
      MineConcat(a[1..], b, t);
    }
  }

  lemma {:induction false} MineOfOne(t: Target, ms: seq<ErrorMessage>, u: Target)
    ensures Mine(SentBy(t, ms), u) == if t == u then ms else []
    decreases |ms|
  {
    if ms != [] {
      assert SentBy(t, ms)[1..] == SentBy(t, ms[1..]);
      MineOfOne(t, ms[1..], u);
    }
  }

  /** The module as one requirement and its implementation see it. */
  function View(w: Wiring, s: ModuleState, k: nat): System
    requires k < |w.listeners| && k < |s.replicas|
  {
    var t := w.listeners[k].target;
    System(s.DbOf(t), Mine(s.inFlight, t), s.replicas[k])
  }

  function StepsSeen(w: Wiring, s: ModuleState, step: ModuleStep, k: nat): seq<Step>
    requires k < |w.listeners|
  {
    var mine := w.listeners[k].target;
    match step
    case CallOf(t, a) => if t == mine then [Provider(a)] else []
    case Arrival => if s.inFlight != [] && s.inFlight[0].target == mine then [Delivery] else []
  }

  lemma ReplicaAfterArrival(w: Wiring, s: ModuleState, k: nat)
    requires w.Valid() && Sound(w, s)
    requires k < |w.listeners|
    requires s.inFlight != []
    ensures |NextInModule(w, s, Arrival).replicas| == |s.replicas|
    ensures var first, l := s.inFlight[0], w.listeners[k];
            NextInModule(w, s, Arrival).replicas[k]
            == if first.target == l.target && !Superseded(w, k)
               then Deliver(w.ConfigOf(l.target), l.subs, s.replicas[k], first.message)
               else s.replicas[k]
  {
    hide Deliver, Wiring.Valid, Wiring.Hearing, Superseded;
    var first := s.inFlight[0];
    var hs := w.Hearing(first.target, first.message.error.errorType);
    LastListenerHears(w, first.target, first.message.error.errorType);
    if hs != [] {
      assert hs == [hs[0]] && hs[1..] == [];
      assert DeliverAll(w, s.replicas, hs, first.message) == DeliverTo(w, s.replicas, hs[0], first.message);
    }
  }

  lemma CallSeen(w: Wiring, s: ModuleState, t: Target, a: ProviderAction, k: nat)
    requires Sound(w, s)
    requires k < |w.listeners|
    ensures var l, next := w.listeners[k], NextInModule(w, s, CallOf(t, a));
            && |next.replicas| == |w.listeners|
            && View(w, next, k)
            == if t == l.target then Next(w.ConfigOf(t), l.subs, View(w, s, k), Provider(a)) else View(w, s, k)
  {
    var published := Act(w.ConfigOf(t), s.DbOf(t), a).published;
    hide Act;
    MineConcat(s.inFlight, SentBy(t, published), w.listeners[k].target);
    MineOfOne(t, published, w.listeners[k].target);
  }

  lemma ArrivalSeen(w: Wiring, s: ModuleState, k: nat)
    requires w.Valid() && Sound(w, s)
    requires k < |w.listeners| && !Superseded(w, k)
    requires s.inFlight != []
    ensures var l, next := w.listeners[k], NextInModule(w, s, Arrival);
            && |next.replicas| == |w.listeners|
            && View(w, next, k)
            == if s.inFlight[0].target == l.target then Next(w.ConfigOf(l.target), l.subs, View(w, s, k), Delivery)
               else View(w, s, k)
  {
    StepKeepsSound(w, s, Arrival);
    hide Deliver, Wiring.Valid, Wiring.Hearing, Superseded, DeliverAll;
    ReplicaAfterArrival(w, s, k);
    var t := w.listeners[k].target;
    assert Mine(s.inFlight, t)
        == (if s.inFlight[0].target == t then [s.inFlight[0].message] else []) + Mine(s.inFlight[1..], t);
  }

  lemma StepIsSeen(w: Wiring, s: ModuleState, step: ModuleStep, k: nat)
    requires w.Valid() && Sound(w, s)
    requires k < |w.listeners| && !Superseded(w, k)
    ensures Sound(w, NextInModule(w, s, step))
    ensures var l := w.listeners[k];
            View(w, NextInModule(w, s, step), k)
            == Run(w.ConfigOf(l.target), l.subs, View(w, s, k), StepsSeen(w, s, step, k))
  {
    StepKeepsSound(w, s, step);
    hide Next, View, Superseded, Wiring.Valid, Sound;
    if step.CallOf? {
      CallSeen(w, s, step.target, step.action, k);
      assert [Provider(step.action)][1..] == [];
    } else if s.inFlight != [] {
      ArrivalSeen(w, s, k);
      assert [Delivery][1..] == [];
    }
  }

  lemma {:induction false} RunConcat(cfg: Config, subs: Subscribers, s: System, a: seq<Step>, b: seq<Step>)
    ensures Run(cfg, subs, s, a + b) == Run(cfg, subs, Run(cfg, subs, s, a), b)
    decreases |a|
  {
    if a == [] {
      assert a + b == b;
    } else {
      assert (a + b)[1..] == a[1..] + b;
      RunConcat(cfg, subs, Next(cfg, subs, s, a[0]), a[1..], b);
    }
  }

  ghost function RunSeen(w: Wiring, s: ModuleState, steps: seq<ModuleStep>, k: nat): seq<Step>
    requires k < |w.listeners|
    decreases |steps|
  {
    if steps == [] then []
    else StepsSeen(w, s, steps[0], k) + RunSeen(w, NextInModule(w, s, steps[0]), steps[1..], k)
  }

  ghost predicate RaisesAreActive(steps: seq<ModuleStep>) {
    forall i :: 0 <= i < |steps| && steps[i].CallOf? ==> RaisesActive(steps[i].action)
  }

  ghost predicate SeenRaisesAreActive(steps: seq<Step>) {
    forall i :: 0 <= i < |steps| && steps[i].Provider? ==> RaisesActive(steps[i].action)
  }

  lemma {:induction false} SeenRaises(w: Wiring, s: ModuleState, steps: seq<ModuleStep>, k: nat)
    requires k < |w.listeners|
    requires RaisesAreActive(steps)
    ensures SeenRaisesAreActive(RunSeen(w, s, steps, k))
    decreases |steps|
  {
    hide NextInModule, RaisesActive;
    if steps != [] { SeenRaises(w, NextInModule(w, s, steps[0]), steps[1..], k); }
  }

  lemma {:induction false} RunIsSeen(w: Wiring, s: ModuleState, steps: seq<ModuleStep>, k: nat)
    requires w.Valid() && Sound(w, s)
    requires k < |w.listeners| && !Superseded(w, k)
    ensures Sound(w, RunInModule(w, s, steps))
    ensures var l := w.listeners[k];
            View(w, RunInModule(w, s, steps), k)
            == Run(w.ConfigOf(l.target), l.subs, View(w, s, k), RunSeen(w, s, steps, k))
    decreases |steps|
  {
    hide NextInModule, View, Superseded, Wiring.Valid, Wellformed, StepsSeen, Next;
    if steps != [] {
      var l, next := w.listeners[k], NextInModule(w, s, steps[0]);
      StepIsSeen(w, s, steps[0], k);
      RunIsSeen(w, next, steps[1..], k);
      RunConcat(w.ConfigOf(l.target), l.subs, View(w, s, k), StepsSeen(w, s, steps[0], k),
                RunSeen(w, next, steps[1..], k));
    }
  }

  lemma SetUpIsSound(w: Wiring)
    ensures Sound(w, SetUp(w))
    ensures forall k :: 0 <= k < |w.listeners| ==> View(w, SetUp(w), k) == START
  {
  }

  /** Whatever the other implementations and requirements do, the last requirement connected to an implementation and
      that implementation make a run of the protocol of one provider and one requirement. */
  lemma LastListenerRunsAlone(w: Wiring, steps: seq<ModuleStep>, k: nat)
    requires w.Valid()
    requires k < |w.listeners| && !Superseded(w, k)
    requires RaisesAreActive(steps)
    ensures |RunInModule(w, SetUp(w), steps).replicas| == |w.listeners|
    ensures var l := w.listeners[k];
            exists seen :: SeenRaisesAreActive(seen)
              && View(w, RunInModule(w, SetUp(w), steps), k) == Run(w.ConfigOf(l.target), l.subs, START, seen)
  {
    SetUpIsSound(w);
    RunIsSeen(w, SetUp(w), steps, k);
    SeenRaises(w, SetUp(w), steps, k);
  }

  // ----- a superseded requirement hears nothing -----

  lemma {:induction false} SupersededHearsNothing(w: Wiring, s: ModuleState, steps: seq<ModuleStep>, k: nat)
    requires w.Valid() && Sound(w, s)
    requires k < |w.listeners| && Superseded(w, k)
    ensures Sound(w, RunInModule(w, s, steps))
    ensures RunInModule(w, s, steps).replicas[k] == s.replicas[k]
    decreases |steps|
  {
    if steps != [] {
      StepKeepsSound(w, s, steps[0]);
      if steps[0].Arrival? && s.inFlight != [] { ReplicaAfterArrival(w, s, k); }
      SupersededHearsNothing(w, NextInModule(w, s, steps[0]), steps[1..], k);
    }
  }

  // ----- when all requirements agree with their implementations -----

  /** With nothing in flight the copy of requirement `k` is the database of its implementation, in every run. */
  ghost predicate AlwaysInAgreement(w: Wiring, k: nat)
    requires k < |w.listeners|
  {
    forall steps | RaisesAreActive(steps) && RunInModule(w, SetUp(w), steps).inFlight == [] ::
      Agrees(w, RunInModule(w, SetUp(w), steps), k)
  }

  ghost predicate Agrees(w: Wiring, s: ModuleState, k: nat)
    requires k < |w.listeners|
  {
    k < |s.replicas| && s.replicas[k].db == s.DbOf(w.listeners[k].target)
  }

  lemma LastListenerAgrees(w: Wiring, steps: seq<ModuleStep>, k: nat)
    requires w.Valid()
    requires k < |w.listeners| && !Superseded(w, k)
    requires RaisesAreActive(steps)
    requires RunInModule(w, SetUp(w), steps).inFlight == []
    ensures Agrees(w, RunInModule(w, SetUp(w), steps), k)
  {
    LastListenerRunsAlone(w, steps, k);
    var l, end := w.listeners[k], RunInModule(w, SetUp(w), steps);
    var cfg := w.ConfigOf(l.target);
    var seen :| SeenRaisesAreActive(seen) && View(w, end, k) == Run(cfg, l.subs, START, seen);
    ReplicaAgreement(cfg, l.subs, seen);
  }

  function AnError(t: Target, errorType: ErrorType): Error {
    Error(errorType, "", "", "", Origin(t.moduleId, t.implementationId, []), "", High, 0, "h", Active)
  }

  function RaiseOne(t: Target, errorType: ErrorType): seq<ModuleStep> {
    [CallOf(t, DoRaise(AnError(t, errorType))), Arrival]
  }

  lemma RaiseOneDrains(w: Wiring, t: Target, errorType: ErrorType)
    requires w.Valid()
    requires errorType in w.ConfigOf(t).allowed
    ensures var end := RunInModule(w, SetUp(w), RaiseOne(t, errorType));
            end.inFlight == [] && end.DbOf(t) != map[]
  {
    var e, s := AnError(t, errorType), SetUp(w);
    var first := NextInModule(w, s, CallOf(t, DoRaise(e)));
    RaiseOnNothing(w.ConfigOf(t), e);
    assert first.DbOf(t) == map[e.uuid := e] && |first.inFlight| == 1;
    assert map[e.uuid := e] != map[];
    var second := NextInModule(w, first, Arrival);
    var steps := RaiseOne(t, errorType);
    assert steps[1..] == [Arrival] && [Arrival][1..] == [];
    assert RunInModule(w, s, steps) == second;
  }

  lemma RaiseOnNothing(cfg: Config, e: Error)
    requires e.errorType in cfg.allowed
    ensures var p := Act(cfg, map[], DoRaise(e));
            p.db == map[e.uuid := e] && |p.published| == 1
  {
  }

  /** A requirement agrees with its implementation after every run that drains if and only if no later requirement is
      connected to the same implementation (or its interface has no errors). */
  lemma AgreesIffNotSuperseded(w: Wiring, k: nat)
    requires w.Valid()
    requires k < |w.listeners|
    ensures AlwaysInAgreement(w, k) <==> !Superseded(w, k)
  {
    if Superseded(w, k) {
      var t := w.listeners[k].target;
      var steps := RaiseOne(t, w.ConfigOf(t).allowed[0]);
      RaiseOneDrains(w, t, w.ConfigOf(t).allowed[0]);
      SetUpIsSound(w);
      SupersededHearsNothing(w, SetUp(w), steps, k);
      assert RaisesAreActive(steps);
      assert !Agrees(w, RunInModule(w, SetUp(w), steps), k);
    } else {
      forall steps | RaisesAreActive(steps) && RunInModule(w, SetUp(w), steps).inFlight == []
        ensures Agrees(w, RunInModule(w, SetUp(w), steps), k)
      {
        LastListenerAgrees(w, steps, k);
      }
    }
  }

  ghost predicate NoSharedTarget(w: Wiring) {
    forall j, k :: 0 <= j < k < |w.listeners| && w.listeners[j].target == w.listeners[k].target ==>
      w.ConfigOf(w.listeners[j].target).allowed == []
  }

  /** All requirements of a module agree with their implementations over every run if and only if no two are connected
      to the same implementation of an interface with errors. */
  lemma AllAgreeIffNoSharedTarget(w: Wiring)
    requires w.Valid()
    ensures (forall k: nat :: k < |w.listeners| ==> AlwaysInAgreement(w, k)) <==> NoSharedTarget(w)
  {
    forall k: nat | k < |w.listeners| ensures AlwaysInAgreement(w, k) <==> !Superseded(w, k) {
      AgreesIffNotSuperseded(w, k);
    }
    NoneSuperseded(w);
  }

  lemma NoneSuperseded(w: Wiring)
    ensures (forall k: nat :: k < |w.listeners| ==> !Superseded(w, k)) <==> NoSharedTarget(w)
  {
    if forall k: nat :: k < |w.listeners| ==> !Superseded(w, k) {
      forall j, k | 0 <= j < k < |w.listeners| && w.listeners[j].target == w.listeners[k].target
        ensures w.ConfigOf(w.listeners[j].target).allowed == []
      {
        assert !Superseded(w, j);
      }
    }
  }
}
