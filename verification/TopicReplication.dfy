/** Error replication when the broker keeps order only within a topic. Each error type has its own
    topic, so messages of different types may overtake each other. */
module TopicReplication {
  import opened OrderedMaps
  import opened ErrorDatabase
  import opened ErrorManagers
  import opened ErrorReplication

  type Topics = map<ErrorType, seq<ErrorMessage>>

  datatype TopicSystem = TopicSystem(provider: Db, topics: Topics, replica: Db)

  const IDLE: TopicSystem := TopicSystem(map[], map[], map[])

  datatype TopicStep = ProviderCall(action: ProviderAction) | DeliveryOn(topic: ErrorType)

  function Queue(topics: Topics, t: ErrorType): seq<ErrorMessage> {
    if t in topics then topics[t] else []
  }

  function Publish(topics: Topics, ms: seq<ErrorMessage>): Topics
    decreases |ms|
  {
    if ms == [] then topics
    else
      var t := ms[0].error.errorType;
      Publish(topics[t := Queue(topics, t) + [ms[0]]], ms[1..])
  }

  ghost function NextOnTopics(cfg: Config, s: TopicSystem, step: TopicStep): TopicSystem {
    match step
    case ProviderCall(a) =>
      var p := Act(cfg, s.provider, a);
      s.(provider := p.db, topics := Publish(s.topics, p.published))
    case DeliveryOn(t) =>
      var q := Queue(s.topics, t);
      if q == [] then s
      else s.(topics := s.topics[t := q[1..]], replica := Receive(cfg.allowed, cfg.typeMap, s.replica, q[0]).db)
  }

  ghost function RunOnTopics(cfg: Config, s: TopicSystem, steps: seq<TopicStep>): TopicSystem
    decreases |steps|
  {
    if steps == [] then s else RunOnTopics(cfg, NextOnTopics(cfg, s, steps[0]), steps[1..])
  }

  ghost function ReplayDb(cfg: Config, db: Db, ms: seq<ErrorMessage>): Db
    decreases |ms|
  {
    if ms == [] then db else ReplayDb(cfg, Receive(cfg.allowed, cfg.typeMap, db, ms[0]).db, ms[1..])
  }

  function OnTopic(ms: seq<ErrorMessage>, t: ErrorType): seq<ErrorMessage> {
    if ms == [] then []
    else (if ms[0].error.errorType == t then [ms[0]] else []) + OnTopic(ms[1..], t)
  }

  ghost function Restrict(db: Db, t: ErrorType): Db {
    map h | h in db && db[h].errorType == t :: db[h]
  }

  /** Which type each handle belongs to: the errors and raises in play never share a handle across types. */
  type HandleOwner = ErrorHandle -> ErrorType

  ghost predicate OwnedDb(owner: HandleOwner, db: Db) {
    Keyed(db) && forall h :: h in db ==> owner(h) == db[h].errorType
  }

  ghost predicate OwnedMessage(owner: HandleOwner, m: ErrorMessage) {
    m.error.state == Active ==> owner(m.error.uuid) == m.error.errorType
  }

  ghost predicate OwnedMessages(owner: HandleOwner, ms: seq<ErrorMessage>) {
    forall i :: 0 <= i < |ms| ==> OwnedMessage(owner, ms[i])
  }

  // ----- types do not interfere -----

  /** A message changes only the part of a replica that holds its own type, and that part as if it were
      the whole database. */
  lemma ReceiveIsLocal(cfg: Config, owner: HandleOwner, db: Db, m: ErrorMessage, t: ErrorType)
    requires OwnedDb(owner, db) && OwnedMessage(owner, m)
    ensures var next := Receive(cfg.allowed, cfg.typeMap, db, m).db;
            && OwnedDb(owner, next)
            && Restrict(next, t) == if m.error.errorType == t
                                    then Receive(cfg.allowed, cfg.typeMap, Restrict(db, t), m).db
                                    else Restrict(db, t)
  {
    var e := m.error;
    if e.errorType in cfg.allowed {
      if e.state != Active {
        ClearIsLocal(owner, db, e, t);
      } else {
        AddIsLocal(owner, db, e, t);
      }
    }
  }

  lemma AddIsLocal(owner: HandleOwner, db: Db, e: Error, t: ErrorType)
    requires OwnedDb(owner, db) && owner(e.uuid) == e.errorType
    ensures OwnedDb(owner, Add(db, e))
    ensures Restrict(Add(db, e), t) == if e.errorType == t then Add(Restrict(db, t), e) else Restrict(db, t)
  {
  }

  lemma ClearIsLocal(owner: HandleOwner, db: Db, e: Error, t: ErrorType)
    requires OwnedDb(owner, db)
    ensures var next := ReplicaCleared(db, e).db;
            && OwnedDb(owner, next)
            && Restrict(next, t) == if e.errorType == t then ReplicaCleared(Restrict(db, t), e).db else Restrict(db, t)
  {
    ClearIsByKey(db, e);
    if e.errorType == t {
      ClearIsByKey(Restrict(db, t), e);
      WithoutKeyIsLocal(db, e, t);
    } else {
      WithoutKeyIsLocal(db, e, t);
    }
  }

  ghost function WithoutKey(db: Db, t: ErrorType, s: ErrorSubType): Db {
    map h | h in db && !HasKey(db[h], t, s) :: db[h]
  }

  lemma WithoutKeyIsLocal(db: Db, e: Error, t: ErrorType)
    ensures Restrict(WithoutKey(db, e.errorType, e.subType), t)
         == if e.errorType == t then WithoutKey(Restrict(db, t), e.errorType, e.subType) else Restrict(db, t)
  {
  }

  lemma ClearIsByKey(db: Db, e: Error)
    requires Keyed(db)
    ensures ReplicaCleared(db, e).db == WithoutKey(db, e.errorType, e.subType)
  {
    RemovalKeepsTheRest(db, KeyFilters(e.errorType, e.subType));
    forall h | h in db
      ensures MatchesAll(KeyFilters(e.errorType, e.subType), db[h]) <==> HasKey(db[h], e.errorType, e.subType)
    {
      KeyFilterMeaning(db[h], e.errorType, e.subType);
    }
  }

  ghost function WithoutErrors(db: Db, t: ErrorType, s: ErrorSubType): Db {
    map h | h in db && !(db[h].errorType == t && db[h].subType == s) :: db[h]
  }

  lemma ClearNotice(db: Db, e: Error)
    requires Keyed(db) && UniqueKeys(db)
    ensures ReplicaCleared(db, e).notice == if Holds(db, e.errorType, e.subType) then Retracted else Silent
  {
    SelectedAtMostOnce(db, e.errorType, e.subType);
    HoldsMeansActive(db, e.errorType, e.subType);
  }

  lemma ClearedDb(db: Db, e: Error)
    requires Keyed(db)
    ensures ReplicaCleared(db, e).db == WithoutErrors(db, e.errorType, e.subType)
  {
    ClearIsByKey(db, e);
    hide ReplicaCleared;
  }

  /** What a requirement does with any message on an error topic: it goes by the state that the error carries. An active
      error is stored if its handle is free, and heard, provided its type is known; a cleared one, by the module or by a
      reboot, takes away every error of its type and sub type, and is heard if there was one. */
  lemma RequirementsGoByTheState(cfg: Config, db: Db, m: ErrorMessage)
    requires Keyed(db) && UniqueKeys(db)
    ensures var e, r := m.error, Receive(cfg.allowed, cfg.typeMap, db, m);
            && (e.errorType !in cfg.allowed ==> r == Reaction(db, Silent))
            && (e.errorType in cfg.allowed && e.state == Active ==>
                  r == if e.errorType !in cfg.typeMap then Reaction(db, Silent)
                       else Reaction(if e.uuid in db then db else db[e.uuid := e], Raised))
            && (e.errorType in cfg.allowed && e.state in {ClearedByModule, ClearedByReboot} ==>
                  r == Reaction(WithoutErrors(db, e.errorType, e.subType),
                                if Holds(db, e.errorType, e.subType) then Retracted else Silent))
  {
    ClearNotice(db, m.error);
    ClearedDb(db, m.error);
    hide ReplicaCleared, WithoutErrors, Holds;
  }

  lemma {:induction false} ReplayIsLocal(cfg: Config, owner: HandleOwner, db: Db, ms: seq<ErrorMessage>, t: ErrorType)
    requires OwnedDb(owner, db) && OwnedMessages(owner, ms)
    ensures Restrict(ReplayDb(cfg, db, ms), t) == ReplayDb(cfg, Restrict(db, t), OnTopic(ms, t))
    decreases |ms|
  {
    if ms != [] {
      assert OwnedMessage(owner, ms[0]);
      ReceiveIsLocal(cfg, owner, db, ms[0], t);
      ReplayIsLocal(cfg, owner, Receive(cfg.allowed, cfg.typeMap, db, ms[0]).db, ms[1..], t);
      if ms[0].error.errorType == t {
        assert OnTopic(ms, t)[1..] == OnTopic(ms[1..], t);
      } else {
        assert OnTopic(ms, t) == OnTopic(ms[1..], t);
      }
    }
  }

  lemma {:induction false} ReplayDbAppends(cfg: Config, db: Db, ms: seq<ErrorMessage>, ns: seq<ErrorMessage>)
    ensures ReplayDb(cfg, db, ms + ns) == ReplayDb(cfg, ReplayDb(cfg, db, ms), ns)
    decreases |ms|
  {
    if ms == [] {
      assert ms + ns == ns;
    } else {
      assert (ms + ns)[1..] == ms[1..] + ns;
      ReplayDbAppends(cfg, Receive(cfg.allowed, cfg.typeMap, db, ms[0]).db, ms[1..], ns);
    }
  }

  lemma {:induction false} ReplayDbIsReplay(cfg: Config, subs: Subscribers, r: Replica, ms: seq<ErrorMessage>)
    ensures Replay(cfg, subs, r, ms).db == ReplayDb(cfg, r.db, ms)
    decreases |ms|
  {
    if ms != [] { ReplayDbIsReplay(cfg, subs, Deliver(cfg, subs, r, ms[0]), ms[1..]); }
  }

  lemma {:induction false} PublishQueues(topics: Topics, ms: seq<ErrorMessage>, t: ErrorType)
    ensures Queue(Publish(topics, ms), t) == Queue(topics, t) + OnTopic(ms, t)
    decreases |ms|
  {
    if ms != [] {
      var u := ms[0].error.errorType;
      PublishQueues(topics[u := Queue(topics, u) + [ms[0]]], ms[1..], t);
    }
  }

  // ----- agreement per topic -----

  ghost predicate TopicFits(cfg: Config, owner: HandleOwner, s: TopicSystem, t: ErrorType) {
    && OwnedMessages(owner, Queue(s.topics, t))
    && (forall i :: 0 <= i < |Queue(s.topics, t)| ==> Queue(s.topics, t)[i].error.errorType == t)
    && ReplayDb(cfg, Restrict(s.replica, t), Queue(s.topics, t)) == Restrict(s.provider, t)
  }

  ghost predicate TopicAgreement(cfg: Config, owner: HandleOwner, s: TopicSystem) {
    && Wellformed(cfg, s.provider)
    && OwnedDb(owner, s.provider)
    && OwnedDb(owner, s.replica)
    && (forall t :: TopicFits(cfg, owner, s, t))
  }

  ghost predicate OwnedStep(cfg: Config, owner: HandleOwner, step: TopicStep) {
    step.ProviderCall? && step.action.DoRaise? && step.action.error.errorType in cfg.allowed ==>
      step.action.error.state == Active && owner(step.action.error.uuid) == step.action.error.errorType
  }

  lemma PublishedAreOwned(cfg: Config, owner: HandleOwner, db: Db, a: ProviderAction)
    requires OwnedStep(cfg, owner, ProviderCall(a))
    ensures OwnedMessages(owner, Act(cfg, db, a).published)
  {
  }

  lemma {:induction false} OnTopicKeeps(owner: HandleOwner, ms: seq<ErrorMessage>, t: ErrorType)
    requires OwnedMessages(owner, ms)
    ensures OwnedMessages(owner, OnTopic(ms, t))
    ensures forall i :: 0 <= i < |OnTopic(ms, t)| ==> OnTopic(ms, t)[i].error.errorType == t
  {
    if ms != [] {
      assert OwnedMessage(owner, ms[0]);
      OnTopicKeeps(owner, ms[1..], t);
    }
  }

  lemma ActKeepsOwned(cfg: Config, owner: HandleOwner, db: Db, a: ProviderAction)
    requires Wellformed(cfg, db) && OwnedDb(owner, db)
    requires OwnedStep(cfg, owner, ProviderCall(a))
    ensures OwnedDb(owner, Act(cfg, db, a).db)
  {
    if !a.DoRaise? { RemovalKeepsTheRest(db, FiltersOf(a)); }
  }

  lemma ProviderCallFits(cfg: Config, owner: HandleOwner, s: TopicSystem, a: ProviderAction, t: ErrorType)
    requires cfg.Valid()
    requires Wellformed(cfg, s.provider) && OwnedDb(owner, s.provider)
    requires OwnedStep(cfg, owner, ProviderCall(a))
    requires TopicFits(cfg, owner, s, t)
    ensures TopicFits(cfg, owner, NextOnTopics(cfg, s, ProviderCall(a)), t)
  {
    var p := Act(cfg, s.provider, a);
    PublishedAreOwned(cfg, owner, s.provider, a);
    OnTopicKeeps(owner, p.published, t);
    PublishQueues(s.topics, p.published, t);
    if RaisesActive(a) {
      ReplayDbAppends(cfg, Restrict(s.replica, t), Queue(s.topics, t), OnTopic(p.published, t));
      ReplayIsLocal(cfg, owner, s.provider, p.published, t);
      ActReplays(cfg, map[], Replica(s.provider, []), a);
      ReplayDbIsReplay(cfg, map[], Replica(s.provider, []), p.published);
    } else {
      assert p == ProviderStep(s.provider, []);
    }
  }

  lemma DeliveryFits(cfg: Config, owner: HandleOwner, s: TopicSystem, on: ErrorType, t: ErrorType)
    requires OwnedDb(owner, s.replica)
    requires TopicFits(cfg, owner, s, on) && TopicFits(cfg, owner, s, t)
    ensures TopicFits(cfg, owner, NextOnTopics(cfg, s, DeliveryOn(on)), t)
    ensures OwnedDb(owner, NextOnTopics(cfg, s, DeliveryOn(on)).replica)
  {
    var q := Queue(s.topics, on);
    if q != [] {
      assert OwnedMessage(owner, q[0]);
      ReceiveIsLocal(cfg, owner, s.replica, q[0], t);
      var next := NextOnTopics(cfg, s, DeliveryOn(on));
      if on == t {
        assert Queue(next.topics, t) == q[1..];
      } else {
        assert Queue(next.topics, t) == Queue(s.topics, t);
      }
    }
  }

  lemma StepKeepsTopicAgreement(cfg: Config, owner: HandleOwner, s: TopicSystem, step: TopicStep)
    requires cfg.Valid()
    requires TopicAgreement(cfg, owner, s)
    requires OwnedStep(cfg, owner, step)
    ensures TopicAgreement(cfg, owner, NextOnTopics(cfg, s, step))
  {
    match step
    case ProviderCall(a) =>
      ActKeepsWellformed(cfg, s.provider, a);
      ActKeepsOwned(cfg, owner, s.provider, a);
      forall t ensures TopicFits(cfg, owner, NextOnTopics(cfg, s, step), t) {
        ProviderCallFits(cfg, owner, s, a, t);
      }
    case DeliveryOn(on) =>
      forall t ensures TopicFits(cfg, owner, NextOnTopics(cfg, s, step), t) {
        DeliveryFits(cfg, owner, s, on, t);
      }
      DeliveryFits(cfg, owner, s, on, on);
  }

  lemma {:induction false} RunKeepsTopicAgreement(cfg: Config, owner: HandleOwner, s: TopicSystem,
                                        steps: seq<TopicStep>)
    requires cfg.Valid()
    requires TopicAgreement(cfg, owner, s)
    requires forall i :: 0 <= i < |steps| ==> OwnedStep(cfg, owner, steps[i])
    ensures TopicAgreement(cfg, owner, RunOnTopics(cfg, s, steps))
    decreases |steps|
  {
    if steps != [] {
      StepKeepsTopicAgreement(cfg, owner, s, steps[0]);
      RunKeepsTopicAgreement(cfg, owner, NextOnTopics(cfg, s, steps[0]), steps[1..]);
    }
  }

  /** With order kept only per topic, and no handle used for two types, a replica whose topics have all
      drained equals the provider database. */
  lemma TopicsDrainToAgreement(cfg: Config, owner: HandleOwner, steps: seq<TopicStep>)
    requires cfg.Valid()
    requires forall i :: 0 <= i < |steps| ==> OwnedStep(cfg, owner, steps[i])
    ensures var end := RunOnTopics(cfg, IDLE, steps);
            AllDrained(end) ==> end.replica == end.provider
  {
    assert TopicAgreement(cfg, owner, IDLE) by {
      forall t ensures TopicFits(cfg, owner, IDLE, t) {}
    }
    RunKeepsTopicAgreement(cfg, owner, IDLE, steps);
    var end := RunOnTopics(cfg, IDLE, steps);
    if AllDrained(end) {
      forall t ensures Restrict(end.replica, t) == Restrict(end.provider, t) {
        assert TopicFits(cfg, owner, end, t);
      }
      SameRestrictions(end.replica, end.provider);
    }
  }

  lemma SameRestrictions(a: Db, b: Db)
    requires forall t :: Restrict(a, t) == Restrict(b, t)
    ensures a == b
  {
    forall h ensures h in a <==> h in b {
      if h in a { assert h in Restrict(a, a[h].errorType); }
      if h in b { assert h in Restrict(b, b[h].errorType); }
    }
    forall h | h in a ensures a[h] == b[h] {
      assert h in Restrict(a, a[h].errorType);
    }
  }

  // ----- and the condition is exact -----

  /** Raises take their errors from a given stock. */
  ghost predicate RaisesFrom(stock: iset<Error>, steps: seq<TopicStep>) {
    forall i :: 0 <= i < |steps| && steps[i].ProviderCall? && steps[i].action.DoRaise? ==>
      steps[i].action.error in stock
  }

  ghost predicate AllDrained(s: TopicSystem) {
    forall t :: Queue(s.topics, t) == []
  }

  ghost predicate AlwaysAgrees(cfg: Config, stock: iset<Error>) {
    forall steps | RaisesFrom(stock, steps) && AllDrained(RunOnTopics(cfg, IDLE, steps)) ::
      RunOnTopics(cfg, IDLE, steps).replica == RunOnTopics(cfg, IDLE, steps).provider
  }

  ghost predicate Raisable(cfg: Config, stock: iset<Error>, e: Error) {
    e in stock && e.errorType in cfg.allowed
  }

  ghost predicate NoHandleOfTwoTypes(cfg: Config, stock: iset<Error>) {
    forall e, f :: Raisable(cfg, stock, e) && Raisable(cfg, stock, f) && e.uuid == f.uuid ==>
      e.errorType == f.errorType
  }

  ghost function OwnerOf(cfg: Config, stock: iset<Error>, h: ErrorHandle): ErrorType {
    if e :| Raisable(cfg, stock, e) && e.uuid == h then e.errorType else ""
  }

  /** Every run that drains leaves replica and provider equal if and only if, among the errors it may raise
      that are of an allowed type, all are active and no two of different types share a handle. */
  lemma DrainsToAgreementIffHandlesApart(cfg: Config, stock: iset<Error>)
    requires cfg.Valid()
    ensures AlwaysAgrees(cfg, stock)
       <==> (forall e :: Raisable(cfg, stock, e) ==> e.state == Active) && NoHandleOfTwoTypes(cfg, stock)
  {
    if AlwaysAgrees(cfg, stock) {
      forall e | Raisable(cfg, stock, e) ensures e.state == Active {
        if e.state != Active {
          InactiveRaiseBreaksAgreement(cfg, e);
          assert RaisesFrom(stock, RaiseAndDeliver(e));
        }
      }
      forall e, f | Raisable(cfg, stock, e) && Raisable(cfg, stock, f) && e.uuid == f.uuid
        ensures e.errorType == f.errorType
      {
        if e.errorType != f.errorType {
          SharedHandleBreaksAgreement(cfg, e, f);
          assert RaisesFrom(stock, OvertakingRun(e, f));
        }
      }
    } else {
      var steps :| RaisesFrom(stock, steps) && AllDrained(RunOnTopics(cfg, IDLE, steps))
        && RunOnTopics(cfg, IDLE, steps).replica != RunOnTopics(cfg, IDLE, steps).provider;
      if (forall e :: Raisable(cfg, stock, e) ==> e.state == Active) && NoHandleOfTwoTypes(cfg, stock) {
        var owner: HandleOwner := h => OwnerOf(cfg, stock, h);
        TopicsDrainToAgreement(cfg, owner, steps);
      }
    }
  }

  function RaiseAndDeliver(e: Error): (steps: seq<TopicStep>)
    ensures |steps| == 2
  {
    [ProviderCall(DoRaise(e)), DeliveryOn(e.errorType)]
  }

  lemma InactiveRaiseBreaksAgreement(cfg: Config, e: Error)
    requires cfg.Valid()
    requires e.errorType in cfg.allowed && e.state != Active
    ensures var end := RunOnTopics(cfg, IDLE, RaiseAndDeliver(e));
            AllDrained(end) && end.provider == map[e.uuid := e] && end.replica == map[]
  {
    var t, m := e.errorType, ErrorMessage(RaiseError, e);
    var raised := TopicSystem(map[e.uuid := e], map[t := [m]], map[]);
    var end := TopicSystem(map[e.uuid := e], map[t := []], map[]);
    RaiseOnIdle(cfg, IDLE, e);
    ClearOnEmpty(cfg, m);
    DeliverHead(cfg, raised, t, m, map[]);
    assert raised.topics[t := []] == end.topics;
    var steps := RaiseAndDeliver(e);
    assert RunOnTopics(cfg, raised, steps[1..]) == end;
  }

  lemma ClearOnEmpty(cfg: Config, m: ErrorMessage)
    requires m.error.state != Active
    ensures Receive(cfg.allowed, cfg.typeMap, map[], m).db == map[]
  {
  }

  /** Any handle shared by two allowed types admits a run that drains
      to an empty replica while the provider still holds an error. */
  lemma SharedHandleBreaksAgreement(cfg: Config, e: Error, f: Error)
    requires cfg.Valid()
    requires e.errorType in cfg.allowed && f.errorType in cfg.allowed
    requires e.errorType != f.errorType && e.uuid == f.uuid
    requires e.state == Active && f.state == Active
    ensures var end := RunOnTopics(cfg, IDLE, OvertakingRun(e, f));
            && AllDrained(end)
            && end.provider == map[f.uuid := f]
            && end.replica == map[]
  {
    hide NextOnTopics, RunOnTopics;
    FirstTypeComesAndGoes(cfg, e, f);
    SecondTypeOvertakes(cfg, e, f);
    LastClearEmptiesReplica(cfg, e, f);
    RunSixSteps(cfg, IDLE, OvertakingRun(e, f), Overtaking(1, e, f), Overtaking(2, e, f), Overtaking(3, e, f),
                Overtaking(4, e, f), Overtaking(5, e, f), Overtaking(6, e, f));
  }

  /** The state after each of the six steps of the run. */
  function Overtaking(n: nat, e: Error, f: Error): TopicSystem {
    var raised, cleared, other :=
      ErrorMessage(RaiseError, e), ErrorMessage(ClearError, Cleared(e)), ErrorMessage(RaiseError, f);
    var withE, withF: Db := map[e.uuid := e], map[f.uuid := f];
    match n
    case 0 => IDLE
    case 1 => TopicSystem(withE, map[e.errorType := [raised]], map[])
    case 2 => TopicSystem(withE, map[e.errorType := []], withE)
    case 3 => TopicSystem(map[], map[e.errorType := [cleared]], withE)
    case 4 => TopicSystem(withF, map[e.errorType := [cleared], f.errorType := [other]], withE)
    case 5 => TopicSystem(withF, map[e.errorType := [cleared], f.errorType := []], withE)
    case _ => TopicSystem(withF, map[e.errorType := [], f.errorType := []], map[])
  }

  lemma FirstTypeComesAndGoes(cfg: Config, e: Error, f: Error)
    requires cfg.Valid() && e.errorType in cfg.allowed && e.state == Active
    ensures NextOnTopics(cfg, IDLE, ProviderCall(DoRaise(e))) == Overtaking(1, e, f)
    ensures NextOnTopics(cfg, Overtaking(1, e, f), DeliveryOn(e.errorType)) == Overtaking(2, e, f)
    ensures NextOnTopics(cfg, Overtaking(2, e, f), ProviderCall(DoClear(e.errorType, e.subType))) == Overtaking(3, e, f)
  {
    RaiseOnIdle(cfg, IDLE, e);
    DeliverHead(cfg, Overtaking(1, e, f), e.errorType, ErrorMessage(RaiseError, e), map[e.uuid := e]);
    ClearTheOnlyOne(cfg, Overtaking(2, e, f), e);
  }

  lemma SecondTypeOvertakes(cfg: Config, e: Error, f: Error)
    requires cfg.Valid() && f.errorType in cfg.allowed && f.state == Active
    requires e.errorType != f.errorType && e.uuid == f.uuid
    ensures NextOnTopics(cfg, Overtaking(3, e, f), ProviderCall(DoRaise(f))) == Overtaking(4, e, f)
    ensures NextOnTopics(cfg, Overtaking(4, e, f), DeliveryOn(f.errorType)) == Overtaking(5, e, f)
  {
    RaiseOnIdle(cfg, Overtaking(3, e, f), f);
    DeliverHead(cfg, Overtaking(4, e, f), f.errorType, ErrorMessage(RaiseError, f), map[e.uuid := e]);
    assert Overtaking(4, e, f).topics[f.errorType := []] == Overtaking(5, e, f).topics;
  }

  lemma LastClearEmptiesReplica(cfg: Config, e: Error, f: Error)
    requires e.errorType in cfg.allowed && e.errorType != f.errorType
    ensures NextOnTopics(cfg, Overtaking(5, e, f), DeliveryOn(e.errorType)) == Overtaking(6, e, f)
  {
    ClearOfTheOnlyOne(cfg, e);
    DeliverHead(cfg, Overtaking(5, e, f), e.errorType, ErrorMessage(ClearError, Cleared(e)), map[]);
    assert Overtaking(5, e, f).topics[e.errorType := []] == Overtaking(6, e, f).topics;
  }

  lemma ClearOfTheOnlyOne(cfg: Config, e: Error)
    requires e.errorType in cfg.allowed
    ensures Receive(cfg.allowed, cfg.typeMap, map[e.uuid := e], ErrorMessage(ClearError, Cleared(e))).db == map[]
  {
    StoredIsSelected(map[e.uuid := e], e);
    EraseOne(map[e.uuid := e], e);
  }

  lemma DeliverHead(cfg: Config, s: TopicSystem, t: ErrorType, m: ErrorMessage, after: Db)
    requires Queue(s.topics, t) == [m]
    requires Receive(cfg.allowed, cfg.typeMap, s.replica, m).db == after
    ensures NextOnTopics(cfg, s, DeliveryOn(t)) == TopicSystem(s.provider, s.topics[t := []], after)
  {
    assert [m][1..] == [];
  }

  lemma ClearTheOnlyOne(cfg: Config, s: TopicSystem, e: Error)
    requires s.provider == map[e.uuid := e] && Queue(s.topics, e.errorType) == []
    ensures NextOnTopics(cfg, s, ProviderCall(DoClear(e.errorType, e.subType)))
         == TopicSystem(map[], s.topics[e.errorType := [ErrorMessage(ClearError, Cleared(e))]], s.replica)
  {
    StoredIsSelected(s.provider, e);
    EraseOne(s.provider, e);
    assert ClearMessages([e]) == [ErrorMessage(ClearError, Cleared(e))];
    var m := ErrorMessage(ClearError, Cleared(e));
    PublishOne(s.topics, m);
    assert Queue(s.topics, e.errorType) + [m] == [m];
  }

  lemma RaiseOnIdle(cfg: Config, s: TopicSystem, e: Error)
    requires s.provider == map[]
    requires e.errorType in cfg.allowed && Queue(s.topics, e.errorType) == []
    ensures NextOnTopics(cfg, s, ProviderCall(DoRaise(e)))
         == TopicSystem(map[e.uuid := e], s.topics[e.errorType := [ErrorMessage(RaiseError, e)]], s.replica)
  {
    var m := ErrorMessage(RaiseError, e);
    PublishOne(s.topics, m);
    assert Queue(s.topics, e.errorType) + [m] == [m];
  }

  function OvertakingRun(e: Error, f: Error): (steps: seq<TopicStep>)
    ensures |steps| == 6
  {
    [ProviderCall(DoRaise(e)), DeliveryOn(e.errorType), ProviderCall(DoClear(e.errorType, e.subType)),
     ProviderCall(DoRaise(f)), DeliveryOn(f.errorType), DeliveryOn(e.errorType)]
  }

  lemma PublishOne(topics: Topics, m: ErrorMessage)
    ensures Publish(topics, [m]) == topics[m.error.errorType := Queue(topics, m.error.errorType) + [m]]
  {
    assert [m][1..] == [];
  }

  lemma RunSixSteps(cfg: Config, s0: TopicSystem, steps: seq<TopicStep>, s1: TopicSystem, s2: TopicSystem,
                    s3: TopicSystem, s4: TopicSystem, s5: TopicSystem, s6: TopicSystem)
    requires |steps| == 6
    requires s1 == NextOnTopics(cfg, s0, steps[0]) && s2 == NextOnTopics(cfg, s1, steps[1])
    requires s3 == NextOnTopics(cfg, s2, steps[2]) && s4 == NextOnTopics(cfg, s3, steps[3])
    requires s5 == NextOnTopics(cfg, s4, steps[4]) && s6 == NextOnTopics(cfg, s5, steps[5])
    ensures RunOnTopics(cfg, s0, steps) == s6
  {
    assert RunOnTopics(cfg, s5, steps[5..]) == s6;
    assert RunOnTopics(cfg, s4, steps[4..]) == s6;
    assert RunOnTopics(cfg, s3, steps[3..]) == s6;
    assert RunOnTopics(cfg, s2, steps[2..]) == s6;
    assert RunOnTopics(cfg, s1, steps[1..]) == s6;
  }
}
