/** Error replication as a protocol: one provider, the messages in flight, and the replica kept by the
    one requirement connected to it, over every run. */
module ErrorReplication {
  import opened OrderedMaps
  import opened ErrorDatabase
  import opened ErrorManagers

  /** Both sides derive their allowed types from the same interface; every one has a description. */
  datatype Config = Config(allowed: seq<ErrorType>, typeMap: set<ErrorType>) {
    ghost predicate Valid() {
      forall t :: t in allowed ==> t in typeMap
    }
  }

  datatype ProviderAction =
    | DoRaise(error: Error)
    | DoClear(errorType: ErrorType, subType: ErrorSubType)
    | DoClearAll
    | DoClearAllOfType(errorType: ErrorType)

  /** What a provider does in one call of its error manager (type validation is on). */
  ghost function Act(cfg: Config, db: Db, a: ProviderAction): ProviderStep {
    match a
    case DoRaise(e) => Raise(cfg.allowed, true, db, e)
    case DoClear(t, s) => Clear(db, KeyFilters(t, s))
    case DoClearAll => Clear(db, [])
    case DoClearAllOfType(t) => Clear(db, [TypeFilter(t)])
  }

  /** Errors are raised in the state the error factory gives them. */
  predicate RaisesActive(a: ProviderAction) {
    a.DoRaise? ==> a.error.state == Active
  }

  type Subscribers = map<ErrorType, seq<Subscription>>

  datatype Replica = Replica(db: Db, calls: seq<Call>)

  ghost function Deliver(cfg: Config, subs: Subscribers, r: Replica, m: ErrorMessage): Replica {
    var reaction := Receive(cfg.allowed, cfg.typeMap, r.db, m);
    Replica(reaction.db, r.calls + Announce(SubscriptionsOf(subs, m.error.errorType), reaction.notice, m.error))
  }

  ghost function Replay(cfg: Config, subs: Subscribers, r: Replica, ms: seq<ErrorMessage>): Replica
    decreases |ms|
  {
    if ms == [] then r else Replay(cfg, subs, Deliver(cfg, subs, r, ms[0]), ms[1..])
  }

  datatype System = System(provider: Db, inFlight: seq<ErrorMessage>, replica: Replica)

  const START: System := System(map[], [], Replica(map[], []))

  datatype Step = Provider(action: ProviderAction) | Delivery

  ghost function Next(cfg: Config, subs: Subscribers, s: System, step: Step): System {
    match step
    case Provider(a) =>
      var p := Act(cfg, s.provider, a);
      s.(provider := p.db, inFlight := s.inFlight + p.published)
    case Delivery =>
      if s.inFlight == [] then s
      else s.(inFlight := s.inFlight[1..], replica := Deliver(cfg, subs, s.replica, s.inFlight[0]))
  }

  ghost function Run(cfg: Config, subs: Subscribers, s: System, steps: seq<Step>): System
    decreases |steps|
  {
    if steps == [] then s else Run(cfg, subs, Next(cfg, subs, s, steps[0]), steps[1..])
  }

  /** The replica once everything in flight has arrived. */
  ghost function Drained(cfg: Config, subs: Subscribers, s: System): Replica {
    Replay(cfg, subs, s.replica, s.inFlight)
  }

  /** An error of the type and sub type is stored. */
  ghost predicate Holds(db: Db, t: ErrorType, s: ErrorSubType) {
    exists h :: h in db && db[h].errorType == t && db[h].subType == s
  }

  lemma HoldsMeansActive(db: Db, t: ErrorType, s: ErrorSubType)
    ensures Holds(db, t, s) <==> IsActive(db, t, s)
  {
    assert forall h :: h in db ==> (HasKey(db[h], t, s) <==> db[h].errorType == t && db[h].subType == s);
  }

  // ----- the provider invariant -----

  ghost predicate Wellformed(cfg: Config, db: Db) {
    && Keyed(db)
    && UniqueKeys(db)
    && (forall h :: h in db ==> db[h].errorType in cfg.allowed)
  }

  /** Every call keeps handles as keys, at most one error per key, and only allowed types. */
  lemma ActKeepsWellformed(cfg: Config, db: Db, a: ProviderAction)
    requires Wellformed(cfg, db)
    ensures Wellformed(cfg, Act(cfg, db, a).db)
  {
    hide Wellformed;
    match a
    case DoRaise(e) => RaiseKeepsWellformed(cfg, db, e);
    case DoClear(t, s) => ClearKeepsWellformed(cfg, db, KeyFilters(t, s));
    case DoClearAll => ClearKeepsWellformed(cfg, db, []);
    case DoClearAllOfType(t) => ClearKeepsWellformed(cfg, db, [TypeFilter(t)]);
  }

  lemma RaiseKeepsWellformed(cfg: Config, db: Db, e: Error)
    requires Wellformed(cfg, db)
    ensures Wellformed(cfg, Raise(cfg.allowed, true, db, e).db)
  {
  }

  lemma ClearKeepsWellformed(cfg: Config, db: Db, filters: seq<ErrorFilter>)
    requires Wellformed(cfg, db)
    ensures Wellformed(cfg, Clear(db, filters).db)
  {
    RemovalKeepsTheRest(db, filters);
    hide Select, MatchesAll;
  }

  /** A clear that succeeds removes exactly one error and publishes exactly its clear message. */
  lemma SuccessfulClearIsOneError(cfg: Config, db: Db, t: ErrorType, s: ErrorSubType)
    requires Wellformed(cfg, db)
    requires IsActive(db, t, s)
    ensures exists h :: && h in db && HasKey(db[h], t, s)
                        && Act(cfg, db, DoClear(t, s))
                           == ProviderStep(db - {h}, [ErrorMessage(ClearError, Cleared(db[h]))])
  {
    var res := Select(db, KeyFilters(t, s));
    SelectedAtMostOnce(db, t, s);
    SelectIsExact(db, KeyFilters(t, s));
    assert res[0] in res;
    KeyFilterMeaning(res[0], t, s);
    var h := res[0].uuid;
    EraseOne(db, res[0]);
    assert res == [res[0]];
    assert ClearMessages(res) == [ErrorMessage(ClearError, Cleared(db[h]))];
  }

  lemma EraseOne(db: Db, e: Error)
    ensures Erase(db, [e]) == db - {e.uuid}
  {
    var xs := [e];
    EraseContents(db, xs);
    assert xs[0] in xs;
  }

  // ----- replaying what was published -----

  lemma {:induction false} ReplayAppends(cfg: Config, subs: Subscribers, r: Replica, ms: seq<ErrorMessage>,
                                        ns: seq<ErrorMessage>)
    ensures Replay(cfg, subs, r, ms + ns) == Replay(cfg, subs, Replay(cfg, subs, r, ms), ns)
    decreases |ms|
  {
    if ms == [] {
      assert ms + ns == ns;
    } else {
      assert (ms + ns)[1..] == ms[1..] + ns;
      ReplayAppends(cfg, subs, Deliver(cfg, subs, r, ms[0]), ms[1..], ns);
    }
  }

  /** Stored errors, listed in handle order. */
  ghost predicate StoredInOrder(db: Db, xs: seq<Error>) {
    && (forall e :: e in xs ==> e.uuid in db && db[e.uuid] == e)
    && Increasing(StringLess, Handles(xs))
  }

  lemma RestIsStoredInOrder(db: Db, xs: seq<Error>)
    requires xs != []
    requires StoredInOrder(db, xs)
    ensures xs[0].uuid in db && db[xs[0].uuid] == xs[0]
    ensures StoredInOrder(db - {xs[0].uuid}, xs[1..])
  {
    assert xs[0] in xs;
    assert Handles(xs)[1..] == Handles(xs[1..]);
    forall x | x in xs[1..] ensures x in xs && x.uuid != xs[0].uuid {
      var i :| 0 <= i < |xs[1..]| && xs[1..][i] == x;
      assert StringLess(Handles(xs)[0], Handles(xs)[i + 1]);
      StringLessIrreflexive(xs[0].uuid);
    }
  }

  lemma EraseHeadThenRest(db: Db, xs: seq<Error>)
    requires xs != []
    ensures Erase(db - {xs[0].uuid}, xs[1..]) == Erase(db, xs)
  {
    EraseContents(db, xs);
    EraseContents(db - {xs[0].uuid}, xs[1..]);
    assert forall x :: x in xs <==> x == xs[0] || x in xs[1..];
  }

  lemma StoredIsSelected(db: Db, e: Error)
    requires Keyed(db) && UniqueKeys(db)
    requires e.uuid in db && db[e.uuid] == e
    ensures Select(db, KeyFilters(e.errorType, e.subType)) == [e]
  {
    SelectedAtMostOnce(db, e.errorType, e.subType);
    StoredIsInSelection(db, e);
    OnlyElement(Select(db, KeyFilters(e.errorType, e.subType)), e);
  }

  lemma OnlyElement<T>(xs: seq<T>, x: T)
    requires |xs| <= 1 && x in xs
    ensures xs == [x]
  {
  }

  lemma StoredIsInSelection(db: Db, e: Error)
    requires Keyed(db)
    requires e.uuid in db && db[e.uuid] == e
    ensures e in Select(db, KeyFilters(e.errorType, e.subType))
  {
    SelectIsExact(db, KeyFilters(e.errorType, e.subType));
    KeyFilterMeaning(e, e.errorType, e.subType);
  }

  /** A replica that holds an error drops exactly it when its clear message arrives. */
  lemma ClearOfStored(cfg: Config, db: Db, e: Error)
    requires Wellformed(cfg, db)
    requires e.uuid in db && db[e.uuid] == e
    ensures Receive(cfg.allowed, cfg.typeMap, db, ErrorMessage(ClearError, Cleared(e)))
         == Reaction(db - {e.uuid}, Retracted)
    ensures Wellformed(cfg, db - {e.uuid})
  {
    StoredIsSelected(db, e);
    EraseOne(db, e);
  }

  lemma ReplayFirst(cfg: Config, subs: Subscribers, r: Replica, xs: seq<Error>)
    requires xs != []
    ensures var next := Deliver(cfg, subs, r, ErrorMessage(ClearError, Cleared(xs[0])));
            Replay(cfg, subs, r, ClearMessages(xs)) == Replay(cfg, subs, next, ClearMessages(xs[1..]))
  {
    assert ClearMessages(xs)[1..] == ClearMessages(xs[1..]);
  }

  /** Replaying the clear messages of stored errors removes exactly these errors. */
  lemma {:induction false} ReplayClears(cfg: Config, subs: Subscribers, r: Replica, xs: seq<Error>)
    requires Wellformed(cfg, r.db)
    requires StoredInOrder(r.db, xs)
    ensures Replay(cfg, subs, r, ClearMessages(xs)).db == Erase(r.db, xs)
    decreases |xs|
  {
    if xs == [] {
      EraseNothing(r.db);
    } else {
      RestIsStoredInOrder(r.db, xs);
      ClearOfStored(cfg, r.db, xs[0]);
      ReplayFirst(cfg, subs, r, xs);
      ReplayClears(cfg, subs, Deliver(cfg, subs, r, ErrorMessage(ClearError, Cleared(xs[0]))), xs[1..]);
      EraseHeadThenRest(r.db, xs);
    }
  }

  ghost function FiltersOf(a: ProviderAction): seq<ErrorFilter>
    requires !a.DoRaise?
  {
    match a
    case DoClear(t, s) => KeyFilters(t, s)
    case DoClearAll => []
    case DoClearAllOfType(t) => [TypeFilter(t)]
  }

  /** One provider call: a replica in agreement stays in agreement once the call's messages arrive. */
  lemma ActReplays(cfg: Config, subs: Subscribers, r: Replica, a: ProviderAction)
    requires cfg.Valid()
    requires Wellformed(cfg, r.db)
    requires RaisesActive(a)
    ensures Replay(cfg, subs, r, Act(cfg, r.db, a).published).db == Act(cfg, r.db, a).db
  {
    if a.DoRaise? {
      var step := Act(cfg, r.db, a);
      if step.published != [] {
        assert step.published[1..] == [];
      }
    } else {
      var xs := Select(r.db, FiltersOf(a));
      SelectIsExact(r.db, FiltersOf(a));
      ReplayClears(cfg, subs, r, xs);
    }
  }

  // ----- agreement over every run -----

  ghost predicate Agreement(cfg: Config, subs: Subscribers, s: System) {
    Wellformed(cfg, s.provider) && Drained(cfg, subs, s).db == s.provider
  }

  lemma StepKeepsAgreement(cfg: Config, subs: Subscribers, s: System, step: Step)
    requires cfg.Valid()
    requires Agreement(cfg, subs, s)
    requires step.Provider? ==> RaisesActive(step.action)
    ensures Agreement(cfg, subs, Next(cfg, subs, s, step))
  {
    if step.Provider? {
      var p := Act(cfg, s.provider, step.action);
      ActKeepsWellformed(cfg, s.provider, step.action);
      ReplayAppends(cfg, subs, s.replica, s.inFlight, p.published);
      ActReplays(cfg, subs, Drained(cfg, subs, s), step.action);
    }
  }

  lemma {:induction false} RunKeepsAgreement(cfg: Config, subs: Subscribers, s: System, steps: seq<Step>)
    requires cfg.Valid()
    requires Agreement(cfg, subs, s)
    requires forall i :: 0 <= i < |steps| && steps[i].Provider? ==> RaisesActive(steps[i].action)
    ensures Agreement(cfg, subs, Run(cfg, subs, s, steps))
    decreases |steps|
  {
    if steps != [] {
      StepKeepsAgreement(cfg, subs, s, steps[0]);
      RunKeepsAgreement(cfg, subs, Next(cfg, subs, s, steps[0]), steps[1..]);
    }
  }

  /** Replica agreement: after any calls and deliveries whatever, reused handles included, replaying the
      messages in flight on the replica gives exactly the provider database. */
  lemma ReplicaAgreement(cfg: Config, subs: Subscribers, steps: seq<Step>)
    requires cfg.Valid()
    requires forall i :: 0 <= i < |steps| && steps[i].Provider? ==> RaisesActive(steps[i].action)
    ensures var s := Run(cfg, subs, START, steps);
            && Wellformed(cfg, s.provider)
            && Drained(cfg, subs, s).db == s.provider
  {
    RunKeepsAgreement(cfg, subs, START, steps);
  }

  ghost function Deliveries(n: nat): seq<Step> {
    if n == 0 then [] else [Delivery] + Deliveries(n - 1)
  }

  /** As many deliveries as there are messages empty the channel and reach the drained replica. */
  lemma {:induction false} DeliveriesDrain(cfg: Config, subs: Subscribers, s: System)
    ensures Run(cfg, subs, s, Deliveries(|s.inFlight|)) == System(s.provider, [], Drained(cfg, subs, s))
    decreases |s.inFlight|
  {
    if s.inFlight != [] {
      assert Deliveries(|s.inFlight|)[1..] == Deliveries(|s.inFlight| - 1);
      DeliveriesDrain(cfg, subs, Next(cfg, subs, s, Delivery));
    }
  }

  /** Once the channel is empty the two state monitors answer alike, for every type and sub type and
      every list of conditions. */
  lemma MonitorsAgree(cfg: Config, subs: Subscribers, steps: seq<Step>)
    requires cfg.Valid()
    requires forall i :: 0 <= i < |steps| && steps[i].Provider? ==> RaisesActive(steps[i].action)
    ensures var s := Run(cfg, subs, START, steps);
            var end := Run(cfg, subs, s, Deliveries(|s.inFlight|));
            && end.inFlight == []
            && (forall t, sub :: IsActive(end.provider, t, sub) <==> IsActive(end.replica.db, t, sub))
            && (forall c :: Satisfies(end.provider, c) <==> Satisfies(end.replica.db, c))
            && Listing(end.provider) == Listing(end.replica.db)
  {
    ReplicaAgreement(cfg, subs, steps);
    DeliveriesDrain(cfg, subs, Run(cfg, subs, START, steps));
  }

  /** The receiver looks at the state an error carries, so raising needs `Active`: from agreement, the
      databases agree again after a raise exactly when the raise was refused, its handle was already
      taken (and the database dropped it), or the error is active. */
  lemma RaiseNeedsActiveState(cfg: Config, subs: Subscribers, r: Replica, e: Error)
    requires cfg.Valid()
    requires Wellformed(cfg, r.db)
    ensures var step := Act(cfg, r.db, DoRaise(e));
            Replay(cfg, subs, r, step.published).db == step.db
            <==> (RaiseIsRefused(cfg.allowed, true, r.db, e) || e.uuid in r.db || e.state == Active)
  {
    var step := Act(cfg, r.db, DoRaise(e));
    if e.state == Active {
      ActReplays(cfg, subs, r, DoRaise(e));
    } else if !RaiseIsRefused(cfg.allowed, true, r.db, e) {
      assert step.published[1..] == [];
      var res := Select(r.db, KeyFilters(e.errorType, e.subType));
      ActiveMeansSelected(r.db, e.errorType, e.subType);
      assert res == [];
      EraseNothing(r.db);
      assert Replay(cfg, subs, r, step.published).db == r.db;
    }
  }

  // ----- what a subscriber hears -----

  /** The callbacks one subscriber got for one key: true for its raise, false for its clear callback. */
  ghost function Heard(calls: seq<Call>, who: nat, t: ErrorType, s: ErrorSubType): seq<bool> {
    if calls == [] then []
    else
      (if calls[0].subscriber == who && HasKey(calls[0].error, t, s) then [calls[0].raised] else [])
      + Heard(calls[1..], who, t, s)
  }

  /** Strictly alternating, starting with a raise. */
  ghost predicate Alternates(bs: seq<bool>) {
    forall i :: 0 <= i < |bs| ==> (bs[i] <==> i % 2 == 0)
  }

  ghost function Entries(subs: seq<Subscription>, who: nat): nat {
    if subs == [] then 0 else (if subs[0].subscriber == who then 1 else 0) + Entries(subs[1..], who)
  }

  ghost predicate EnrolledOnce(subs: seq<Subscription>, who: nat) {
    Entries(subs, who) == 1
  }

  lemma {:induction false} HeardAppends(a: seq<Call>, b: seq<Call>, who: nat, t: ErrorType, s: ErrorSubType)
    ensures Heard(a + b, who, t, s) == Heard(a, who, t, s) + Heard(b, who, t, s)
  {
    if a == [] {
      assert a + b == b;
    } else {
      assert (a + b)[1..] == a[1..] + b;
      HeardAppends(a[1..], b, who, t, s);
    }
  }

  lemma {:induction false} StrangersHearNothing(subs: seq<Subscription>, raised: bool, e: Error, who: nat,
                                        t: ErrorType, s: ErrorSubType)
    requires Entries(subs, who) == 0
    ensures Heard(CallsTo(subs, raised, e), who, t, s) == []
  {
    if subs != [] {
      assert CallsTo(subs, raised, e)[1..] == CallsTo(subs[1..], raised, e);
      StrangersHearNothing(subs[1..], raised, e, who, t, s);
    }
  }

  lemma {:induction false} EnrolledHearOnce(subs: seq<Subscription>, raised: bool, e: Error, who: nat, t: ErrorType,
                                        s: ErrorSubType)
    requires EnrolledOnce(subs, who)
    ensures Heard(CallsTo(subs, raised, e), who, t, s) == if HasKey(e, t, s) then [raised] else []
  {
    assert CallsTo(subs, raised, e)[1..] == CallsTo(subs[1..], raised, e);
    if subs[0].subscriber == who {
      StrangersHearNothing(subs[1..], raised, e, who, t, s);
    } else {
      EnrolledHearOnce(subs[1..], raised, e, who, t, s);
    }
  }

  /** For each key of type `t`: what was heard alternates, and ends with a raise exactly when the key is
      active. */
  ghost predicate TraceFits(r: Replica, who: nat, t: ErrorType) {
    forall s :: FitsAt(r, who, t, s)
  }

  ghost predicate FitsAt(r: Replica, who: nat, t: ErrorType, s: ErrorSubType) {
    Tracks(Heard(r.calls, who, t, s), IsActive(r.db, t, s))
  }

  /** An alternation whose last callback tells whether the key is active. */
  ghost predicate Tracks(bs: seq<bool>, active: bool) {
    Alternates(bs) && (|bs| % 2 == 1 <==> active)
  }

  /** A trace keeps tracking its key when it grows by nothing and the key keeps its state, or grows by the
      one callback that flips the key. */
  lemma TracksOn(bs: seq<bool>, active: bool, news: seq<bool>, next: bool)
    requires Tracks(bs, active)
    requires (news == [] && next == active) || (news == [!active] && next == !active)
    ensures Tracks(bs + news, next)
  {
  }

  /** A raise that is accepted although its handle is taken. */
  ghost predicate HandleClash(cfg: Config, db: Db, a: ProviderAction) {
    a.DoRaise? && !RaiseIsRefused(cfg.allowed, true, db, a.error) && a.error.uuid in db
  }

  ghost function HeardFrom(r: Reaction, e: Error, t: ErrorType, s: ErrorSubType): seq<bool> {
    if r.notice != Silent && HasKey(e, t, s) then [r.notice == Raised] else []
  }

  lemma DeliveryIsHeard(cfg: Config, subs: Subscribers, r: Replica, m: ErrorMessage, who: nat, t: ErrorType,
                        s: ErrorSubType)
    requires EnrolledOnce(SubscriptionsOf(subs, t), who)
    ensures Heard(Deliver(cfg, subs, r, m).calls, who, t, s)
         == Heard(r.calls, who, t, s)
            + (if m.error.errorType == t
               then HeardFrom(Receive(cfg.allowed, cfg.typeMap, r.db, m), m.error, t, s)
               else [])
  {
    var reaction := Receive(cfg.allowed, cfg.typeMap, r.db, m);
    var mine := SubscriptionsOf(subs, m.error.errorType);
    var news := Announce(mine, reaction.notice, m.error);
    HeardAppends(r.calls, news, who, t, s);
    if m.error.errorType == t {
      if reaction.notice != Silent {
        EnrolledHearOnce(mine, reaction.notice == Raised, m.error, who, t, s);
      }
    } else {
      OtherTypesAreNotHeard(mine, reaction.notice, m.error, who, t, s);
    }
  }

  lemma OtherTypesAreNotHeard(subs: seq<Subscription>, notice: Notice, e: Error, who: nat, t: ErrorType,
                              s: ErrorSubType)
    requires e.errorType != t
    ensures Heard(Announce(subs, notice, e), who, t, s) == []
  {
    if notice != Silent { OtherTypesInCalls(subs, notice == Raised, e, who, t, s); }
  }

  lemma {:induction false} OtherTypesInCalls(subs: seq<Subscription>, raised: bool, e: Error, who: nat, t: ErrorType,
                                        s: ErrorSubType)
    requires e.errorType != t
    ensures Heard(CallsTo(subs, raised, e), who, t, s) == []
  {
    if subs != [] {
      assert CallsTo(subs, raised, e)[1..] == CallsTo(subs[1..], raised, e);
      OtherTypesInCalls(subs[1..], raised, e, who, t, s);
    }
  }

  /** Delivering the clear of a stored error flips its key from active to inactive, in trace and database. */
  lemma ClearKeepsTrace(cfg: Config, subs: Subscribers, r: Replica, e: Error, who: nat, t: ErrorType)
    requires Wellformed(cfg, r.db)
    requires e.uuid in r.db && r.db[e.uuid] == e
    requires EnrolledOnce(SubscriptionsOf(subs, t), who)
    requires TraceFits(r, who, t)
    ensures TraceFits(Deliver(cfg, subs, r, ErrorMessage(ClearError, Cleared(e))), who, t)
  {
    forall s ensures FitsAt(Deliver(cfg, subs, r, ErrorMessage(ClearError, Cleared(e))), who, t, s) {
      assert FitsAt(r, who, t, s);
      ClearFits(cfg, subs, r, e, who, t, s);
    }
  }

  lemma ClearFits(cfg: Config, subs: Subscribers, r: Replica, e: Error, who: nat, t: ErrorType, s: ErrorSubType)
    requires Wellformed(cfg, r.db)
    requires e.uuid in r.db && r.db[e.uuid] == e
    requires EnrolledOnce(SubscriptionsOf(subs, t), who)
    requires FitsAt(r, who, t, s)
    ensures FitsAt(Deliver(cfg, subs, r, ErrorMessage(ClearError, Cleared(e))), who, t, s)
  {
    var m := ErrorMessage(ClearError, Cleared(e));
    ClearOfStored(cfg, r.db, e);
    DeliveryIsHeard(cfg, subs, r, m, who, t, s);
    RemovalDeactivates(r.db, e, t, s);
    TracksOn(Heard(r.calls, who, t, s), IsActive(r.db, t, s),
             if HasKey(e, t, s) then [false] else [], IsActive(r.db - {e.uuid}, t, s));
  }

  lemma RemovalDeactivates(db: Db, e: Error, t: ErrorType, s: ErrorSubType)
    requires UniqueKeys(db)
    requires e.uuid in db && db[e.uuid] == e
    ensures HasKey(e, t, s) ==> IsActive(db, t, s)
    ensures IsActive(db - {e.uuid}, t, s) <==> IsActive(db, t, s) && !HasKey(e, t, s)
  {
    if !HasKey(e, t, s) && IsActive(db, t, s) {
      var h :| h in db && HasKey(db[h], t, s);
      assert h in db - {e.uuid};
    }
  }

  lemma {:induction false} ClearsKeepTrace(cfg: Config, subs: Subscribers, r: Replica, xs: seq<Error>, who: nat,
                                        t: ErrorType)
    requires Wellformed(cfg, r.db)
    requires StoredInOrder(r.db, xs)
    requires EnrolledOnce(SubscriptionsOf(subs, t), who)
    requires TraceFits(r, who, t)
    ensures TraceFits(Replay(cfg, subs, r, ClearMessages(xs)), who, t)
    decreases |xs|
  {
    if xs != [] {
      RestIsStoredInOrder(r.db, xs);
      ClearOfStored(cfg, r.db, xs[0]);
      ClearKeepsTrace(cfg, subs, r, xs[0], who, t);
      ReplayFirst(cfg, subs, r, xs);
      ClearsKeepTrace(cfg, subs, Deliver(cfg, subs, r, ErrorMessage(ClearError, Cleared(xs[0]))), xs[1..], who, t);
    }
  }

  /** From a fitting trace, an accepted raise keeps the traces of its own type fitting exactly when its
      handle is free: with a taken handle subscribers are told of an error the databases drop. */
  lemma RaiseKeepsTraceIffHandleFree(cfg: Config, subs: Subscribers, r: Replica, e: Error, who: nat)
    requires cfg.Valid()
    requires Wellformed(cfg, r.db)
    requires e.state == Active
    requires EnrolledOnce(SubscriptionsOf(subs, e.errorType), who)
    requires TraceFits(r, who, e.errorType)
    ensures TraceFits(Replay(cfg, subs, r, Act(cfg, r.db, DoRaise(e)).published), who, e.errorType)
       <==> !HandleClash(cfg, r.db, DoRaise(e))
  {
    var t := e.errorType;
    var step := Act(cfg, r.db, DoRaise(e));
    if step.published != [] {
      var m := ErrorMessage(RaiseError, e);
      var next := Deliver(cfg, subs, r, m);
      assert step.published[1..] == [];
      assert Replay(cfg, subs, r, step.published) == next;
      forall s ensures Heard(next.calls, who, t, s)
                    == Heard(r.calls, who, t, s) + if HasKey(e, t, s) then [true] else [] {
        DeliveryIsHeard(cfg, subs, r, m, who, t, s);
      }
      if HandleClash(cfg, r.db, DoRaise(e)) {
        assert next.db == r.db && !IsActive(r.db, t, e.subType);
        assert FitsAt(r, who, t, e.subType);
        assert |Heard(next.calls, who, t, e.subType)| == |Heard(r.calls, who, t, e.subType)| + 1;
        assert !FitsAt(next, who, t, e.subType);
      } else {
        forall s ensures FitsAt(next, who, t, s) {
          assert FitsAt(r, who, t, s);
          AddActivates(r.db, e, t, s);
          TracksOn(Heard(r.calls, who, t, s), IsActive(r.db, t, s),
                   if HasKey(e, t, s) then [true] else [], IsActive(next.db, t, s));
        }
      }
    }
  }

  lemma AddActivates(db: Db, e: Error, t: ErrorType, s: ErrorSubType)
    requires e.uuid !in db
    ensures IsActive(Add(db, e), t, s) <==> HasKey(e, t, s) || IsActive(db, t, s)
  {
    var next := Add(db, e);
    if HasKey(e, t, s) {
      assert HasKey(next[e.uuid], t, s);
    } else if IsActive(db, t, s) {
      var h :| h in db && HasKey(db[h], t, s);
      assert HasKey(next[h], t, s);
    }
  }

  lemma RaiseOfOtherType(cfg: Config, subs: Subscribers, r: Replica, e: Error, who: nat, t: ErrorType)
    requires cfg.Valid()
    requires e.state == Active && e.errorType != t
    requires EnrolledOnce(SubscriptionsOf(subs, t), who)
    requires TraceFits(r, who, t)
    ensures TraceFits(Replay(cfg, subs, r, Act(cfg, r.db, DoRaise(e)).published), who, t)
  {
    var step := Act(cfg, r.db, DoRaise(e));
    if step.published != [] {
      var m := ErrorMessage(RaiseError, e);
      var next := Deliver(cfg, subs, r, m);
      assert step.published[1..] == [];
      forall s ensures FitsAt(next, who, t, s) {
        assert FitsAt(r, who, t, s);
        DeliveryIsHeard(cfg, subs, r, m, who, t, s);
        if e.uuid !in r.db { AddActivates(r.db, e, t, s); }
      }
    }
  }

  ghost predicate NoHandleClash(cfg: Config, subs: Subscribers, s: System, steps: seq<Step>)
    decreases |steps|
  {
    steps != [] ==>
      && (steps[0].Provider? ==> !HandleClash(cfg, s.provider, steps[0].action))
      && NoHandleClash(cfg, subs, Next(cfg, subs, s, steps[0]), steps[1..])
  }

  lemma {:induction false} RunKeepsTrace(cfg: Config, subs: Subscribers, s: System, steps: seq<Step>, who: nat,
                                        t: ErrorType)
    requires cfg.Valid()
    requires Agreement(cfg, subs, s)
    requires forall i :: 0 <= i < |steps| && steps[i].Provider? ==> RaisesActive(steps[i].action)
    requires NoHandleClash(cfg, subs, s, steps)
    requires EnrolledOnce(SubscriptionsOf(subs, t), who)
    requires TraceFits(Drained(cfg, subs, s), who, t)
    ensures TraceFits(Drained(cfg, subs, Run(cfg, subs, s, steps)), who, t)
    decreases |steps|
  {
    if steps != [] {
      StepKeepsAgreement(cfg, subs, s, steps[0]);
      if steps[0].Provider? {
        ActKeepsTrace(cfg, subs, Drained(cfg, subs, s), steps[0].action, who, t);
        ReplayAppends(cfg, subs, s.replica, s.inFlight, Act(cfg, s.provider, steps[0].action).published);
      }
      RunKeepsTrace(cfg, subs, Next(cfg, subs, s, steps[0]), steps[1..], who, t);
    }
  }

  lemma ActKeepsTrace(cfg: Config, subs: Subscribers, r: Replica, a: ProviderAction, who: nat, t: ErrorType)
    requires cfg.Valid()
    requires Wellformed(cfg, r.db)
    requires RaisesActive(a) && !HandleClash(cfg, r.db, a)
    requires EnrolledOnce(SubscriptionsOf(subs, t), who)
    requires TraceFits(r, who, t)
    ensures TraceFits(Replay(cfg, subs, r, Act(cfg, r.db, a).published), who, t)
  {
    if a.DoRaise? {
      if a.error.errorType == t {
        RaiseKeepsTraceIffHandleFree(cfg, subs, r, a.error, who);
      } else {
        RaiseOfOtherType(cfg, subs, r, a.error, who, t);
      }
    } else {
      SelectIsExact(r.db, FiltersOf(a));
      ClearsKeepTrace(cfg, subs, r, Select(r.db, FiltersOf(a)), who, t);
    }
  }

  lemma {:induction false} ReplayExtendsCalls(cfg: Config, subs: Subscribers, r: Replica, ms: seq<ErrorMessage>)
    ensures r.calls <= Replay(cfg, subs, r, ms).calls
    decreases |ms|
  {
    if ms != [] { ReplayExtendsCalls(cfg, subs, Deliver(cfg, subs, r, ms[0]), ms[1..]); }
  }

  /** Whoever subscribed once before the run hears, for each sub type of that type, raise and clear in
      strict alternation, although the replica never checks for duplicates itself. */
  lemma SubscribersHearAlternation(cfg: Config, subs: Subscribers, steps: seq<Step>, who: nat, t: ErrorType,
                                   s: ErrorSubType)
    requires cfg.Valid()
    requires forall i :: 0 <= i < |steps| && steps[i].Provider? ==> RaisesActive(steps[i].action)
    requires NoHandleClash(cfg, subs, START, steps)
    requires EnrolledOnce(SubscriptionsOf(subs, t), who)
    ensures var end := Run(cfg, subs, START, steps);
            && Alternates(Heard(end.replica.calls, who, t, s))
            && (end.inFlight == [] ==>
                  (|Heard(end.replica.calls, who, t, s)| % 2 == 1 <==> IsActive(end.provider, t, s)))
  {
    var end := Run(cfg, subs, START, steps);
    assert TraceFits(Drained(cfg, subs, START), who, t);
    RunKeepsTrace(cfg, subs, START, steps, who, t);
    assert FitsAt(Drained(cfg, subs, end), who, t, s);
    RunKeepsAgreement(cfg, subs, START, steps);
    ReplayExtendsCalls(cfg, subs, end.replica, end.inFlight);
    HeardPrefixAlternates(end.replica.calls, Drained(cfg, subs, end).calls, who, t, s);
  }

  lemma HeardPrefixAlternates(calls: seq<Call>, all: seq<Call>, who: nat, t: ErrorType, s: ErrorSubType)
    requires calls <= all
    requires Alternates(Heard(all, who, t, s))
    ensures Alternates(Heard(calls, who, t, s))
  {
    assert all == calls + all[|calls|..];
    HeardAppends(calls, all[|calls|..], who, t, s);
    assert forall i :: 0 <= i < |Heard(calls, who, t, s)| ==> Heard(calls, who, t, s)[i] == Heard(all, who, t, s)[i];
  }

  /** Runs that never use a handle twice have no clash. */
  lemma {:induction false} FreshHandlesDoNotClash(cfg: Config, subs: Subscribers, s: System, steps: seq<Step>)
    requires Keyed(s.provider)
    requires forall i :: 0 <= i < |steps| && steps[i].Provider? && steps[i].action.DoRaise?
               ==> steps[i].action.error.uuid !in s.provider
    requires forall i, j :: 0 <= i < j < |steps| && RaisedHandle(steps[i]) != [] && RaisedHandle(steps[j]) != []
               ==> RaisedHandle(steps[i]) != RaisedHandle(steps[j])
    ensures NoHandleClash(cfg, subs, s, steps)
    decreases |steps|
  {
    if steps != [] {
      var next := Next(cfg, subs, s, steps[0]);
      forall i | 0 <= i < |steps[1..]| && steps[1..][i].Provider? && steps[1..][i].action.DoRaise?
        ensures steps[1..][i].action.error.uuid !in next.provider
      {
        assert steps[1..][i] == steps[i + 1];
        assert RaisedHandle(steps[i + 1]) == [steps[i + 1].action.error.uuid];
        if RaisedHandle(steps[0]) != [] {
          assert RaisedHandle(steps[0]) != RaisedHandle(steps[i + 1]);
        } else if steps[0].Provider? {
          RemovalKeepsTheRest(s.provider, FiltersOf(steps[0].action));
        }
      }
      if steps[0].Provider? && !steps[0].action.DoRaise? {
        RemovalKeepsTheRest(s.provider, FiltersOf(steps[0].action));
      }
      FreshHandlesDoNotClash(cfg, subs, next, steps[1..]);
    }
  }

  ghost function RaisedHandle(step: Step): seq<ErrorHandle> {
    if step.Provider? && step.action.DoRaise? then [step.action.error.uuid] else []
  }
}
