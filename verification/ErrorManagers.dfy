/** The three error managers and the state monitor: what each call does to its database, what it
    publishes, and which callbacks it runs. */
module ErrorManagers {
  import opened OrderedMaps
  import opened ErrorDatabase

  datatype MessageKind = RaiseError | ClearError

  /** A message on the error topic of `error.errorType`. */
  datatype ErrorMessage = ErrorMessage(kind: MessageKind, error: Error)

  function KeyFilters(t: ErrorType, s: ErrorSubType): seq<ErrorFilter> {
    [TypeFilter(t), SubTypeFilter(s)]
  }

  function OriginFilters(t: ErrorType, s: ErrorSubType, o: Origin): seq<ErrorFilter> {
    [TypeFilter(t), SubTypeFilter(s), OriginFilter(o)]
  }

  predicate HasKey(e: Error, t: ErrorType, s: ErrorSubType) {
    e.errorType == t && e.subType == s
  }

  ghost predicate IsActive(db: Db, t: ErrorType, s: ErrorSubType) {
    exists h :: h in db && HasKey(db[h], t, s)
  }

  /** At most one stored error per type and sub type. */
  ghost predicate UniqueKeys(db: Db) {
    forall g, h :: g in db && h in db && HasKey(db[g], db[h].errorType, db[h].subType) ==> g == h
  }

  lemma KeyFilterMeaning(e: Error, t: ErrorType, s: ErrorSubType)
    ensures MatchesAll(KeyFilters(t, s), e) <==> HasKey(e, t, s)
  {
    var fs := KeyFilters(t, s);
    assert fs[0] == TypeFilter(t) && fs[1] == SubTypeFilter(s);
  }

  lemma ActiveMeansSelected(db: Db, t: ErrorType, s: ErrorSubType)
    requires Keyed(db)
    ensures Select(db, KeyFilters(t, s)) != [] <==> IsActive(db, t, s)
  {
    var res := Select(db, KeyFilters(t, s));
    SelectIsExact(db, KeyFilters(t, s));
    if res != [] {
      assert res[0] in res;
      KeyFilterMeaning(res[0], t, s);
    }
    if IsActive(db, t, s) {
      var h :| h in db && HasKey(db[h], t, s);
      KeyFilterMeaning(db[h], t, s);
      assert db[h] in res;
    }
  }

  /** With unique keys a query by type and sub type finds one error if that key is active, else none. */
  lemma SelectedAtMostOnce(db: Db, t: ErrorType, s: ErrorSubType)
    requires Keyed(db) && UniqueKeys(db)
    ensures |Select(db, KeyFilters(t, s))| == if IsActive(db, t, s) then 1 else 0
  {
    var res := Select(db, KeyFilters(t, s));
    SelectIsExact(db, KeyFilters(t, s));
    ActiveMeansSelected(db, t, s);
    if |res| > 1 {
      assert res[0] in res && res[1] in res;
      KeyFilterMeaning(res[0], t, s);
      KeyFilterMeaning(res[1], t, s);
      assert res[0].uuid == res[1].uuid;
      assert StringLess(Handles(res)[0], Handles(res)[1]);
      StringLessIrreflexive(res[0].uuid);
    }
  }

  // ----- the provider -----

  datatype ProviderStep = ProviderStep(db: Db, published: seq<ErrorMessage>)

  function Cleared(e: Error): Error {
    e.(state := ClearedByModule)
  }

  function AllCleared(xs: seq<Error>): (r: seq<Error>)
    ensures |r| == |xs|
  {
    seq(|xs|, i requires 0 <= i < |xs| => Cleared(xs[i]))
  }

  function ClearMessages(xs: seq<Error>): (r: seq<ErrorMessage>)
    ensures |r| == |xs|
  {
    seq(|xs|, i requires 0 <= i < |xs| => ErrorMessage(ClearError, Cleared(xs[i])))
  }

  lemma ClearMessagesOneMore(xs: seq<Error>, i: nat)
    requires i < |xs|
    ensures ClearMessages(xs[..i + 1]) == ClearMessages(xs[..i]) + [ErrorMessage(ClearError, Cleared(xs[i]))]
  {
  }

  ghost predicate RaiseIsRefused(allowed: seq<ErrorType>, validate: bool, db: Db, e: Error) {
    (validate && e.errorType !in allowed) || IsActive(db, e.errorType, e.subType)
  }

  /** Raising publishes whenever it is not refused, even if the database then drops a reused handle. */
  ghost function Raise(allowed: seq<ErrorType>, validate: bool, db: Db, e: Error): ProviderStep {
    if RaiseIsRefused(allowed, validate, db, e) then ProviderStep(db, [])
    else ProviderStep(Add(db, e), [ErrorMessage(RaiseError, e)])
  }

  /** Every clearing operation removes what its filters select and publishes one message for each. */
  ghost function Clear(db: Db, filters: seq<ErrorFilter>): ProviderStep {
    ProviderStep(Erase(db, Select(db, filters)), ClearMessages(Select(db, filters)))
  }

  class ErrorManagerImpl {
    const database: ErrorDatabaseMap
    const allowedErrorTypes: seq<ErrorType>
    const validateErrorTypes: bool
    var published: seq<ErrorMessage>

    ghost predicate Valid()
      reads this, database
    {
      database.Valid() && UniqueKeys(database.errors)
    }

    constructor (database: ErrorDatabaseMap, allowedErrorTypes: seq<ErrorType>, validateErrorTypes: bool)
      requires database.Valid() && UniqueKeys(database.errors)
      ensures Valid() && published == []
      ensures this.database == database
      ensures this.allowedErrorTypes == allowedErrorTypes && this.validateErrorTypes == validateErrorTypes
    {
      this.database := database;
      this.allowedErrorTypes := allowedErrorTypes;
      this.validateErrorTypes := validateErrorTypes;
      published := [];
    }

    method RaiseError(error: Error)
      requires Valid()
      modifies this, database
      ensures Valid()
      ensures var step := Raise(allowedErrorTypes, validateErrorTypes, old(database.errors), error);
              && database.errors == step.db
              && published == old(published) + step.published
      ensures var db := old(database.errors);
              var accepted :=
                && (validateErrorTypes ==> error.errorType in allowedErrorTypes)
                && forall h :: h in db ==> !(db[h].errorType == error.errorType && db[h].subType == error.subType);
              && published == old(published) + (if accepted then [ErrorMessage(MessageKind.RaiseError, error)] else [])
              && database.errors == if accepted && error.uuid !in db then db[error.uuid := error] else db
    {
      if validateErrorTypes {
        if error.errorType !in allowedErrorTypes {
          return;
        }
      }
      var raisable := CanBeRaised(error.errorType, error.subType);
      if !raisable {
        return;
      }
      database.AddError(error);
      published := published + [ErrorMessage(MessageKind.RaiseError, error)];
    }

    method ClearErrorOfType(errorType: ErrorType) returns (res: seq<Error>)
      requires Valid()
      modifies this, database
      ensures Valid()
      ensures res == AllCleared(Select(old(database.errors), KeyFilters(errorType, "")))
      ensures var step := Clear(old(database.errors), KeyFilters(errorType, ""));
              && database.errors == step.db
              && published == old(published) + step.published
    {
      res := ClearError(errorType, "");
    }

    method ClearError(errorType: ErrorType, subType: ErrorSubType) returns (res: seq<Error>)
      requires Valid()
      modifies this, database
      ensures Valid()
      ensures res == AllCleared(Select(old(database.errors), KeyFilters(errorType, subType)))
      ensures var step := Clear(old(database.errors), KeyFilters(errorType, subType));
              && database.errors == step.db
              && published == old(published) + step.published
    {
      SelectedAtMostOnce(database.errors, errorType, subType);
      ClearKeepsUniqueKeys(database.errors, KeyFilters(errorType, subType));
      var clearable := CanBeCleared(errorType, subType);
      if !clearable {
        EraseNothing(database.errors);
        return [];
      }
      res := database.RemoveErrors(KeyFilters(errorType, subType));
      if |res| > 1 {
        // "more than one matching error": never reached
        assert false;
      }
      var error := Cleared(res[0]);
      published := published + [ErrorMessage(MessageKind.ClearError, error)];
      res := [error];
    }

    method ClearAllErrors() returns (res: seq<Error>)
      requires Valid()
      modifies this, database
      ensures Valid()
      ensures res == AllCleared(Select(old(database.errors), []))
      ensures var step := Clear(old(database.errors), []);
              && database.errors == step.db
              && published == old(published) + step.published
    {
      ClearKeepsUniqueKeys(database.errors, []);
      res := database.RemoveErrors([]);
      res := PublishCleared(res);
    }

    method ClearAllErrorsOfType(errorType: ErrorType) returns (res: seq<Error>)
      requires Valid()
      modifies this, database
      ensures Valid()
      ensures res == AllCleared(Select(old(database.errors), [TypeFilter(errorType)]))
      ensures var step := Clear(old(database.errors), [TypeFilter(errorType)]);
              && database.errors == step.db
              && published == old(published) + step.published
    {
      ClearKeepsUniqueKeys(database.errors, [TypeFilter(errorType)]);
      var clearable := CanBeClearedByType(errorType);
      if !clearable {
        EraseNothing(database.errors);
        return [];
      }
      res := database.RemoveErrors([TypeFilter(errorType)]);
      res := PublishCleared(res);
    }

    /** The loop both `clear_all_errors` share: mark each removed error as cleared and publish it. */
    method PublishCleared(errors: seq<Error>) returns (res: seq<Error>)
      modifies `published
      ensures res == AllCleared(errors)
      ensures published == old(published) + ClearMessages(errors)
    {
      res := errors;
      for i := 0 to |res|
        invariant |res| == |errors|
        invariant forall k :: 0 <= k < i ==> res[k] == Cleared(errors[k])
        invariant forall k :: i <= k < |errors| ==> res[k] == errors[k]
        invariant published == old(published) + ClearMessages(errors[..i])
      {
        ClearMessagesOneMore(errors, i);
        res := res[i := Cleared(res[i])];
        published := published + [ErrorMessage(MessageKind.ClearError, res[i])];
      }
      assert errors[..|errors|] == errors;
    }

    method CanBeRaised(errorType: ErrorType, subType: ErrorSubType) returns (b: bool)
      requires Valid()
      ensures b <==> !IsActive(database.errors, errorType, subType)
    {
      var errors := database.GetErrors(KeyFilters(errorType, subType));
      ActiveMeansSelected(database.errors, errorType, subType);
      b := errors == [];
    }

    method CanBeCleared(errorType: ErrorType, subType: ErrorSubType) returns (b: bool)
      requires Valid()
      ensures b <==> IsActive(database.errors, errorType, subType)
    {
      var errors := database.GetErrors(KeyFilters(errorType, subType));
      ActiveMeansSelected(database.errors, errorType, subType);
      b := errors != [];
    }

    method CanBeClearedByType(errorType: ErrorType) returns (b: bool)
      ensures b <==> Select(database.errors, [TypeFilter(errorType)]) != []
    {
      var errors := database.GetErrors([TypeFilter(errorType)]);
      b := errors != [];
    }
  }

  lemma EraseNothing(db: Db)
    ensures Erase(db, []) == db
  {
  }

  lemma ClearKeepsUniqueKeys(db: Db, filters: seq<ErrorFilter>)
    requires Keyed(db) && UniqueKeys(db)
    ensures Keyed(Clear(db, filters).db) && UniqueKeys(Clear(db, filters).db)
  {
    RemovalKeepsTheRest(db, filters);
  }

  // ----- the replica of one requirement -----

  datatype Notice = Silent | Raised | Retracted

  /** What a message does to a replica: its new database and whether subscribers hear of it. */
  datatype Reaction = Reaction(db: Db, notice: Notice)

  function ReplicaRaised(allowed: seq<ErrorType>, typeMap: set<ErrorType>, db: Db, e: Error): Reaction {
    if e.errorType !in allowed || e.errorType !in typeMap then Reaction(db, Silent)
    else Reaction(Add(db, e), Raised)
  }

  ghost function ReplicaCleared(db: Db, e: Error): Reaction {
    var res := Select(db, KeyFilters(e.errorType, e.subType));
    Reaction(Erase(db, res), if |res| == 1 then Retracted else Silent)
  }

  /** A message on an error topic. Only allowed types have a handler; it looks at the state the error
      carries, not at the kind of the message. */
  ghost function Receive(allowed: seq<ErrorType>, typeMap: set<ErrorType>, db: Db, m: ErrorMessage): Reaction {
    if m.error.errorType !in allowed then Reaction(db, Silent)
    else if m.error.state == Active then ReplicaRaised(allowed, typeMap, db, m.error)
    else ReplicaCleared(db, m.error)
  }

  datatype Subscription = Subscription(errorType: ErrorType, subscriber: nat)

  /** One run of a subscriber's callback: `raised` tells which of the two it registered. */
  datatype Call = Call(subscriber: nat, raised: bool, error: Error)

  function CallsTo(subs: seq<Subscription>, raised: bool, e: Error): (r: seq<Call>)
    ensures |r| == |subs|
  {
    seq(|subs|, i requires 0 <= i < |subs| => Call(subs[i].subscriber, raised, e))
  }

  function Announce(subs: seq<Subscription>, notice: Notice, e: Error): seq<Call> {
    match notice
    case Silent => []
    case Raised => CallsTo(subs, true, e)
    case Retracted => CallsTo(subs, false, e)
  }

  function SubscriptionsOf(subs: map<ErrorType, seq<Subscription>>, t: ErrorType): seq<Subscription> {
    if t in subs then subs[t] else []
  }

  /** The subscriptions of one subscriber to type `t`: one for each time the list names `t`. */
  function Enrolments(types: seq<ErrorType>, t: ErrorType, subscriber: nat): seq<Subscription> {
    if types == [] then []
    else
      Enrolments(types[..|types| - 1], t, subscriber)
      + if types[|types| - 1] == t then [Subscription(t, subscriber)] else []
  }

  class ErrorManagerReq {
    const typeMap: set<ErrorType>
    const allowedErrorTypes: seq<ErrorType>
    const database: ErrorDatabaseMap
    var errorSubscriptions: map<ErrorType, seq<Subscription>>
    var calls: seq<Call>

    ghost predicate Valid()
      reads this, database
    {
      && database.Valid()
      && (forall t :: t in errorSubscriptions <==> t in allowedErrorTypes)
      && (forall h :: h in database.errors ==> database.errors[h].errorType in allowedErrorTypes)
    }

    constructor (typeMap: set<ErrorType>, database: ErrorDatabaseMap, allowedErrorTypes: seq<ErrorType>)
      requires database.errors == map[]
      ensures Valid() && calls == []
      ensures this.typeMap == typeMap && this.database == database && this.allowedErrorTypes == allowedErrorTypes
      ensures forall t :: t in errorSubscriptions ==> errorSubscriptions[t] == []
    {
      this.typeMap := typeMap;
      this.database := database;
      this.allowedErrorTypes := allowedErrorTypes;
      errorSubscriptions := map[];
      calls := [];
      new;
      for i := 0 to |allowedErrorTypes|
        invariant forall t :: t in errorSubscriptions <==> t in allowedErrorTypes[..i]
        invariant forall t :: t in errorSubscriptions ==> errorSubscriptions[t] == []
        invariant calls == []
        invariant unchanged(database)
      {
        errorSubscriptions := errorSubscriptions[allowedErrorTypes[i] := []];
      }
    }

    method SubscribeError(errorType: ErrorType, subscriber: nat)
      requires Valid()
      modifies `errorSubscriptions
      ensures Valid()
      ensures errorType !in allowedErrorTypes ==> errorSubscriptions == old(errorSubscriptions)
      ensures errorType in allowedErrorTypes ==>
                errorSubscriptions == old(errorSubscriptions)[errorType :=
                  old(errorSubscriptions)[errorType] + [Subscription(errorType, subscriber)]]
    {
      if errorType !in errorSubscriptions {
        return;
      }
      errorSubscriptions := errorSubscriptions[errorType :=
        errorSubscriptions[errorType] + [Subscription(errorType, subscriber)]];
    }

    /** Subscribes to each allowed type, once per entry of the list. */
    method SubscribeAllErrors(subscriber: nat)
      requires Valid()
      modifies `errorSubscriptions
      ensures Valid()
      ensures forall t :: t in allowedErrorTypes ==>
                errorSubscriptions[t] == old(errorSubscriptions)[t] + Enrolments(allowedErrorTypes, t, subscriber)
    {
      for i := 0 to |allowedErrorTypes|
        invariant Valid()
        invariant forall t :: t in allowedErrorTypes ==>
                    errorSubscriptions[t]
                    == old(errorSubscriptions)[t] + Enrolments(allowedErrorTypes[..i], t, subscriber)
      {
        var t := allowedErrorTypes[i];
        assert allowedErrorTypes[..i + 1][..i] == allowedErrorTypes[..i];
        errorSubscriptions := errorSubscriptions[t := errorSubscriptions[t] + [Subscription(t, subscriber)]];
      }
      assert allowedErrorTypes[..|allowedErrorTypes|] == allowedErrorTypes;
    }

    method OnErrorRaised(error: Error)
      requires Valid()
      modifies `calls, database
      ensures Valid()
      ensures var r := ReplicaRaised(allowedErrorTypes, typeMap, old(database.errors), error);
              && database.errors == r.db
              && calls == old(calls) + Announce(SubscriptionsOf(errorSubscriptions, error.errorType), r.notice, error)
      ensures var db, heard := old(database.errors), error.errorType in allowedErrorTypes && error.errorType in typeMap;
              && database.errors == (if heard && error.uuid !in db then db[error.uuid := error] else db)
              && calls == old(calls) + if heard then CallsTo(errorSubscriptions[error.errorType], true, error) else []
    {
      if error.errorType !in allowedErrorTypes {
        return;
      }
      if error.errorType !in typeMap {
        return;
      }
      database.AddError(error);
      OnError(error, true);
    }

    method OnErrorCleared(error: Error)
      requires Valid()
      modifies `calls, database
      ensures Valid()
      ensures var r := ReplicaCleared(old(database.errors), error);
              && database.errors == r.db
              && calls == old(calls) + Announce(SubscriptionsOf(errorSubscriptions, error.errorType), r.notice, error)
    {
      var filters := KeyFilters(error.errorType, error.subType);
      SelectIsExact(database.errors, filters);
      RemovalKeepsTheRest(database.errors, filters);
      ghost var before := database.errors;
      var res := database.RemoveErrors(filters);
      if |res| < 1 {
        return;
      }
      if |res| > 1 {
        return;
      }
      assert error.errorType in allowedErrorTypes by {
        assert res[0] in res;
        KeyFilterMeaning(res[0], error.errorType, error.subType);
        assert before[res[0].uuid] == res[0];
      }
      OnError(error, false);
    }

    /** Runs the subscriptions of the error's type; the look-up cannot fail. */
    method OnError(error: Error, raised: bool)
      requires error.errorType in errorSubscriptions
      modifies `calls
      ensures calls == old(calls) + CallsTo(errorSubscriptions[error.errorType], raised, error)
    {
      var subs := errorSubscriptions[error.errorType];
      for i := 0 to |subs|
        invariant calls == old(calls) + CallsTo(subs[..i], raised, error)
      {
        assert CallsTo(subs[..i + 1], raised, error)
            == CallsTo(subs[..i], raised, error) + [Call(subs[i].subscriber, raised, error)];
        calls := calls + [Call(subs[i].subscriber, raised, error)];
      }
      assert subs[..|subs|] == subs;
    }

    /** The handler `Everest::subscribe_error` registers on the topic of `handledType`. */
    method HandleMessage(handledType: ErrorType, message: ErrorMessage)
      requires Valid()
      requires handledType in allowedErrorTypes
      modifies `calls, database
      ensures Valid()
      ensures message.error.errorType != handledType ==>
                database.errors == old(database.errors) && calls == old(calls)
      ensures message.error.errorType == handledType ==>
                var r := Receive(allowedErrorTypes, typeMap, old(database.errors), message);
                && database.errors == r.db
                && calls == old(calls)
                            + Announce(SubscriptionsOf(errorSubscriptions, handledType), r.notice, message.error)
    {
      var error := message.error;
      if error.errorType != handledType {
        return;
      }
      match error.state {
        case Active =>
          OnErrorRaised(error);
        case ClearedByModule =>
          OnErrorCleared(error);
        case ClearedByReboot =>
          OnErrorCleared(error);
      }
    }
  }

  // ----- the global manager -----

  predicate HasGlobalKey(e: Error, t: ErrorType, s: ErrorSubType, o: Origin) {
    e.errorType == t && e.subType == s && e.origin.Same(o)
  }

  ghost predicate IsGloballyActive(db: Db, t: ErrorType, s: ErrorSubType, o: Origin) {
    exists h :: h in db && HasGlobalKey(db[h], t, s, o)
  }

  /** At most one stored error per type, sub type and origin. */
  ghost predicate UniqueGlobalKeys(db: Db) {
    forall g, h :: g in db && h in db && HasGlobalKey(db[g], db[h].errorType, db[h].subType, db[h].origin) ==> g == h
  }

  lemma OriginFilterMeaning(e: Error, t: ErrorType, s: ErrorSubType, o: Origin)
    ensures MatchesAll(OriginFilters(t, s, o), e) <==> HasGlobalKey(e, t, s, o)
  {
    var fs := OriginFilters(t, s, o);
    assert fs[0] == TypeFilter(t) && fs[1] == SubTypeFilter(s) && fs[2] == OriginFilter(o);
  }

  lemma GloballySelectedAtMostOnce(db: Db, t: ErrorType, s: ErrorSubType, o: Origin)
    requires Keyed(db) && UniqueGlobalKeys(db)
    ensures |Select(db, OriginFilters(t, s, o))| == if IsGloballyActive(db, t, s, o) then 1 else 0
  {
    var fs := OriginFilters(t, s, o);
    var res := Select(db, fs);
    SelectIsExact(db, fs);
    if IsGloballyActive(db, t, s, o) {
      var h :| h in db && HasGlobalKey(db[h], t, s, o);
      OriginFilterMeaning(db[h], t, s, o);
      assert db[h] in res;
    }
    if res != [] {
      assert res[0] in res;
      OriginFilterMeaning(res[0], t, s, o);
    }
    if |res| > 1 {
      assert res[1] in res;
      OriginFilterMeaning(res[1], t, s, o);
      assert res[0].uuid == res[1].uuid;
      assert StringLess(Handles(res)[0], Handles(res)[1]);
      StringLessIrreflexive(res[0].uuid);
    }
  }

  /** A raise is heard only if its type is known, its key is inactive and its handle is free. */
  ghost function GlobalRaised(typeMap: set<ErrorType>, db: Db, e: Error): Reaction {
    if e.errorType !in typeMap || IsGloballyActive(db, e.errorType, e.subType, e.origin) || e.uuid in db
    then Reaction(db, Silent)
    else Reaction(db[e.uuid := e], Raised)
  }

  ghost function GlobalCleared(typeMap: set<ErrorType>, db: Db, e: Error): Reaction {
    if e.errorType !in typeMap || !IsGloballyActive(db, e.errorType, e.subType, e.origin)
    then Reaction(db, Silent)
    else Reaction(map h | h in db && !HasGlobalKey(db[h], e.errorType, e.subType, e.origin) :: db[h], Retracted)
  }

  ghost function GlobalReceive(typeMap: set<ErrorType>, db: Db, e: Error): Reaction {
    if e.state == Active then GlobalRaised(typeMap, db, e) else GlobalCleared(typeMap, db, e)
  }

  class ErrorManagerReqGlobal {
    const typeMap: set<ErrorType>
    const database: ErrorDatabaseMap
    var subscriptions: seq<nat>
    var calls: seq<Call>

    ghost predicate Valid()
      reads this, database
    {
      database.Valid() && UniqueGlobalKeys(database.errors)
    }

    constructor (typeMap: set<ErrorType>, database: ErrorDatabaseMap)
      requires database.errors == map[]
      ensures Valid() && subscriptions == [] && calls == []
      ensures this.typeMap == typeMap && this.database == database
    {
      this.typeMap := typeMap;
      this.database := database;
      subscriptions := [];
      calls := [];
    }

    method SubscribeGlobalAllErrors(subscriber: nat)
      modifies `subscriptions
      ensures subscriptions == old(subscriptions) + [subscriber]
    {
      subscriptions := subscriptions + [subscriber];
    }

    method OnErrorRaised(error: Error)
      requires Valid()
      modifies `calls, database
      ensures Valid()
      ensures var r := GlobalRaised(typeMap, old(database.errors), error);
              && database.errors == r.db
              && calls == old(calls) + AnnounceGlobally(subscriptions, r.notice, error)
      ensures var db, e := old(database.errors), error;
              var heard :=
                && e.errorType in typeMap && e.uuid !in db
                && !(exists h :: h in db && db[h].errorType == e.errorType && db[h].subType == e.subType
                                 && db[h].origin.moduleId == e.origin.moduleId
                                 && db[h].origin.implementationId == e.origin.implementationId);
              && database.errors == (if heard then db[e.uuid := e] else db)
              && calls == old(calls) + if heard then GlobalCallsTo(subscriptions, true, e) else []
    {
      if error.errorType !in typeMap {
        return;
      }
      var filters := OriginFilters(error.errorType, error.subType, error.origin);
      GloballySelectedAtMostOnce(database.errors, error.errorType, error.subType, error.origin);
      var errors := database.GetErrors(filters);
      if errors != [] {
        return;
      }
      database.AddError(error);
      AddKeepsUniqueGlobalKeys(old(database.errors), error);
      GloballySelectedAtMostOnce(database.errors, error.errorType, error.subType, error.origin);
      errors := database.GetErrors(filters);
      if |errors| != 1 {
        return;
      }
      assert error.uuid !in old(database.errors);
      Notify(error, true);
    }

    method OnErrorCleared(error: Error)
      requires Valid()
      modifies `calls, database
      ensures Valid()
      ensures var r := GlobalCleared(typeMap, old(database.errors), error);
              && database.errors == r.db
              && calls == old(calls) + AnnounceGlobally(subscriptions, r.notice, error)
    {
      if error.errorType !in typeMap {
        return;
      }
      var filters := OriginFilters(error.errorType, error.subType, error.origin);
      GloballySelectedAtMostOnce(database.errors, error.errorType, error.subType, error.origin);
      var errors := database.GetErrors(filters);
      if errors == [] {
        return;
      }
      GlobalRemoval(database.errors, error);
      var res := database.RemoveErrors(filters);
      if |res| > 1 {
        // "more than one error is cleared": never reached
        assert false;
      }
      if res == [] {
        // "error wasn't removed": never reached
        assert false;
      }
      Notify(error, false);
    }

    method Notify(error: Error, raised: bool)
      modifies `calls
      ensures calls == old(calls) + GlobalCallsTo(subscriptions, raised, error)
    {
      var subs := subscriptions;
      for i := 0 to |subs|
        invariant subscriptions == subs
        invariant calls == old(calls) + GlobalCallsTo(subs[..i], raised, error)
      {
        assert GlobalCallsTo(subs[..i + 1], raised, error)
            == GlobalCallsTo(subs[..i], raised, error) + [Call(subs[i], raised, error)];
        calls := calls + [Call(subs[i], raised, error)];
      }
      assert subs[..|subs|] == subs;
    }

    /** The handler `Everest::subscribe_global_all_errors` registers on every error topic. */
    method HandleMessage(error: Error)
      requires Valid()
      modifies `calls, database
      ensures Valid()
      ensures var r := GlobalReceive(typeMap, old(database.errors), error);
              && database.errors == r.db
              && calls == old(calls) + AnnounceGlobally(subscriptions, r.notice, error)
    {
      match error.state {
        case Active =>
          OnErrorRaised(error);
        case ClearedByModule =>
          OnErrorCleared(error);
        case ClearedByReboot =>
          OnErrorCleared(error);
      }
    }
  }

  function GlobalCallsTo(subs: seq<nat>, raised: bool, e: Error): (r: seq<Call>)
    ensures |r| == |subs|
  {
    seq(|subs|, i requires 0 <= i < |subs| => Call(subs[i], raised, e))
  }

  function AnnounceGlobally(subs: seq<nat>, notice: Notice, e: Error): seq<Call> {
    match notice
    case Silent => []
    case Raised => GlobalCallsTo(subs, true, e)
    case Retracted => GlobalCallsTo(subs, false, e)
  }

  lemma AddKeepsUniqueGlobalKeys(db: Db, e: Error)
    requires Keyed(db) && UniqueGlobalKeys(db)
    requires !IsGloballyActive(db, e.errorType, e.subType, e.origin)
    ensures Keyed(Add(db, e)) && UniqueGlobalKeys(Add(db, e))
    ensures IsGloballyActive(Add(db, e), e.errorType, e.subType, e.origin) <==> e.uuid !in db
  {
    if e.uuid !in db {
      assert HasGlobalKey(Add(db, e)[e.uuid], e.errorType, e.subType, e.origin);
    }
  }

  lemma GlobalRemoval(db: Db, e: Error)
    requires Keyed(db) && UniqueGlobalKeys(db)
    ensures var fs := OriginFilters(e.errorType, e.subType, e.origin);
            Erase(db, Select(db, fs))
            == map h | h in db && !HasGlobalKey(db[h], e.errorType, e.subType, e.origin) :: db[h]
    ensures UniqueGlobalKeys(Erase(db, Select(db, OriginFilters(e.errorType, e.subType, e.origin))))
  {
    RemovalKeepsTheRest(db, OriginFilters(e.errorType, e.subType, e.origin));
    forall h | h in db
      ensures MatchesAll(OriginFilters(e.errorType, e.subType, e.origin), db[h])
         <==> HasGlobalKey(db[h], e.errorType, e.subType, e.origin)
    {
      OriginFilterMeaning(db[h], e.errorType, e.subType, e.origin);
    }
  }

  // ----- the state monitor -----

  datatype StateCondition = StateCondition(errorType: ErrorType, subType: ErrorSubType, active: bool)

  ghost predicate Satisfies(db: Db, c: StateCondition) {
    IsActive(db, c.errorType, c.subType) == c.active
  }

  class ErrorStateMonitor {
    const database: ErrorDatabaseMap

    constructor (database: ErrorDatabaseMap)
      ensures this.database == database
    {
      this.database := database;
    }

    method IsErrorActive(errorType: ErrorType, subType: ErrorSubType) returns (b: bool)
      requires database.Valid()
      ensures b <==> IsActive(database.errors, errorType, subType)
    {
      var errors := database.GetErrors(KeyFilters(errorType, subType));
      ActiveMeansSelected(database.errors, errorType, subType);
      b := |errors| > 0;
    }

    method GetActiveErrors() returns (errors: seq<Error>)
      ensures errors == Listing(database.errors)
    {
      errors := database.GetErrors([]);
      NarrowByNothing(Listing(database.errors));
    }

    method IsConditionSatisfied(condition: StateCondition) returns (b: bool)
      requires database.Valid()
      ensures b <==> Satisfies(database.errors, condition)
      ensures b <==> (condition.active <==> IsActive(database.errors, condition.errorType, condition.subType))
    {
      var res := IsErrorActive(condition.errorType, condition.subType);
      b := res == condition.active;
    }

    method AreConditionsSatisfied(conditions: seq<StateCondition>) returns (b: bool)
      requires database.Valid()
      ensures b <==> forall c :: c in conditions ==> Satisfies(database.errors, c)
      ensures b <==> forall c :: c in conditions ==> (c.active <==> IsActive(database.errors, c.errorType, c.subType))
    {
      for i := 0 to |conditions|
        invariant forall c :: c in conditions[..i] ==> Satisfies(database.errors, c)
      {
        var ok := IsConditionSatisfied(conditions[i]);
        if !ok {
          assert conditions[i] in conditions;
          return false;
        }
      }
      assert conditions[..|conditions|] == conditions;
      b := true;
    }
  }
}
