/** The global error manager on any input stream whatever: repeated raises, spurious clears, reused
    handles, unknown types, and subscribers that join late. */
module GlobalErrors {
  import opened OrderedMaps
  import opened ErrorDatabase
  import opened ErrorManagers
  import opened ErrorReplication

  datatype Input = Message(error: Error) | Join(subscriber: nat)

  datatype Manager = Manager(db: Db, subscriptions: seq<nat>, calls: seq<Call>)

  ghost function Handle(typeMap: set<ErrorType>, m: Manager, i: Input): Manager {
    match i
    case Message(e) =>
      var r := GlobalReceive(typeMap, m.db, e);
      Manager(r.db, m.subscriptions, m.calls + AnnounceGlobally(m.subscriptions, r.notice, e))
    case Join(x) => m.(subscriptions := m.subscriptions + [x])
  }

  ghost function HandleAll(typeMap: set<ErrorType>, m: Manager, inputs: seq<Input>): Manager
    decreases |inputs|
  {
    if inputs == [] then m else HandleAll(typeMap, Handle(typeMap, m, inputs[0]), inputs[1..])
  }

  /** The callbacks one subscriber got for one type, sub type and origin. */
  ghost function HeardFor(calls: seq<Call>, who: nat, t: ErrorType, s: ErrorSubType, o: Origin): seq<bool> {
    if calls == [] then []
    else
      (if calls[0].subscriber == who && HasGlobalKey(calls[0].error, t, s, o) then [calls[0].raised] else [])
      + HeardFor(calls[1..], who, t, s, o)
  }

  ghost function TimesJoined(subs: seq<nat>, who: nat): nat {
    if subs == [] then 0 else (if subs[0] == who then 1 else 0) + TimesJoined(subs[1..], who)
  }

  ghost predicate JoinedOnce(subs: seq<nat>, who: nat) {
    TimesJoined(subs, who) == 1
  }

  lemma {:induction false} HeardForAppends(a: seq<Call>, b: seq<Call>, who: nat, t: ErrorType, s: ErrorSubType,
                                        o: Origin)
    ensures HeardFor(a + b, who, t, s, o) == HeardFor(a, who, t, s, o) + HeardFor(b, who, t, s, o)
  {
    if a == [] {
      assert a + b == b;
    } else {
      assert (a + b)[1..] == a[1..] + b;
      HeardForAppends(a[1..], b, who, t, s, o);
    }
  }

  lemma {:induction false} OutsidersHearNothing(subs: seq<nat>, raised: bool, e: Error, who: nat, t: ErrorType,
                                        s: ErrorSubType, o: Origin)
    requires TimesJoined(subs, who) == 0
    ensures HeardFor(GlobalCallsTo(subs, raised, e), who, t, s, o) == []
  {
    if subs != [] {
      assert GlobalCallsTo(subs, raised, e)[1..] == GlobalCallsTo(subs[1..], raised, e);
      OutsidersHearNothing(subs[1..], raised, e, who, t, s, o);
    }
  }

  lemma {:induction false} JoinedHearOnce(subs: seq<nat>, raised: bool, e: Error, who: nat, t: ErrorType,
                                        s: ErrorSubType, o: Origin)
    requires JoinedOnce(subs, who)
    ensures HeardFor(GlobalCallsTo(subs, raised, e), who, t, s, o) == if HasGlobalKey(e, t, s, o) then [raised] else []
  {
    assert GlobalCallsTo(subs, raised, e)[1..] == GlobalCallsTo(subs[1..], raised, e);
    if subs[0] == who {
      OutsidersHearNothing(subs[1..], raised, e, who, t, s, o);
    } else {
      JoinedHearOnce(subs[1..], raised, e, who, t, s, o);
    }
  }

  ghost predicate Sound(m: Manager) {
    Keyed(m.db) && UniqueGlobalKeys(m.db)
  }

  ghost predicate GlobalFits(m: Manager, who: nat, t: ErrorType, s: ErrorSubType, o: Origin) {
    && JoinedOnce(m.subscriptions, who)
    && Tracks(HeardFor(m.calls, who, t, s, o), IsGloballyActive(m.db, t, s, o))
  }

  lemma HandleKeepsSound(typeMap: set<ErrorType>, m: Manager, i: Input)
    requires Sound(m)
    ensures Sound(Handle(typeMap, m, i))
  {
    if i.Message? && i.error.state == Active && GlobalRaised(typeMap, m.db, i.error).notice == Raised {
      AddKeepsUniqueGlobalKeys(m.db, i.error);
    }
  }

  /** Announcements are exactly the changes of a key: raised when it becomes active, retracted when it
      stops being so. */
  lemma NoticeIsChange(typeMap: set<ErrorType>, db: Db, e: Error, t: ErrorType, s: ErrorSubType, o: Origin)
    requires Keyed(db) && UniqueGlobalKeys(db)
    ensures var r := GlobalReceive(typeMap, db, e);
            && (r.notice == Silent || !HasGlobalKey(e, t, s, o) ==>
                  (IsGloballyActive(r.db, t, s, o) <==> IsGloballyActive(db, t, s, o)))
            && (r.notice != Silent && HasGlobalKey(e, t, s, o) ==>
                  && (r.notice == Raised <==> !IsGloballyActive(db, t, s, o))
                  && (r.notice == Raised <==> IsGloballyActive(r.db, t, s, o)))
  {
    var r := GlobalReceive(typeMap, db, e);
    if r.notice == Raised {
      assert HasGlobalKey(e, t, s, o) ==> HasGlobalKey(r.db[e.uuid], t, s, o);
      forall h | h in db && HasGlobalKey(db[h], t, s, o) ensures IsGloballyActive(r.db, t, s, o) {
        assert h in r.db && HasGlobalKey(r.db[h], t, s, o);
      }
    } else if r.notice == Retracted {
      forall h | h in db && HasGlobalKey(db[h], t, s, o) && !HasGlobalKey(e, t, s, o)
        ensures IsGloballyActive(r.db, t, s, o)
      {
        assert h in r.db && HasGlobalKey(r.db[h], t, s, o);
      }
    }
  }

  lemma HandleKeepsFit(typeMap: set<ErrorType>, m: Manager, i: Input, who: nat, t: ErrorType, s: ErrorSubType,
                       o: Origin)
    requires Sound(m)
    requires GlobalFits(m, who, t, s, o)
    requires i.Join? ==> i.subscriber != who
    ensures GlobalFits(Handle(typeMap, m, i), who, t, s, o)
  {
    match i
    case Join(x) => JoinKeepsOthers(m.subscriptions, x, who);
    case Message(e) =>
      var news := NewsFor(typeMap, m.db, e, t, s, o);
      MessageIsHeard(typeMap, m, e, who, t, s, o);
      NoticeIsChange(typeMap, m.db, e, t, s, o);
      TracksOn(HeardFor(m.calls, who, t, s, o), IsGloballyActive(m.db, t, s, o), news,
               IsGloballyActive(GlobalReceive(typeMap, m.db, e).db, t, s, o));
  }

  lemma {:induction false} JoinKeepsOthers(subs: seq<nat>, x: nat, who: nat)
    requires x != who
    ensures TimesJoined(subs + [x], who) == TimesJoined(subs, who)
  {
    if subs == [] {
      assert subs + [x] == [x] && [x][1..] == [];
    } else {
      assert (subs + [x])[1..] == subs[1..] + [x];
      JoinKeepsOthers(subs[1..], x, who);
    }
  }

  ghost function NewsFor(typeMap: set<ErrorType>, db: Db, e: Error, t: ErrorType, s: ErrorSubType,
                         o: Origin): seq<bool> {
    var notice := GlobalReceive(typeMap, db, e).notice;
    if notice != Silent && HasGlobalKey(e, t, s, o) then [notice == Raised] else []
  }

  lemma MessageIsHeard(typeMap: set<ErrorType>, m: Manager, e: Error, who: nat, t: ErrorType, s: ErrorSubType,
                       o: Origin)
    requires JoinedOnce(m.subscriptions, who)
    ensures HeardFor(Handle(typeMap, m, Message(e)).calls, who, t, s, o)
         == HeardFor(m.calls, who, t, s, o) + NewsFor(typeMap, m.db, e, t, s, o)
  {
    var notice := GlobalReceive(typeMap, m.db, e).notice;
    HeardForAppends(m.calls, AnnounceGlobally(m.subscriptions, notice, e), who, t, s, o);
    if notice != Silent {
      JoinedHearOnce(m.subscriptions, notice == Raised, e, who, t, s, o);
    }
  }

  lemma {:induction false} HandleAllKeepsFit(typeMap: set<ErrorType>, m: Manager, inputs: seq<Input>, who: nat,
                                        t: ErrorType, s: ErrorSubType, o: Origin)
    requires Sound(m)
    requires GlobalFits(m, who, t, s, o)
    requires forall i :: 0 <= i < |inputs| ==> inputs[i] != Join(who)
    ensures Sound(HandleAll(typeMap, m, inputs))
    ensures GlobalFits(HandleAll(typeMap, m, inputs), who, t, s, o)
    decreases |inputs|
  {
    if inputs != [] {
      HandleKeepsSound(typeMap, m, inputs[0]);
      HandleKeepsFit(typeMap, m, inputs[0], who, t, s, o);
      HandleAllKeepsFit(typeMap, Handle(typeMap, m, inputs[0]), inputs[1..], who, t, s, o);
    }
  }

  ghost function Count(bs: seq<bool>, b: bool): nat {
    if bs == [] then 0 else (if bs[0] == b then 1 else 0) + Count(bs[1..], b)
  }

  /** In an alternation the raises outnumber the clears by one or not at all. */
  lemma {:induction false} AlternationBalance(bs: seq<bool>)
    requires Alternates(bs)
    ensures Count(bs, true) == Count(bs, false) + |bs| % 2
    decreases |bs|
  {
    if |bs| >= 2 {
      assert bs[0] && !bs[1];
      assert bs[1..][1..] == bs[2..];
      AlternationBalance(bs[2..]);
    } else if |bs| == 1 {
      assert bs[1..] == [];
    }
  }

  /** A subscriber present from the start sees, for each type, sub type and origin, strictly alternating
      raise and clear starting with a raise; raises minus clears is 1 exactly when the error is stored. */
  lemma GlobalSubscriberTrace(typeMap: set<ErrorType>, inputs: seq<Input>, who: nat, t: ErrorType, s: ErrorSubType,
                              o: Origin)
    requires forall i :: 0 <= i < |inputs| ==> inputs[i] != Join(who)
    ensures var end := HandleAll(typeMap, Manager(map[], [who], []), inputs);
            var heard := HeardFor(end.calls, who, t, s, o);
            && Alternates(heard)
            && Count(heard, true) - Count(heard, false) == (if IsGloballyActive(end.db, t, s, o) then 1 else 0)
            && UniqueGlobalKeys(end.db)
  {
    var start := Manager(map[], [who], []);
    assert [who][1..] == [];
    HandleAllKeepsFit(typeMap, start, inputs, who, t, s, o);
    AlternationBalance(HeardFor(HandleAll(typeMap, start, inputs).calls, who, t, s, o));
  }

  // ----- what is stored, told from the inputs alone -----

  /** The error has this type, this sub type, and comes from this implementation, wherever that is mounted. */
  predicate IsOf(e: Error, t: ErrorType, s: ErrorSubType, o: Origin) {
    && e.errorType == t && e.subType == s
    && e.origin.moduleId == o.moduleId && e.origin.implementationId == o.implementationId
  }

  ghost predicate HoldsFor(db: Db, t: ErrorType, s: ErrorSubType, o: Origin) {
    exists h :: h in db && IsOf(db[h], t, s, o)
  }

  lemma HoldsForMeansActive(db: Db, t: ErrorType, s: ErrorSubType, o: Origin)
    ensures HoldsFor(db, t, s, o) <==> IsGloballyActive(db, t, s, o)
  {
    assert forall h :: h in db ==> (IsOf(db[h], t, s, o) <==> HasGlobalKey(db[h], t, s, o));
  }

  /** An active error of a known type that is not stored for its origin, under a free handle, is stored, and every
      subscriber hears of it as a raise, in the order they joined. Any other active error changes nothing. */
  lemma RaiseIsStoredAndHeard(typeMap: set<ErrorType>, m: Manager, e: Error)
    requires e.state == Active
    ensures var next := Handle(typeMap, m, Message(e));
            if e.errorType in typeMap && !HoldsFor(m.db, e.errorType, e.subType, e.origin) && e.uuid !in m.db then
              && next.db == m.db[e.uuid := e] && next.subscriptions == m.subscriptions
              && |next.calls| == |m.calls| + |m.subscriptions| && m.calls <= next.calls
              && (forall i :: 0 <= i < |m.subscriptions| ==>
                    next.calls[|m.calls| + i] == Call(m.subscriptions[i], true, e))
            else next == m
  {
    HoldsForMeansActive(m.db, e.errorType, e.subType, e.origin);
    assert m.calls + [] == m.calls;
  }

  /** A cleared error of a known type takes what is stored for its key and origin away, and every subscriber hears of
      it as a clear, if there was something; otherwise nothing happens. */
  lemma ClearIsStoredAndHeard(typeMap: set<ErrorType>, m: Manager, e: Error)
    requires e.state != Active
    ensures var next := Handle(typeMap, m, Message(e));
            if e.errorType in typeMap && HoldsFor(m.db, e.errorType, e.subType, e.origin) then
              && next.db == (map h | h in m.db && !IsOf(m.db[h], e.errorType, e.subType, e.origin) :: m.db[h])
              && next.subscriptions == m.subscriptions
              && |next.calls| == |m.calls| + |m.subscriptions| && m.calls <= next.calls
              && (forall i :: 0 <= i < |m.subscriptions| ==>
                    next.calls[|m.calls| + i] == Call(m.subscriptions[i], false, e))
            else next == m
  {
    HoldsForMeansActive(m.db, e.errorType, e.subType, e.origin);
    assert m.calls + [] == m.calls;
    assert forall h :: h in m.db ==>
      (IsOf(m.db[h], e.errorType, e.subType, e.origin) <==>
       HasGlobalKey(m.db[h], e.errorType, e.subType, e.origin));
  }

  function Before(inputs: seq<Input>): (before: seq<Input>)
    requires inputs != []
    ensures inputs == before + [inputs[|inputs| - 1]]
  {
    inputs[..|inputs| - 1]
  }

  /** Whether the last message for the key and origin was an active one. */
  function LastWasActive(inputs: seq<Input>, t: ErrorType, s: ErrorSubType, o: Origin): bool
    decreases |inputs|
  {
    if inputs == [] then false
    else
      var last := inputs[|inputs| - 1];
      if last.Message? && IsOf(last.error, t, s, o) then last.error.state == Active
      else LastWasActive(Before(inputs), t, s, o)
  }

  ghost function DbAfter(typeMap: set<ErrorType>, inputs: seq<Input>): Db
  {
    HandleAll(typeMap, Manager(map[], [], []), inputs).db
  }

  lemma {:induction false} HandleAllOneMore(typeMap: set<ErrorType>, m: Manager, inputs: seq<Input>, i: Input)
    ensures HandleAll(typeMap, m, inputs + [i]) == Handle(typeMap, HandleAll(typeMap, m, inputs), i)
    decreases |inputs|
  {
    if inputs == [] {
      assert [] + [i] == [i] && [i][1..] == [];
    } else {
      assert (inputs + [i])[1..] == inputs[1..] + [i];
      HandleAllOneMore(typeMap, Handle(typeMap, m, inputs[0]), inputs[1..], i);
    }
  }

  lemma {:induction false} HandleAllKeepsSound(typeMap: set<ErrorType>, m: Manager, inputs: seq<Input>)
    requires Sound(m)
    ensures Sound(HandleAll(typeMap, m, inputs))
    decreases |inputs|
  {
    if inputs != [] {
      HandleKeepsSound(typeMap, m, inputs[0]);
      HandleAllKeepsSound(typeMap, Handle(typeMap, m, inputs[0]), inputs[1..]);
    }
  }

  /** An active error of a known type comes under a free handle, or its key is stored for its origin anyway. */
  ghost predicate HandleFree(typeMap: set<ErrorType>, db: Db, i: Input) {
    i.Message? && i.error.state == Active && i.error.errorType in typeMap ==>
      i.error.uuid !in db || HoldsFor(db, i.error.errorType, i.error.subType, i.error.origin)
  }

  ghost predicate HandlesFree(typeMap: set<ErrorType>, inputs: seq<Input>) {
    forall i :: 0 <= i < |inputs| ==> HandleFree(typeMap, DbAfter(typeMap, inputs[..i]), inputs[i])
  }

  ghost predicate TellsHistory(typeMap: set<ErrorType>, inputs: seq<Input>) {
    forall t, s, o :: HoldsFor(DbAfter(typeMap, inputs), t, s, o) <==> t in typeMap && LastWasActive(inputs, t, s, o)
  }

  lemma HoldsAfterMessage(typeMap: set<ErrorType>, m: Manager, e: Error, t: ErrorType, s: ErrorSubType, o: Origin)
    requires HandleFree(typeMap, m.db, Message(e)) && e.errorType in typeMap
    ensures HoldsFor(Handle(typeMap, m, Message(e)).db, t, s, o)
       <==> if IsOf(e, t, s, o) then e.state == Active else HoldsFor(m.db, t, s, o)
  {
    var next := Handle(typeMap, m, Message(e));
    if e.state == Active { RaiseIsStoredAndHeard(typeMap, m, e); } else { ClearIsStoredAndHeard(typeMap, m, e); }
    hide Handle;
    if next.db != m.db && e.state == Active { assert next.db[e.uuid] == e; }
    if h :| h in m.db && IsOf(m.db[h], t, s, o) && h in next.db {
      assert next.db[h] == m.db[h];
    }
    if HoldsFor(m.db, t, s, o) && !IsOf(e, t, s, o) {
      var h :| h in m.db && IsOf(m.db[h], t, s, o);
      assert h in next.db && next.db[h] == m.db[h];
    }
  }

  lemma OtherInputsChangeNothing(typeMap: set<ErrorType>, m: Manager, i: Input)
    requires i.Message? ==> i.error.errorType !in typeMap
    ensures Handle(typeMap, m, i).db == m.db
  {
  }

  lemma TellsOneMore(typeMap: set<ErrorType>, before: seq<Input>, last: Input)
    requires TellsHistory(typeMap, before) && HandleFree(typeMap, DbAfter(typeMap, before), last)
    ensures TellsHistory(typeMap, before + [last])
  {
    var inputs, m := before + [last], HandleAll(typeMap, Manager(map[], [], []), before);
    HandleAllOneMore(typeMap, Manager(map[], [], []), before, last);
    hide Handle, HandleAll, HoldsFor, IsOf, HandleFree;
    forall t, s, o
      ensures HoldsFor(DbAfter(typeMap, inputs), t, s, o) <==> t in typeMap && LastWasActive(inputs, t, s, o)
    {
      assert Before(inputs) == before;
      if last.Message? && last.error.errorType in typeMap {
        HoldsAfterMessage(typeMap, m, last.error, t, s, o);
        IsOfItsType(last.error, t, s, o);
      } else {
        OtherInputsChangeNothing(typeMap, m, last);
        if last.Message? { IsOfItsType(last.error, t, s, o); }
      }
    }
  }

  lemma IsOfItsType(e: Error, t: ErrorType, s: ErrorSubType, o: Origin)
    ensures IsOf(e, t, s, o) ==> e.errorType == t
  {
  }

  lemma {:induction false} FreeHandlesTellHistory(typeMap: set<ErrorType>, inputs: seq<Input>)
    requires HandlesFree(typeMap, inputs)
    ensures TellsHistory(typeMap, inputs)
    decreases |inputs|
  {
    hide HandleFree;
    if inputs != [] {
      var before, last := Before(inputs), inputs[|inputs| - 1];
      forall i | 0 <= i < |before| ensures HandleFree(typeMap, DbAfter(typeMap, before[..i]), before[i]) {
        assert before[..i] == inputs[..i];
      }
      FreeHandlesTellHistory(typeMap, before);
      TellsOneMore(typeMap, before, last);
    }
  }

  lemma TakenHandleLosesAnError(typeMap: set<ErrorType>, inputs: seq<Input>, i: nat)
    requires i < |inputs| && !HandleFree(typeMap, DbAfter(typeMap, inputs[..i]), inputs[i])
    ensures !TellsHistory(typeMap, inputs[..i + 1])
  {
    var e, m := inputs[i].error, HandleAll(typeMap, Manager(map[], [], []), inputs[..i]);
    assert inputs[..i + 1] == inputs[..i] + [inputs[i]];
    HandleAllOneMore(typeMap, Manager(map[], [], []), inputs[..i], inputs[i]);
    RaiseIsStoredAndHeard(typeMap, m, e);
    assert LastWasActive(inputs[..i + 1], e.errorType, e.subType, e.origin);
    assert !HoldsFor(m.db, e.errorType, e.subType, e.origin);
  }

  /** After every part of any input the manager stores an error for a key and origin exactly when its type is known
      and the last message for them was an active one, if and only if no message that could be stored comes under a
      handle that is taken. */
  lemma StoredAreTheLastActiveIffHandlesFree(typeMap: set<ErrorType>, inputs: seq<Input>)
    ensures (forall n: nat :: n <= |inputs| ==> TellsHistory(typeMap, inputs[..n])) <==> HandlesFree(typeMap, inputs)
  {
    hide TellsHistory, HandleFree;
    if HandlesFree(typeMap, inputs) {
      forall n: nat | n <= |inputs| ensures TellsHistory(typeMap, inputs[..n]) {
        forall i | 0 <= i < n ensures HandleFree(typeMap, DbAfter(typeMap, inputs[..n][..i]), inputs[..n][i]) {
          assert inputs[..n][..i] == inputs[..i];
        }
        FreeHandlesTellHistory(typeMap, inputs[..n]);
      }
    } else {
      var i :| 0 <= i < |inputs| && !HandleFree(typeMap, DbAfter(typeMap, inputs[..i]), inputs[i]);
      TakenHandleLosesAnError(typeMap, inputs, i);
    }
  }

  lemma {:induction false} SubscribersDoNotMatter(typeMap: set<ErrorType>, m: Manager, n: Manager, inputs: seq<Input>)
    requires m.db == n.db
    ensures HandleAll(typeMap, m, inputs).db == HandleAll(typeMap, n, inputs).db
    decreases |inputs|
  {
    if inputs != [] {
      SubscribersDoNotMatter(typeMap, Handle(typeMap, m, inputs[0]), Handle(typeMap, n, inputs[0]), inputs[1..]);
    }
  }

  /** What a subscriber has heard from the start tells the last message: raises outnumber clears, by one, exactly
      when it was an active one of a known type. */
  lemma SubscribersHearTheLastMessage(typeMap: set<ErrorType>, inputs: seq<Input>, who: nat, t: ErrorType,
                                      s: ErrorSubType, o: Origin)
    requires forall i :: 0 <= i < |inputs| ==> inputs[i] != Join(who)
    requires HandlesFree(typeMap, inputs)
    ensures var heard := HeardFor(HandleAll(typeMap, Manager(map[], [who], []), inputs).calls, who, t, s, o);
            Count(heard, true) - Count(heard, false)
              == if t in typeMap && LastWasActive(inputs, t, s, o) then 1 else 0
  {
    GlobalSubscriberTrace(typeMap, inputs, who, t, s, o);
    SubscribersDoNotMatter(typeMap, Manager(map[], [], []), Manager(map[], [who], []), inputs);
    FreeHandlesTellHistory(typeMap, inputs);
    HoldsForMeansActive(DbAfter(typeMap, inputs), t, s, o);
  }
}
