/** What a provider holds after a history of calls, told from the calls alone: which error is active, what was
    published, and what its state monitor answers. */
module ProviderHistory {
  import opened OrderedMaps
  import opened ErrorDatabase
  import opened ErrorManagers
  import opened ErrorReplication

  ghost function DbAfter(cfg: Config, calls: seq<ProviderAction>): Db
    decreases |calls|
  {
    if calls == [] then map[] else Act(cfg, DbAfter(cfg, calls[..|calls| - 1]), calls[|calls| - 1]).db
  }

  lemma {:induction false} HistoriesAreWellformed(cfg: Config, calls: seq<ProviderAction>)
    ensures Wellformed(cfg, DbAfter(cfg, calls))
    decreases |calls|
  {
    if calls != [] {
      HistoriesAreWellformed(cfg, calls[..|calls| - 1]);
      ActKeepsWellformed(cfg, DbAfter(cfg, calls[..|calls| - 1]), calls[|calls| - 1]);
    }
  }

  // ----- one call -----

  /** A clear that is meant for the type and sub type. */
  predicate Covers(a: ProviderAction, t: ErrorType, s: ErrorSubType) {
    match a
    case DoRaise(_) => false
    case DoClear(u, v) => u == t && v == s
    case DoClearAll => true
    case DoClearAllOfType(u) => u == t
  }

  /** A raise of an allowed type is published if and only if no error of its type and sub type is stored, another
      sub type being no obstacle; then the database gains the error if its handle is free. Nothing else happens. */
  lemma RaisesWithFreeKeysAreAccepted(cfg: Config, db: Db, e: Error)
    ensures var step, accepted := Act(cfg, db, DoRaise(e)),
                                  e.errorType in cfg.allowed && !Holds(db, e.errorType, e.subType);
            && step.published == (if accepted then [ErrorMessage(RaiseError, e)] else [])
            && step.db == if accepted && e.uuid !in db then db[e.uuid := e] else db
  {
    HoldsMeansActive(db, e.errorType, e.subType);
  }

  lemma FiltersCover(a: ProviderAction, e: Error)
    requires !a.DoRaise?
    ensures MatchesAll(FiltersOf(a), e) <==> Covers(a, e.errorType, e.subType)
  {
    var fs := FiltersOf(a);
    match a
    case DoClear(t, s) => assert fs[0] == TypeFilter(t) && fs[1] == SubTypeFilter(s);
    case DoClearAll =>
    case DoClearAllOfType(t) => assert fs[0] == TypeFilter(t);
  }

  lemma SelectedAreCovered(db: Db, a: ProviderAction)
    requires Keyed(db) && !a.DoRaise?
    ensures var xs := Select(db, FiltersOf(a));
            && (forall e :: e in xs ==> e.uuid in db && db[e.uuid] == e && Covers(a, e.errorType, e.subType))
            && Increasing(StringLess, Handles(xs))
            && |xs| + |Erase(db, xs)| == |db|
  {
    var fs := FiltersOf(a);
    RemovalSplits(db, fs);
    SelectIsExact(db, fs);
    hide Select, MatchesAll, Covers, FiltersOf;
    forall e | e in Select(db, fs) ensures Covers(a, e.errorType, e.subType) { FiltersCover(a, e); }
  }

  lemma CoveredAreRemoved(db: Db, a: ProviderAction)
    requires Keyed(db) && !a.DoRaise?
    ensures Erase(db, Select(db, FiltersOf(a)))
         == map h | h in db && !Covers(a, db[h].errorType, db[h].subType) :: db[h]
  {
    RemovalKeepsTheRest(db, FiltersOf(a));
    hide Select, MatchesAll, Covers, FiltersOf, Erase;
    forall h | h in db ensures MatchesAll(FiltersOf(a), db[h]) <==> Covers(a, db[h].errorType, db[h].subType) {
      FiltersCover(a, db[h]);
    }
  }

  lemma ActIsClear(cfg: Config, db: Db, a: ProviderAction)
    requires !a.DoRaise?
    ensures var xs := Select(db, FiltersOf(a)); Act(cfg, db, a) == ProviderStep(Erase(db, xs), ClearMessages(xs))
  {
    hide Select, Erase;
  }

  /** Any clear removes exactly the stored errors it covers, and publishes one message for each, in handle order:
      the error as stored, but marked as cleared by the module. */
  lemma ClearsPublishWhatTheyRemove(cfg: Config, db: Db, a: ProviderAction)
    requires Keyed(db) && !a.DoRaise?
    ensures var step := Act(cfg, db, a);
            && step.db == (map h | h in db && !Covers(a, db[h].errorType, db[h].subType) :: db[h])
            && |step.published| + |step.db| == |db|
            && (forall i :: 0 <= i < |step.published| ==> IsClearOf(db, a, step.published[i]))
            && (forall i, j :: 0 <= i < j < |step.published| ==>
                  StringLess(step.published[i].error.uuid, step.published[j].error.uuid))
  {
    hide Covers, FiltersOf, Select, Erase, Act, StringLess;
    var xs := Select(db, FiltersOf(a));
    ActIsClear(cfg, db, a);
    CoveredAreRemoved(db, a);
    SelectedAreCovered(db, a);
    forall i | 0 <= i < |xs| ensures IsClearOf(db, a, ClearMessages(xs)[i]) { assert xs[i] in xs; }
    forall i, j | 0 <= i < j < |xs| ensures StringLess(xs[i].uuid, xs[j].uuid) {
      assert Handles(xs)[i] == xs[i].uuid && Handles(xs)[j] == xs[j].uuid;
    }
  }

  ghost predicate IsClearOf(db: Db, a: ProviderAction, m: ErrorMessage) {
    && m.kind == ClearError && m.error.uuid in db
    && var e := db[m.error.uuid];
       Covers(a, e.errorType, e.subType) && m.error == e.(state := ClearedByModule)
  }

  // ----- histories -----

  predicate Raises(cfg: Config, a: ProviderAction, t: ErrorType, s: ErrorSubType) {
    a.DoRaise? && t in cfg.allowed && a.error.errorType == t && a.error.subType == s
  }

  /** Some raise of the type and sub type, which must be allowed, has no later clear that covers it. */
  ghost predicate Lasting(cfg: Config, calls: seq<ProviderAction>, t: ErrorType, s: ErrorSubType) {
    exists i :: 0 <= i < |calls| && Raises(cfg, calls[i], t, s) && NotClearedFrom(calls, i, t, s)
  }

  ghost predicate NotClearedFrom(calls: seq<ProviderAction>, i: nat, t: ErrorType, s: ErrorSubType) {
    forall j :: i < j < |calls| ==> !Covers(calls[j], t, s)
  }

  /** No call raises an allowed type under a handle that is taken, unless its type and sub type are active anyway. */
  ghost predicate HandlesFree(cfg: Config, calls: seq<ProviderAction>) {
    forall i :: 0 <= i < |calls| ==> HandleFree(cfg, DbAfter(cfg, calls[..i]), calls[i])
  }

  ghost predicate HandleFree(cfg: Config, db: Db, a: ProviderAction) {
    a.DoRaise? && a.error.errorType in cfg.allowed ==>
      a.error.uuid !in db || Holds(db, a.error.errorType, a.error.subType)
  }

  /** The stored errors are the lasting raises. */
  ghost predicate TellsHistory(cfg: Config, calls: seq<ProviderAction>) {
    forall t, s :: Holds(DbAfter(cfg, calls), t, s) <==> Lasting(cfg, calls, t, s)
  }

  lemma LastingOneMore(cfg: Config, before: seq<ProviderAction>, a: ProviderAction, t: ErrorType, s: ErrorSubType)
    ensures Lasting(cfg, before + [a], t, s)
       <==> Raises(cfg, a, t, s) || (Lasting(cfg, before, t, s) && !Covers(a, t, s))
  {
    var calls := before + [a];
    assert forall j :: 0 <= j < |before| ==> calls[j] == before[j];
    if Raises(cfg, a, t, s) {
      assert Raises(cfg, calls[|before|], t, s) && NotClearedFrom(calls, |before|, t, s);
    } else if Lasting(cfg, before, t, s) && !Covers(a, t, s) {
      var i :| 0 <= i < |before| && Raises(cfg, before[i], t, s) && NotClearedFrom(before, i, t, s);
      assert Raises(cfg, calls[i], t, s) && NotClearedFrom(calls, i, t, s);
    }
    if Lasting(cfg, calls, t, s) && !Raises(cfg, a, t, s) {
      var i :| 0 <= i < |calls| && Raises(cfg, calls[i], t, s) && NotClearedFrom(calls, i, t, s);
      assert i < |before| && Raises(cfg, before[i], t, s);
      assert !Covers(calls[|before|], t, s);
      forall j | i < j < |before| ensures !Covers(before[j], t, s) { assert !Covers(calls[j], t, s); }
      assert NotClearedFrom(before, i, t, s);
    }
  }

  lemma HoldsAfterRaise(db: Db, next: Db, e: Error, added: bool, t: ErrorType, s: ErrorSubType)
    requires next == if added && e.uuid !in db then db[e.uuid := e] else db
    requires added && e.uuid in db ==> Holds(db, e.errorType, e.subType)
    ensures Holds(next, t, s) <==> Holds(db, t, s) || (added && e.errorType == t && e.subType == s)
  {
    if added && e.uuid !in db { assert next[e.uuid] == e; }
    if Holds(db, t, s) {
      var h :| h in db && db[h].errorType == t && db[h].subType == s;
      assert h in next && next[h] == db[h];
    }
  }

  lemma HoldsAfterClear(db: Db, next: Db, a: ProviderAction, t: ErrorType, s: ErrorSubType)
    requires next == map h | h in db && !Covers(a, db[h].errorType, db[h].subType) :: db[h]
    ensures Holds(next, t, s) <==> Holds(db, t, s) && !Covers(a, t, s)
  {
    hide Covers;
    if Holds(db, t, s) && !Covers(a, t, s) {
      var h :| h in db && db[h].errorType == t && db[h].subType == s;
      assert h in next && next[h] == db[h];
    }
  }

  /** What one call does to the keys that are stored. */
  lemma HoldsAfterCall(cfg: Config, db: Db, a: ProviderAction, t: ErrorType, s: ErrorSubType)
    requires Keyed(db) && HandleFree(cfg, db, a)
    ensures Holds(Act(cfg, db, a).db, t, s) <==> Raises(cfg, a, t, s) || (Holds(db, t, s) && !Covers(a, t, s))
  {
    hide Act, Keyed, Holds;
    if a.DoRaise? {
      var e := a.error;
      RaisesWithFreeKeysAreAccepted(cfg, db, e);
      var accepted := e.errorType in cfg.allowed && !Holds(db, e.errorType, e.subType);
      HoldsAfterRaise(db, Act(cfg, db, a).db, e, accepted, t, s);
    } else {
      ClearsPublishWhatTheyRemove(cfg, db, a);
      hide Covers;
      HoldsAfterClear(db, Act(cfg, db, a).db, a, t, s);
    }
  }

  lemma {:induction false} FreeHandlesTellHistory(cfg: Config, calls: seq<ProviderAction>)
    requires HandlesFree(cfg, calls)
    ensures TellsHistory(cfg, calls)
    decreases |calls|
  {
    hide HandleFree, Covers, Raises, Act;
    if calls == [] {
      assert DbAfter(cfg, calls) == map[];
    } else {
      var before, last := calls[..|calls| - 1], calls[|calls| - 1];
      assert calls == before + [last];
      assert HandlesFree(cfg, before) by {
        forall i | 0 <= i < |before| ensures HandleFree(cfg, DbAfter(cfg, before[..i]), before[i]) {
          assert before[..i] == calls[..i];
        }
      }
      FreeHandlesTellHistory(cfg, before);
      HistoriesAreWellformed(cfg, before);
      hide Holds, Lasting;
      forall t, s ensures Holds(DbAfter(cfg, calls), t, s) <==> Lasting(cfg, calls, t, s) {
        HoldsAfterCall(cfg, DbAfter(cfg, before), last, t, s);
        LastingOneMore(cfg, before, last, t, s);
      }
    }
  }

  lemma TakenHandleLosesAnError(cfg: Config, calls: seq<ProviderAction>, i: nat)
    requires i < |calls| && !HandleFree(cfg, DbAfter(cfg, calls[..i]), calls[i])
    ensures !TellsHistory(cfg, calls[..i + 1])
  {
    var db, e := DbAfter(cfg, calls[..i]), calls[i].error;
    RaisesWithFreeKeysAreAccepted(cfg, db, e);
    assert calls[..i + 1][..i] == calls[..i];
    assert DbAfter(cfg, calls[..i + 1]) == db;
    LastingOneMore(cfg, calls[..i], calls[i], e.errorType, e.subType);
    assert calls[..i + 1] == calls[..i] + [calls[i]];
  }

  /** After every part of a history the active errors are exactly the lasting raises, if and only if no raise that
      could be accepted uses a taken handle. */
  lemma ActiveAreTheLastingRaisesIffHandlesFree(cfg: Config, calls: seq<ProviderAction>)
    ensures (forall n: nat :: n <= |calls| ==> TellsHistory(cfg, calls[..n])) <==> HandlesFree(cfg, calls)
  {
    hide TellsHistory, HandleFree;
    if HandlesFree(cfg, calls) {
      forall n: nat | n <= |calls| ensures TellsHistory(cfg, calls[..n]) {
        assert HandlesFree(cfg, calls[..n]) by {
          forall i | 0 <= i < n ensures HandleFree(cfg, DbAfter(cfg, calls[..n][..i]), calls[..n][i]) {
            assert calls[..n][..i] == calls[..i];
          }
        }
        FreeHandlesTellHistory(cfg, calls[..n]);
      }
    } else {
      var i :| 0 <= i < |calls| && !HandleFree(cfg, DbAfter(cfg, calls[..i]), calls[i]);
      TakenHandleLosesAnError(cfg, calls, i);
    }
  }

  ghost predicate HandlesDistinct(calls: seq<ProviderAction>) {
    forall i, j :: 0 <= i < j < |calls| && calls[i].DoRaise? && calls[j].DoRaise? ==>
      calls[i].error.uuid != calls[j].error.uuid
  }

  /** Stored errors were raised under their handles. */
  lemma {:induction false} StoredWereRaised(cfg: Config, calls: seq<ProviderAction>, h: ErrorHandle)
    requires h in DbAfter(cfg, calls)
    ensures exists i :: 0 <= i < |calls| && calls[i].DoRaise? && calls[i].error.uuid == h
    decreases |calls|
  {
    var before, last := calls[..|calls| - 1], calls[|calls| - 1];
    HistoriesAreWellformed(cfg, before);
    if last.DoRaise? {
      RaisesWithFreeKeysAreAccepted(cfg, DbAfter(cfg, before), last.error);
    } else {
      ClearsPublishWhatTheyRemove(cfg, DbAfter(cfg, before), last);
    }
    hide Act;
    if h in DbAfter(cfg, before) { StoredWereRaised(cfg, before, h); }
  }

  /** With a handle of its own for every raise, as the error factory gives them, an error is active exactly while
      some raise of it has not been cleared, and the state monitor says so. */
  lemma DistinctHandlesTellHistory(cfg: Config, calls: seq<ProviderAction>, t: ErrorType, s: ErrorSubType)
    requires HandlesDistinct(calls)
    ensures var db, lasting := DbAfter(cfg, calls), Lasting(cfg, calls, t, s);
            && (Holds(db, t, s) <==> lasting)
            && (Satisfies(db, StateCondition(t, s, true)) <==> lasting)
            && (Satisfies(db, StateCondition(t, s, false)) <==> !lasting)
  {
    forall i | 0 <= i < |calls| ensures HandleFree(cfg, DbAfter(cfg, calls[..i]), calls[i]) {
      if calls[i].DoRaise? && calls[i].error.uuid in DbAfter(cfg, calls[..i]) {
        StoredWereRaised(cfg, calls[..i], calls[i].error.uuid);
      }
    }
    FreeHandlesTellHistory(cfg, calls);
    HoldsMeansActive(DbAfter(cfg, calls), t, s);
  }
}
