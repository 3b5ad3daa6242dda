/** Errors, the filters that select them, and the map-backed error database. */
module ErrorDatabase {
  import opened OrderedMaps

  type ErrorType = string
  type ErrorSubType = string
  type ErrorHandle = string

  datatype Severity = Low | Medium | High

  datatype State = Active | ClearedByModule | ClearedByReboot

  /** Who raised an error. `mapping` (EVSE and connector) takes no part in comparisons. */
  datatype Origin = Origin(moduleId: string, implementationId: string, mapping: seq<int>) {
    predicate Same(other: Origin) {
      moduleId == other.moduleId && implementationId == other.implementationId
    }
  }

  datatype Error = Error(
    errorType: ErrorType, subType: ErrorSubType, message: string, description: string,
    origin: Origin, vendorId: string, severity: Severity, timestamp: int,
    uuid: ErrorHandle, state: State)

  datatype ErrorFilter =
    | Unset
    | StateFilter(state: State)
    | OriginFilter(origin: Origin)
    | TypeFilter(errorType: ErrorType)
    | SeverityFilter(atLeast: Severity)
    | TimePeriodFilter(from: int, to: int)
    | HandleFilter(handle: ErrorHandle)
    | SubTypeFilter(subType: ErrorSubType)
    | VendorIdFilter(vendorId: string)

  function Rank(s: Severity): nat {
    match s case Low => 0 case Medium => 1 case High => 2
  }

  /** What a filter asks for. The database supports no state filter, and an unset filter counts as one. */
  predicate Matches(f: ErrorFilter, e: Error) {
    match f
    case Unset => true
    case StateFilter(_) => true
    case OriginFilter(o) => e.origin.Same(o)
    case TypeFilter(t) => e.errorType == t
    case SeverityFilter(s) => Rank(e.severity) >= Rank(s)
    case TimePeriodFilter(from, to) => from <= e.timestamp <= to
    case HandleFilter(h) => e.uuid == h
    case SubTypeFilter(s) => e.subType == s
    case VendorIdFilter(v) => e.vendorId == v
  }

  ghost predicate MatchesAll(filters: seq<ErrorFilter>, e: Error) {
    forall i :: 0 <= i < |filters| ==> Matches(filters[i], e)
  }

  type Db = map<ErrorHandle, Error>

  /** Every error is stored under its own handle. */
  ghost predicate Keyed(db: Db) {
    forall h :: h in db ==> db[h].uuid == h
  }

  /** The stored errors in handle order, which is how `std::map` hands them out. */
  function Listing(db: Db): (r: seq<Error>)
    ensures |r| == |db|
  {
    var ks := SortedKeys(db);
    seq(|ks|, i requires 0 <= i < |ks| => db[ks[i]])
  }

  /** One `remove_if` pass: what a single filter leaves of a list. */
  function Pass(f: ErrorFilter, xs: seq<Error>): seq<Error> {
    if xs == [] then []
    else if Matches(f, xs[0]) then [xs[0]] + Pass(f, xs[1..]) else Pass(f, xs[1..])
  }

  /** The elements of a list that every filter accepts, in the order of the list. */
  ghost function Narrow(filters: seq<ErrorFilter>, xs: seq<Error>): seq<Error> {
    if xs == [] then []
    else if MatchesAll(filters, xs[0]) then [xs[0]] + Narrow(filters, xs[1..]) else Narrow(filters, xs[1..])
  }

  /** The answer to a query: the stored errors that satisfy all filters, in handle order. */
  ghost function Select(db: Db, filters: seq<ErrorFilter>): seq<Error> {
    Narrow(filters, Listing(db))
  }

  ghost function Handles(xs: seq<Error>): (hs: seq<ErrorHandle>)
    ensures |hs| == |xs|
  {
    seq(|xs|, i requires 0 <= i < |xs| => xs[i].uuid)
  }

  function Erase(db: Db, xs: seq<Error>): Db {
    db - (set i | 0 <= i < |xs| :: xs[i].uuid)
  }

  function Add(db: Db, e: Error): Db {
    if e.uuid in db then db else db[e.uuid := e]
  }

  /** The list is narrowed by one pass for each filter. */
  method RemoveUnwanted(all: seq<Error>, filters: seq<ErrorFilter>) returns (result: seq<Error>)
    ensures result == Narrow(filters, all)
  {
    result := all;
    NarrowByNothing(all);
    for i := 0 to |filters|
      invariant result == Narrow(filters[..i], all)
    {
      PassNarrows(filters[..i], filters[i], all);
      assert filters[..i + 1] == filters[..i] + [filters[i]];
      result := Pass(filters[i], result);
    }
    assert filters[..|filters|] == filters;
  }

  class ErrorDatabaseMap {
    var errors: Db

    ghost predicate Valid()
      reads this
    {
      Keyed(errors)
    }

    constructor ()
      ensures Valid() && errors == map[]
    {
      errors := map[];
    }

    /** A handle that is already present is refused: the stored error stays. */
    method AddError(error: Error)
      requires Valid()
      modifies this
      ensures Valid()
      ensures errors == Add(old(errors), error)
    {
      if error.uuid in errors {
        return;
      }
      errors := errors[error.uuid := error];
    }

    method GetErrors(filters: seq<ErrorFilter>) returns (result: seq<Error>)
      ensures result == Select(errors, filters)
    {
      result := RemoveUnwanted(Listing(errors), filters);
    }

    /** Erases, by handle, the errors a query selects, and returns them. */
    method RemoveErrors(filters: seq<ErrorFilter>) returns (result: seq<Error>)
      requires Valid()
      modifies this
      ensures Valid()
      ensures result == Select(old(errors), filters)
      ensures errors == Erase(old(errors), result)
    {
      result := GetErrors(filters);
      for i := 0 to |result|
        invariant errors == Erase(old(errors), result[..i])
        invariant Valid()
      {
        EraseOneMore(old(errors), result, i);
        errors := errors - {result[i].uuid};
      }
      assert result[..|result|] == result;
    }
  }

  lemma EraseOneMore(db: Db, xs: seq<Error>, i: nat)
    requires i < |xs|
    ensures Erase(db, xs[..i + 1]) == Erase(db, xs[..i]) - {xs[i].uuid}
  {
    var ys, zs := xs[..i], xs[..i + 1];
    var a := set j | 0 <= j < |ys| :: ys[j].uuid;
    var b := set j | 0 <= j < |zs| :: zs[j].uuid;
    forall h ensures h in b <==> h in a + {xs[i].uuid} {
      if h in b {
        var j :| 0 <= j < |zs| && zs[j].uuid == h;
        if j < i { assert ys[j].uuid == h; }
      }
      if h in a {
        var j :| 0 <= j < |ys| && ys[j].uuid == h;
        assert zs[j].uuid == h;
      }
      assert zs[i].uuid == xs[i].uuid;
    }
    assert b == a + {xs[i].uuid};
  }

  // ----- what successive passes compute -----

  lemma {:induction false} NarrowByNothing(xs: seq<Error>)
    ensures Narrow([], xs) == xs
  {
    if xs != [] { NarrowByNothing(xs[1..]); }
  }

  lemma {:induction false} PassNarrows(filters: seq<ErrorFilter>, f: ErrorFilter, xs: seq<Error>)
    ensures Pass(f, Narrow(filters, xs)) == Narrow(filters + [f], xs)
  {
    if xs != [] {
      PassNarrows(filters, f, xs[1..]);
      assert MatchesAll(filters + [f], xs[0]) <==> MatchesAll(filters, xs[0]) && Matches(f, xs[0]) by {
        var both := filters + [f];
        assert both[|filters|] == f;
        assert forall i :: 0 <= i < |filters| ==> both[i] == filters[i];
      }
    }
  }

  // ----- the filter algebra -----

  lemma {:induction false} NarrowContents(filters: seq<ErrorFilter>, xs: seq<Error>)
    ensures forall e :: e in Narrow(filters, xs) <==> e in xs && MatchesAll(filters, e)
  {
    if xs != [] { NarrowContents(filters, xs[1..]); }
  }

  lemma {:induction false} NarrowOrder(filters: seq<ErrorFilter>, xs: seq<Error>)
    requires Increasing(StringLess, Handles(xs))
    ensures Increasing(StringLess, Handles(Narrow(filters, xs)))
  {
    if xs != [] {
      assert Increasing(StringLess, Handles(xs[1..])) by { assert Handles(xs)[1..] == Handles(xs[1..]); }
      NarrowOrder(filters, xs[1..]);
      NarrowContents(filters, xs[1..]);
      var rest := Narrow(filters, xs[1..]);
      var out := Narrow(filters, xs);
      if MatchesAll(filters, xs[0]) {
        forall i, j | 0 <= i < j < |out| ensures StringLess(Handles(out)[i], Handles(out)[j]) {
          assert out[j] == rest[j - 1];
          if i == 0 {
            assert out[j] in xs[1..];
            var k :| 0 <= k < |xs[1..]| && xs[1..][k] == out[j];
            assert Handles(xs)[k + 1] == out[j].uuid;
            assert StringLess(Handles(xs)[0], Handles(xs)[k + 1]);
          } else {
            assert out[i] == rest[i - 1];
            assert StringLess(Handles(rest)[i - 1], Handles(rest)[j - 1]);
          }
        }
      }
    }
  }

  lemma ListingContents(db: Db)
    requires Keyed(db)
    ensures Increasing(StringLess, Handles(Listing(db)))
    ensures forall e :: e in Listing(db) <==> e.uuid in db && db[e.uuid] == e
  {
    var ks := SortedKeys(db);
    var l := Listing(db);
    assert Handles(l) == ks by {
      assert forall i :: 0 <= i < |ks| ==> ks[i] in ks;
    }
    forall e ensures e in l <==> e.uuid in db && db[e.uuid] == e {
      if e in l {
        var i :| 0 <= i < |l| && l[i] == e;
        assert ks[i] in ks;
      }
      if e.uuid in db && db[e.uuid] == e {
        assert e.uuid in ks;
        var i :| 0 <= i < |ks| && ks[i] == e.uuid;
        assert l[i] == e;
      }
    }
  }

  /** A query returns exactly the stored errors that satisfy every filter, in handle order, each once. */
  lemma SelectIsExact(db: Db, filters: seq<ErrorFilter>)
    requires Keyed(db)
    ensures Increasing(StringLess, Handles(Select(db, filters)))
    ensures forall e :: e in Select(db, filters) <==> e.uuid in db && db[e.uuid] == e && MatchesAll(filters, e)
  {
    ListingContents(db);
    NarrowOrder(filters, Listing(db));
    NarrowContents(filters, Listing(db));
  }

  ghost predicate IsStored(db: Db, e: Error) {
    e.uuid in db && db[e.uuid] == e
  }

  /** What each kind of filter finds: time spans include both ends, severities those above, and an origin is a module
      and an implementation wherever they are mounted. */
  lemma FiltersFind(db: Db, e: Error)
    requires Keyed(db) && IsStored(db, e)
    ensures forall o: Origin :: e in Select(db, [OriginFilter(o)]) <==>
              e.origin.moduleId == o.moduleId && e.origin.implementationId == o.implementationId
    ensures forall t :: e in Select(db, [TypeFilter(t)]) <==> e.errorType == t
    ensures forall s :: e in Select(db, [SubTypeFilter(s)]) <==> e.subType == s
    ensures forall h :: e in Select(db, [HandleFilter(h)]) <==> e.uuid == h
    ensures forall v :: e in Select(db, [VendorIdFilter(v)]) <==> e.vendorId == v
    ensures forall a, b :: e in Select(db, [TimePeriodFilter(a, b)]) <==> a <= e.timestamp && e.timestamp <= b
    ensures e in Select(db, [SeverityFilter(Low)])
    ensures e in Select(db, [SeverityFilter(Medium)]) <==> e.severity == Medium || e.severity == High
    ensures e in Select(db, [SeverityFilter(High)]) <==> e.severity == High
  {
    hide Select;
    forall f ensures e in Select(db, [f]) <==> Matches(f, e) {
      SelectIsExact(db, [f]);
      assert [f][0] == f;
    }
  }

  lemma {:induction false} NarrowDependsOnMeaning(fs: seq<ErrorFilter>, gs: seq<ErrorFilter>, xs: seq<Error>)
    requires forall e :: e in xs ==> (MatchesAll(fs, e) <==> MatchesAll(gs, e))
    ensures Narrow(fs, xs) == Narrow(gs, xs)
  {
    if xs != [] {
      assert xs[0] in xs;
      NarrowDependsOnMeaning(fs, gs, xs[1..]);
    }
  }

  /** The order in which filters are given, and giving one twice, change nothing. */
  lemma FilterOrderIsIrrelevant(db: Db, fs: seq<ErrorFilter>, gs: seq<ErrorFilter>)
    requires forall f :: f in fs <==> f in gs
    ensures Select(db, fs) == Select(db, gs)
  {
    forall e ensures MatchesAll(fs, e) <==> MatchesAll(gs, e) {
      MatchesAllIsMembership(fs, e);
      MatchesAllIsMembership(gs, e);
    }
    NarrowDependsOnMeaning(fs, gs, Listing(db));
  }

  lemma MatchesAllIsMembership(fs: seq<ErrorFilter>, e: Error)
    ensures MatchesAll(fs, e) <==> forall f :: f in fs ==> Matches(f, e)
  {
    assert forall i :: 0 <= i < |fs| ==> fs[i] in fs;
  }

  /** A state filter or an unset filter, wherever it stands in the list, removes nothing. */
  lemma StateFiltersRemoveNothing(db: Db, before: seq<ErrorFilter>, f: ErrorFilter, after: seq<ErrorFilter>)
    requires f.StateFilter? || f.Unset?
    ensures Select(db, before + [f] + after) == Select(db, before + after)
  {
    var fs, gs := before + [f] + after, before + after;
    forall e ensures MatchesAll(fs, e) <==> MatchesAll(gs, e) {
      MatchesAllIsMembership(fs, e);
      MatchesAllIsMembership(gs, e);
    }
    NarrowDependsOnMeaning(fs, gs, Listing(db));
  }

  lemma EraseContents(db: Db, xs: seq<Error>)
    ensures forall h :: h in Erase(db, xs) <==> h in db && !(exists e :: e in xs && e.uuid == h)
    ensures forall h :: h in Erase(db, xs) ==> Erase(db, xs)[h] == db[h]
  {
    var gone := set i | 0 <= i < |xs| :: xs[i].uuid;
    forall h ensures h in gone <==> exists e :: e in xs && e.uuid == h {
      if h in gone {
        var i :| 0 <= i < |xs| && xs[i].uuid == h;
        assert xs[i] in xs;
      }
    }
  }

  /** What is left after a removal: exactly the stored errors the filters do not all accept. */
  lemma RemovalKeepsTheRest(db: Db, filters: seq<ErrorFilter>)
    requires Keyed(db)
    ensures var rest := Erase(db, Select(db, filters));
            && (forall h :: h in rest <==> h in db && !MatchesAll(filters, db[h]))
            && (forall h :: h in rest ==> rest[h] == db[h])
            && Keyed(rest)
  {
    var gone := Select(db, filters);
    SelectIsExact(db, filters);
    EraseContents(db, gone);
    forall h | h in db
      ensures (exists e :: e in gone && e.uuid == h) <==> MatchesAll(filters, db[h])
    {
      if MatchesAll(filters, db[h]) {
        assert db[h] in gone && db[h].uuid == h;
      }
    }
  }

  /** Removal splits the database: returned part and remainder are disjoint, together they are the
      whole database, and the same query finds nothing afterwards. */
  lemma RemovalSplits(db: Db, filters: seq<ErrorFilter>)
    requires Keyed(db)
    ensures var gone := Select(db, filters);
            var rest := Erase(db, gone);
            && (forall h :: h in db <==> (h in rest || exists e :: e in gone && e.uuid == h))
            && (forall e :: e in gone ==> e.uuid !in rest && e.uuid in db && db[e.uuid] == e)
            && |gone| + |rest| == |db|
            && Select(rest, filters) == []
  {
    var gone := Select(db, filters);
    var rest := Erase(db, gone);
    SelectIsExact(db, filters);
    EraseContents(db, gone);
    RemovalKeepsTheRest(db, filters);
    SelectIsExact(rest, filters);
    assert Select(rest, filters) == [] by {
      if Select(rest, filters) != [] {
        HasAnElement(Select(rest, filters));
      }
    }
    var handles := set i | 0 <= i < |gone| :: gone[i].uuid;
    HandleSetSize(gone);
    assert handles <= db.Keys by {
      forall h | h in handles ensures h in db {
        var i :| 0 <= i < |gone| && gone[i].uuid == h;
        assert gone[i] in gone;
      }
    }
    assert rest.Keys == db.Keys - handles;
    assert |rest.Keys| == |db.Keys| - |handles|;
  }

  lemma {:induction false} HandleSetSize(xs: seq<Error>)
    requires Increasing(StringLess, Handles(xs))
    ensures |set i | 0 <= i < |xs| :: xs[i].uuid| == |xs|
  {
    var handles := set i | 0 <= i < |xs| :: xs[i].uuid;
    if xs == [] {
      assert handles == {};
    } else {
      var rest := set i | 0 <= i < |xs[1..]| :: xs[1..][i].uuid;
      assert Handles(xs)[1..] == Handles(xs[1..]);
      HandleSetSize(xs[1..]);
      forall h ensures h in handles <==> h in {xs[0].uuid} + rest {
        if h in handles {
          var i :| 0 <= i < |xs| && xs[i].uuid == h;
          if i > 0 { assert xs[1..][i - 1].uuid == h; }
        }
        if h in rest {
          var i :| 0 <= i < |xs[1..]| && xs[1..][i].uuid == h;
          assert xs[i + 1].uuid == h;
        }
      }
      assert handles == {xs[0].uuid} + rest;
      if xs[0].uuid in rest {
        var i :| 0 <= i < |xs[1..]| && xs[1..][i].uuid == xs[0].uuid;
        assert StringLess(Handles(xs)[0], Handles(xs)[i + 1]);
        StringLessIrreflexive(xs[0].uuid);
      }
    }
  }
}
