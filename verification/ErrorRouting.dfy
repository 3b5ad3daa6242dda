/** Error topics: an error message of an implementation reaches the handler subscribed to that implementation
    and error type, and the handler of a module that listens to all its errors, and no other. Of the requirements
    of a module connected to one implementation only the last one keeps its handlers. */
module ErrorRouting {
  import opened MessageHandling
  import opened OrderedMaps
  import opened Requirements
  import opened TopicMatching

  /** `{base}/modules/{moduleId}/impl/{implementationId}/error/{rest}`; the configured prefix is `base` with a
      separator. */
  function Under(base: string, moduleId: string, implementationId: string, rest: string): string {
    var inImplementation := implementationId + "/" + ("error" + "/" + rest);
    base + "/" + ("modules" + "/" + (moduleId + "/" + ("impl" + "/" + inImplementation)))
  }

  function ErrorTopic(base: string, moduleId: string, implementationId: string, errorType: string): string {
    Under(base, moduleId, implementationId, errorType)
  }

  function AllErrorsFilter(base: string, moduleId: string, implementationId: string): string {
    Under(base, moduleId, implementationId, "#")
  }

  /** Where an implementation publishes errors of a type. */
  lemma ErrorTopicByName(base: string, m: string, i: string, errorType: string)
    ensures ErrorTopic(base, m, i, errorType) == base + "/modules/" + m + "/impl/" + i + "/error/" + errorType
  {
    var tail := "/" + errorType;
    assert "error" + tail == "error/" + errorType;
    assert i + "/" + ("error/" + errorType) == i + "/error/" + errorType;
    assert "impl" + "/" + (i + "/error/" + errorType) == "impl/" + i + "/error/" + errorType;
    assert m + "/" + ("impl/" + i + "/error/" + errorType) == m + "/impl/" + i + "/error/" + errorType;
    assert "modules" + "/" + (m + "/impl/" + i + "/error/" + errorType)
        == "modules/" + m + "/impl/" + i + "/error/" + errorType;
  }

  predicate NoWildcard(s: string) {
    '+' !in s && '#' !in s
  }

  /** What the schemas of configuration and manifest allow as module and implementation ids. */
  ghost predicate CleanId(s: string) {
    s != "" && NoWildcard(s) && '/' !in s
  }

  /** An error type is a namespace and a name with a separator between. */
  ghost predicate CleanType(s: string) {
    NoWildcard(s) && NoTrailingSlash(s)
  }

  ghost predicate Clean(base: string, moduleId: string, implementationId: string) {
    NoWildcard(base) && CleanId(moduleId) && CleanId(implementationId)
  }

  // ----- levels of these topics -----

  lemma {:induction false} LevelsConcat(a: string, b: string)
    ensures Levels(a + "/" + b) == Levels(a) + Levels(b)
  {
    if a == "" {
      assert a + "/" + b == "/" + b;
      assert ("/" + b)[1..] == b;
    } else {
      assert (a + "/" + b)[1..] == a[1..] + "/" + b;
      LevelsConcat(a[1..], b);
    }
  }

  function Stem(base: string, moduleId: string, implementationId: string): seq<string> {
    Levels(base) + ["modules", moduleId, "impl", implementationId, "error"]
  }

  lemma LevelsOfTwoParts(p: string, q: string, rest: string)
    requires '/' !in p && '/' !in q
    ensures Levels(p + "/" + (q + "/" + rest)) == [p, q] + Levels(rest)
  {
    LevelsOfPartThenRest(p, q + "/" + rest);
    LevelsOfPartThenRest(q, rest);
  }

  lemma LevelsUnderImplementation(base: string, m: string, i: string, rest: string)
    requires CleanId(m) && CleanId(i)
    ensures Levels(Under(base, m, i, rest)) == Stem(base, m, i) + Levels(rest)
  {
    var afterId := "error" + "/" + rest;
    var afterModule := "impl" + "/" + (i + "/" + afterId);
    LevelsConcat(base, "modules" + "/" + (m + "/" + afterModule));
    LevelsOfTwoParts("modules", m, afterModule);
    LevelsOfTwoParts("impl", i, afterId);
    LevelsOfPartThenRest("error", rest);
  }

  lemma NoWildcardJoined(a: string, b: string)
    requires NoWildcard(a) && NoWildcard(b)
    ensures NoWildcard(a + "/" + b)
  {
  }

  lemma NoWildcardUnder(base: string, m: string, i: string, rest: string)
    requires Clean(base, m, i) && NoWildcard(rest)
    ensures NoWildcard(Under(base, m, i, rest))
  {
    var afterId := "error" + "/" + rest;
    var afterImpl := i + "/" + afterId;
    var afterModule := "impl" + "/" + afterImpl;
    var afterModules := m + "/" + afterModule;
    NoWildcardJoined("error", rest);
    NoWildcardJoined(i, afterId);
    NoWildcardJoined("impl", afterImpl);
    NoWildcardJoined(m, afterModule);
    NoWildcardJoined("modules", afterModules);
    NoWildcardJoined(base, "modules" + "/" + afterModules);
  }

  lemma {:induction false} LevelsKeepClean(s: string)
    requires NoWildcard(s)
    ensures forall k :: 0 <= k < |Levels(s)| ==> NoWildcard(Levels(s)[k])
  {
    if s != "" { LevelsKeepClean(s[1..]); }
  }

  ghost predicate WildcardFree(levels: seq<string>) {
    forall k :: 0 <= k < |levels| ==> NoWildcard(levels[k])
  }

  lemma CleanTextIsClean(s: string)
    requires s != "" && NoWildcard(s) && NoTrailingSlash(s) && WildcardFree(Levels(s))
    ensures TopicName(s) && ValidFilter(s) && !Misread(s) && Last(Levels(s)) != "#"
  {
    var f := Levels(s);
    assert NoWildcard(f[|f| - 1]);
  }

  lemma TopicIsClean(base: string, m: string, i: string, errorType: string)
    requires Clean(base, m, i) && CleanType(errorType)
    ensures var topic := ErrorTopic(base, m, i, errorType);
            && TopicName(topic) && NoTrailingSlash(topic)
            && ValidFilter(topic) && !Misread(topic)
            && WildcardFree(Levels(topic)) && Last(Levels(topic)) != "#"
  {
    var topic := ErrorTopic(base, m, i, errorType);
    LevelsUnderImplementation(base, m, i, errorType);
    NoWildcardUnder(base, m, i, errorType);
    LevelsKeepClean(topic);
    assert Last(Levels(topic)) == Last(Levels(errorType));
    CleanTextIsClean(topic);
  }

  lemma FilterIsClean(base: string, m: string, i: string)
    requires Clean(base, m, i)
    ensures var filter := AllErrorsFilter(base, m, i);
            && Levels(filter) == Stem(base, m, i) + ["#"]
            && ValidFilter(filter) && !Misread(filter)
  {
    var filter := AllErrorsFilter(base, m, i);
    LevelsUnderImplementation(base, m, i, "#");
    LevelsOfPart("#");
    StemIsClean(base, m, i);
    var f := Levels(filter);
    assert f[..|f| - 1] == Stem(base, m, i);
  }

  lemma StemIsClean(base: string, m: string, i: string)
    requires Clean(base, m, i)
    ensures WildcardFree(Stem(base, m, i))
  {
    LevelsKeepClean(base);
  }

  lemma CleanLevelsFitIffEqual(t: seq<string>, f: seq<string>)
    requires WildcardFree(f)
    ensures LevelsFit(t, f) <==> t == f
  {
  }

  lemma StemDetermines(base: string, m: string, i: string, n: string, j: string)
    ensures Stem(base, m, i) == Stem(base, n, j) <==> m == n && i == j
  {
    var k := |Levels(base)|;
    assert Stem(base, m, i)[k + 1] == m && Stem(base, m, i)[k + 3] == i;
    assert Stem(base, n, j)[k + 1] == n && Stem(base, n, j)[k + 3] == j;
  }

  // ----- who gets an error message -----

  /** A subscription to one error type matches exactly the messages of that implementation and type. */
  lemma TypeSubscriptionIsExact(base: string, m: string, i: string, errorType: string,
                                n: string, j: string, otherType: string)
    requires Clean(base, m, i) && CleanType(errorType)
    requires Clean(base, n, j) && CleanType(otherType)
    ensures TopicMatches(ErrorTopic(base, m, i, errorType), ErrorTopic(base, n, j, otherType))
       <==> m == n && i == j && errorType == otherType
  {
    var topic, filter := ErrorTopic(base, m, i, errorType), ErrorTopic(base, n, j, otherType);
    TopicIsClean(base, m, i, errorType);
    TopicIsClean(base, n, j, otherType);
    MatcherIsMqtt(topic, filter);
    CleanLevelsFitIffEqual(Levels(topic), Levels(filter));
    LevelsUnderImplementation(base, m, i, errorType);
    LevelsUnderImplementation(base, n, j, otherType);
    StemDetermines(base, m, i, n, j);
    var k := |Stem(base, m, i)|;
    if Levels(topic) == Levels(filter) {
      assert Levels(topic)[..k] == Stem(base, m, i) && Levels(topic)[k..] == Levels(errorType);
      assert Levels(filter)[..k] == Stem(base, n, j) && Levels(filter)[k..] == Levels(otherType);
      LevelsDetermine(errorType, otherType);
    }
  }

  /** A subscription to all errors matches exactly the messages of that implementation, whatever their type. */
  lemma AllErrorsSubscriptionIsExact(base: string, m: string, i: string, errorType: string, n: string, j: string)
    requires Clean(base, m, i) && CleanType(errorType) && Clean(base, n, j)
    ensures TopicMatches(ErrorTopic(base, m, i, errorType), AllErrorsFilter(base, n, j)) <==> m == n && i == j
  {
    var topic, filter := ErrorTopic(base, m, i, errorType), AllErrorsFilter(base, n, j);
    TopicIsClean(base, m, i, errorType);
    FilterIsClean(base, n, j);
    MatcherIsMqtt(topic, filter);
    LevelsUnderImplementation(base, m, i, errorType);
    StemIsClean(base, n, j);
    var k := |Stem(base, n, j)|;
    assert |Levels(topic)| >= k && Levels(topic)[..k] == Stem(base, m, i);
    assert Levels(filter)[..k] == Stem(base, n, j) && Last(Levels(filter)) == "#";
    CleanLevelsFitIffEqual(Stem(base, m, i), Stem(base, n, j));
    StemDetermines(base, m, i, n, j);
  }

  /** A filter that a module registers for errors. */
  ghost predicate Subscription(base: string, filter: string) {
    || (exists n, j, t :: Clean(base, n, j) && CleanType(t) && filter == ErrorTopic(base, n, j, t))
    || (exists n, j :: Clean(base, n, j) && filter == AllErrorsFilter(base, n, j))
  }

  lemma MatchingSubscriptions(base: string, f: string, m: string, i: string, errorType: string)
    requires Clean(base, m, i) && CleanType(errorType) && Subscription(base, f)
    ensures TopicMatches(ErrorTopic(base, m, i, errorType), f)
       <==> f == ErrorTopic(base, m, i, errorType) || f == AllErrorsFilter(base, m, i)
  {
    TypeSubscriptionIsExact(base, m, i, errorType, m, i, errorType);
    AllErrorsSubscriptionIsExact(base, m, i, errorType, m, i);
    if n, j, t :| Clean(base, n, j) && CleanType(t) && f == ErrorTopic(base, n, j, t) {
      TypeSubscriptionIsExact(base, m, i, errorType, n, j, t);
    } else {
      var n, j :| Clean(base, n, j) && f == AllErrorsFilter(base, n, j);
      AllErrorsSubscriptionIsExact(base, m, i, errorType, n, j);
    }
  }

  /** Of all handlers a module has for errors, a message runs the one for its own implementation and type and the
      one for all errors of its implementation. */
  lemma ErrorsReachTheirSubscribers(base: string, handlers: map<string, HandlerId>, m: string, i: string,
                                    errorType: string, h: HandlerId)
    requires Clean(base, m, i) && CleanType(errorType)
    requires forall f :: f in handlers ==> Subscription(base, f)
    ensures var topic, all := ErrorTopic(base, m, i, errorType), AllErrorsFilter(base, m, i);
            h in ErrorRecipients(handlers, topic) <==>
              (topic in handlers && handlers[topic] == h) || (all in handlers && handlers[all] == h)
  {
    var topic, all := ErrorTopic(base, m, i, errorType), AllErrorsFilter(base, m, i);
    ErrorRecipientsAreTheMatching(handlers, topic, h);
    forall f | f in handlers ensures TopicMatches(topic, f) <==> f == topic || f == all {
      MatchingSubscriptions(base, f, m, i, errorType);
    }
  }

  // ----- the requirements of one module -----

  /** A requirement connected to an implementation, with the error types of its interface. */
  datatype Link = Link(target: Target, errorTypes: seq<string>)

  function TypeTopic(base: string, target: Target, errorType: string): string {
    ErrorTopic(base, target.moduleId, target.implementationId, errorType)
  }

  ghost predicate CleanLink(base: string, link: Link) {
    && Clean(base, link.target.moduleId, link.target.implementationId)
    && forall t :: t in link.errorTypes ==> CleanType(t)
  }

  /** Requirement `k` subscribes to each type of its interface. */
  function LinkRegistrations(base: string, target: Target, types: seq<string>, k: nat): seq<Registration>
    decreases |types|
  {
    if types == [] then []
    else
      LinkRegistrations(base, target, types[..|types| - 1], k)
      + [Registration(TypeTopic(base, target, types[|types| - 1]), TypedHandler(SubscribeError, "", k))]
  }

  /** The error managers of all requirements are set up one after the other. */
  function AllRegistrations(base: string, links: seq<Link>): seq<Registration>
    decreases |links|
  {
    if links == [] then []
    else
      var k := |links| - 1;
      AllRegistrations(base, links[..k]) + LinkRegistrations(base, links[k].target, links[k].errorTypes, k)
  }

  function HandlersOf(base: string, links: seq<Link>): map<string, HandlerId> {
    AllRegistered(NO_HANDLERS, AllRegistrations(base, links)).errorHandlers
  }

  /** The last requirement connected to an implementation whose interface has the type, if there is one. */
  function LastFor(links: seq<Link>, target: Target, errorType: string): seq<nat>
    decreases |links|
  {
    if links == [] then []
    else
      var k := |links| - 1;
      if links[k].target == target && errorType in links[k].errorTypes then [k]
      else LastFor(links[..k], target, errorType)
  }

  lemma {:induction false} RegisteredUnderConcat(a: seq<Registration>, b: seq<Registration>, key: string)
    ensures RegisteredUnder(a + b, SubscribeError, key)
         == RegisteredUnder(a, SubscribeError, key) + RegisteredUnder(b, SubscribeError, key)
    decreases |b|
  {
    if b == [] {
      assert a + b == a;
    } else {
      assert (a + b)[..|a + b| - 1] == a + b[..|b| - 1];
      RegisteredUnderConcat(a, b[..|b| - 1], key);
    }
  }

  lemma TypeTopicsDiffer(base: string, a: Target, t: string, b: Target, u: string)
    requires Clean(base, a.moduleId, a.implementationId) && CleanType(t)
    requires Clean(base, b.moduleId, b.implementationId) && CleanType(u)
    ensures TypeTopic(base, a, t) == TypeTopic(base, b, u) <==> a == b && t == u
  {
    TypeSubscriptionIsExact(base, a.moduleId, a.implementationId, t, b.moduleId, b.implementationId, u);
    TypeSubscriptionIsExact(base, a.moduleId, a.implementationId, t, a.moduleId, a.implementationId, t);
  }

  ghost predicate AllAre(hs: seq<HandlerId>, k: nat) {
    forall i :: 0 <= i < |hs| ==> hs[i] == k
  }

  lemma {:induction false} LinkRegisters(base: string, target: Target, types: seq<string>, k: nat,
                                         other: Target, errorType: string)
    requires CleanLink(base, Link(target, types)) && CleanLink(base, Link(other, [errorType]))
    ensures var hs := RegisteredUnder(LinkRegistrations(base, target, types, k), SubscribeError,
                                      TypeTopic(base, other, errorType));
            AllAre(hs, k) && (hs != [] <==> target == other && errorType in types)
    decreases |types|
  {
    hide CleanType, Clean, TypeTopic;
    if types != [] {
      var before, t := types[..|types| - 1], types[|types| - 1];
      assert types == before + [t];
      assert errorType in [errorType];
      LinkRegisters(base, target, before, k, other, errorType);
      TypeTopicsDiffer(base, target, t, other, errorType);
      var rs := LinkRegistrations(base, target, types, k);
      assert rs[..|rs| - 1] == LinkRegistrations(base, target, before, k);
    }
  }

  ghost predicate AllClean(base: string, links: seq<Link>) {
    forall k :: 0 <= k < |links| ==> CleanLink(base, links[k])
  }

  lemma LastOnlyConcat(a: seq<HandlerId>, b: seq<HandlerId>, k: nat)
    requires AllAre(b, k)
    ensures LastOnly(a + b) == if b == [] then LastOnly(a) else [k]
  {
  }

  lemma {:induction false} LastOneRegistered(base: string, links: seq<Link>, target: Target, errorType: string)
    requires AllClean(base, links) && CleanLink(base, Link(target, [errorType]))
    ensures LastOnly(RegisteredUnder(AllRegistrations(base, links), SubscribeError, TypeTopic(base, target, errorType)))
         == LastFor(links, target, errorType)
    decreases |links|
  {
    hide CleanLink, RegisteredUnder, LinkRegistrations, TypeTopic;
    if links == [] {
      NothingRegistered(TypeTopic(base, target, errorType));
    } else {
      var k, topic := |links| - 1, TypeTopic(base, target, errorType);
      var before, mine := links[..k], LinkRegistrations(base, links[k].target, links[k].errorTypes, k);
      LastOneRegistered(base, before, target, errorType);
      assert CleanLink(base, links[k]);
      LinkRegisters(base, links[k].target, links[k].errorTypes, k, target, errorType);
      RegisteredUnderConcat(AllRegistrations(base, before), mine, topic);
      LastOnlyConcat(RegisteredUnder(AllRegistrations(base, before), SubscribeError, topic),
                     RegisteredUnder(mine, SubscribeError, topic), k);
    }
  }

  lemma NothingRegistered(key: string)
    ensures RegisteredUnder([], SubscribeError, key) == []
  {
  }

  // Every filter of these handlers is a type topic.

  ghost predicate IsTypeTopic(base: string, f: string) {
    exists target, t :: CleanLink(base, Link(target, [t])) && f == TypeTopic(base, target, t)
  }

  lemma {:induction false} LinkRegistersTopics(base: string, target: Target, types: seq<string>, k: nat, f: string)
    requires CleanLink(base, Link(target, types))
    ensures RegisteredUnder(LinkRegistrations(base, target, types, k), SubscribeError, f) != [] ==> IsTypeTopic(base, f)
    decreases |types|
  {
    hide CleanType, Clean, TypeTopic;
    if types != [] {
      var before, t := types[..|types| - 1], types[|types| - 1];
      assert types == before + [t];
      LinkRegistersTopics(base, target, before, k, f);
      var rs := LinkRegistrations(base, target, types, k);
      assert rs[..|rs| - 1] == LinkRegistrations(base, target, before, k);
      assert CleanLink(base, Link(target, [t]));
    }
  }

  lemma {:induction false} AllRegisterTopics(base: string, links: seq<Link>, f: string)
    requires AllClean(base, links)
    ensures RegisteredUnder(AllRegistrations(base, links), SubscribeError, f) != [] ==> IsTypeTopic(base, f)
    decreases |links|
  {
    hide CleanLink, RegisteredUnder, LinkRegistrations, IsTypeTopic;
    if links == [] {
      NothingRegistered(f);
    } else {
      var k := |links| - 1;
      AllRegisterTopics(base, links[..k], f);
      assert CleanLink(base, links[k]);
      LinkRegistersTopics(base, links[k].target, links[k].errorTypes, k, f);
      RegisteredUnderConcat(AllRegistrations(base, links[..k]),
                            LinkRegistrations(base, links[k].target, links[k].errorTypes, k), f);
    }
  }

  lemma FiltersAreTypeTopics(base: string, links: seq<Link>, f: string)
    requires AllClean(base, links)
    ensures f in HandlersOf(base, links) ==> IsTypeTopic(base, f)
  {
    AllRegisterTopics(base, links, f);
    TopicsKeepAllOrLast(AllRegistrations(base, links), SubscribeError, f);
  }

  lemma {:induction false} SelectedOnlyOne(xs: seq<string>, keep: string -> bool, x: string)
    requires Increasing(StringLess, xs)
    requires forall y :: y in xs ==> (keep(y) <==> y == x)
    ensures Selected(xs, keep) == if x in xs then [x] else []
  {
    if xs != [] {
      forall y | y in xs[1..] ensures y in xs && y != xs[0] {
        var i :| 0 <= i < |xs[1..]| && xs[1..][i] == y;
        assert StringLess(xs[0], xs[i + 1]);
        StringLessIrreflexive(y);
      }
      SelectedOnlyOne(xs[1..], keep, x);
    }
  }

  lemma TypeTopicMatchesItself(base: string, links: seq<Link>, target: Target, errorType: string, f: string)
    requires AllClean(base, links) && CleanLink(base, Link(target, [errorType]))
    requires f in HandlersOf(base, links)
    ensures TopicMatches(TypeTopic(base, target, errorType), f) <==> f == TypeTopic(base, target, errorType)
  {
    FiltersAreTypeTopics(base, links, f);
    var a, t :| CleanLink(base, Link(a, [t])) && f == TypeTopic(base, a, t);
    assert t in [t] && errorType in [errorType];
    TypeSubscriptionIsExact(base, target.moduleId, target.implementationId, errorType,
                            a.moduleId, a.implementationId, t);
    TypeTopicsDiffer(base, target, errorType, a, t);
  }

  lemma OnlyItsOwnFilter(handlers: map<string, HandlerId>, topic: string)
    requires forall f :: f in handlers ==> (TopicMatches(topic, f) <==> f == topic)
    ensures ErrorRecipients(handlers, topic) == OneAt(handlers, topic)
  {
    hide TopicMatches, SortedKeys;
    SelectedOnlyOne(SortedKeys(handlers), f => TopicMatches(topic, f), topic);
  }

  lemma LastRegisteredIsThere(base: string, links: seq<Link>, topic: string)
    ensures OneAt(HandlersOf(base, links), topic)
         == LastOnly(RegisteredUnder(AllRegistrations(base, links), SubscribeError, topic))
  {
    hide AllRegistrations, AllRegistered, RegisteredUnder, LastOnly;
    TopicsKeepAllOrLast(AllRegistrations(base, links), SubscribeError, topic);
  }

  /** Of all requirements of a module that want an error type of an implementation, only the last one set up runs for
      a message of it, once. */
  lemma LastRequirementHearsAlone(base: string, links: seq<Link>, target: Target, errorType: string)
    requires AllClean(base, links) && CleanLink(base, Link(target, [errorType]))
    ensures ErrorRecipients(HandlersOf(base, links), TypeTopic(base, target, errorType))
         == LastFor(links, target, errorType)
  {
    hide *;
    var topic, handlers := TypeTopic(base, target, errorType), HandlersOf(base, links);
    forall f | f in handlers ensures TopicMatches(topic, f) <==> f == topic {
      TypeTopicMatchesItself(base, links, target, errorType, f);
    }
    OnlyItsOwnFilter(handlers, topic);
    LastRegisteredIsThere(base, links, topic);
    LastOneRegistered(base, links, target, errorType);
  }

  ghost predicate Wants(link: Link, target: Target, errorType: string) {
    link.target == target && errorType in link.errorTypes
  }

  lemma {:induction false} LastForIsLast(links: seq<Link>, target: Target, errorType: string)
    ensures var last := LastFor(links, target, errorType);
            && |last| <= 1
            && (forall k: nat :: k < |links| ==>
                  (last == [k] <==> Wants(links[k], target, errorType)
                                    && forall j :: k < j < |links| ==> !Wants(links[j], target, errorType)))
            && (forall k: nat :: last == [k] ==> k < |links|)
    decreases |links|
  {
    if links != [] {
      var before := links[..|links| - 1];
      LastForIsLast(before, target, errorType);
      assert forall k :: 0 <= k < |before| ==> links[k] == before[k];
    }
  }
}
