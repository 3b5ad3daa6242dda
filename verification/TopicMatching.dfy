/** Topic filters: the matcher the message handler runs, and the match relation of sections 4.7.1.1 to
    4.7.1.3 of MQTT 3.1.1. */
module TopicMatching {

  // ----- topic levels -----

  /** The levels of a topic or filter: what stands between the separators, empty levels included. */
  function Levels(s: string): (r: seq<string>)
    ensures |r| >= 1
  {
    if s == "" then [""]
    else
      var rest := Levels(s[1..]);
      if s[0] == '/' then [""] + rest else [[s[0]] + rest[0]] + rest[1..]
  }

  function Join(levels: seq<string>): string
    requires |levels| >= 1
  {
    if |levels| == 1 then levels[0] else levels[0] + "/" + Join(levels[1..])
  }

  ghost predicate SlashFree(levels: seq<string>) {
    forall i :: 0 <= i < |levels| ==> '/' !in levels[i]
  }

  function Last<T>(s: seq<T>): T
    requires s != []
  {
    s[|s| - 1]
  }

  lemma {:induction false} JoinInvertsLevels(s: string)
    ensures Join(Levels(s)) == s
    ensures SlashFree(Levels(s))
  {
    if s != "" {
      JoinInvertsLevels(s[1..]);
      var rest := Levels(s[1..]);
      if s[0] == '/' {
        assert Levels(s)[1..] == rest;
        assert Join(Levels(s)) == "" + "/" + Join(rest) == s;
      } else if |rest| == 1 {
        assert Join(Levels(s)) == [s[0]] + rest[0] == s;
      } else {
        assert Levels(s)[1..] == rest[1..];
        assert Join(Levels(s)) == [s[0]] + rest[0] + "/" + Join(rest[1..]) == [s[0]] + Join(rest) == s;
      }
    }
  }

  lemma {:induction false} LevelsOfPart(p: string)
    requires '/' !in p
    ensures Levels(p) == [p]
  {
    if p != "" {
      LevelsOfPart(p[1..]);
      assert [p[0]] + p[1..] == p;
    }
  }

  lemma {:induction false} LevelsOfPartThenRest(p: string, rest: string)
    requires '/' !in p
    ensures Levels(p + "/" + rest) == [p] + Levels(rest)
  {
    if p == "" {
      assert p + "/" + rest == "/" + rest;
      assert ("/" + rest)[1..] == rest;
    } else {
      assert (p + "/" + rest)[1..] == p[1..] + "/" + rest;
      LevelsOfPartThenRest(p[1..], rest);
      assert [p[0]] + p[1..] == p;
    }
  }

  lemma {:induction false} LevelsInvertsJoin(levels: seq<string>)
    requires |levels| >= 1 && SlashFree(levels)
    ensures Levels(Join(levels)) == levels
  {
    if |levels| == 1 {
      LevelsOfPart(levels[0]);
      assert [levels[0]] == levels;
    } else {
      LevelsInvertsJoin(levels[1..]);
      LevelsOfPartThenRest(levels[0], Join(levels[1..]));
      assert [levels[0]] + levels[1..] == levels;
    }
  }

  /** Levels of a topic with one more level appended. */
  lemma {:induction false} LevelsOfSuffix(s: string, p: string)
    requires '/' !in p
    ensures Levels(s + "/" + p) == Levels(s) + [p]
  {
    if s == "" {
      LevelsOfPartThenRest("", p);
      LevelsOfPart(p);
      assert s + "/" + p == "" + "/" + p;
    } else {
      LevelsOfSuffix(s[1..], p);
      assert (s + "/" + p)[1..] == s[1..] + "/" + p;
    }
  }

  // ----- what `getline` leaves of the levels -----

  /** The parts `getline` yields: the levels, without the last one if that is empty. */
  function Pieces(s: string): seq<string> {
    var l := Levels(s);
    if Last(l) == "" then l[..|l| - 1] else l
  }

  lemma PiecesOfPartThenRest(p: string, rest: string)
    requires '/' !in p
    ensures Pieces(p + "/" + rest) == [p] + Pieces(rest)
  {
    LevelsOfPartThenRest(p, rest);
    DropLastAfterFirst(p, Levels(rest));
  }

  lemma DropLastAfterFirst(p: string, levels: seq<string>)
    requires levels != []
    ensures Last([p] + levels) == Last(levels)
    ensures ([p] + levels)[..|levels|] == [p] + levels[..|levels| - 1]
  {
  }

  /** `std::getline`: the characters up to the next separator or the end, and the position after it. */
  method GetLine(stream: string, pos: nat) returns (part: string, next: nat)
    requires pos < |stream|
    ensures pos < next <= |stream|
    ensures Pieces(stream[pos..]) == [part] + Pieces(stream[next..])
  {
    var end := pos;
    while end < |stream| && stream[end] != '/'
      invariant pos <= end <= |stream|
      invariant '/' !in stream[pos..end]
    {
      assert stream[pos..end + 1] == stream[pos..end] + [stream[end]];
      end := end + 1;
    }
    part := stream[pos..end];
    next := if end < |stream| then end + 1 else end;
    OnePart(stream, pos, end);
  }

  lemma OnePart(stream: string, pos: nat, end: nat)
    requires pos < |stream| && pos <= end <= |stream|
    requires '/' !in stream[pos..end]
    requires end < |stream| ==> stream[end] == '/'
    ensures var next := if end < |stream| then end + 1 else end;
            pos < next && Pieces(stream[pos..]) == [stream[pos..end]] + Pieces(stream[next..])
  {
    var part := stream[pos..end];
    if end < |stream| {
      assert stream[pos..] == part + "/" + stream[end + 1..];
      PiecesOfPartThenRest(part, stream[end + 1..]);
    } else {
      assert stream[pos..] == part && stream[end..] == "";
      LevelsOfPart(part);
      assert Levels("") == [""];
      assert [part] + [] == [part];
    }
  }

  method SplitTopic(topic: string) returns (result: seq<string>)
    ensures result == Pieces(topic)
  {
    result := [];
    var pos := 0;
    assert Split(topic, 0, []) by { assert topic[0..] == topic; }
    while pos < |topic|
      invariant 0 <= pos <= |topic|
      invariant Split(topic, pos, result)
    {
      var part, next := GetLine(topic, pos);
      SplitOneMore(topic, pos, next, result, part);
      result := result + [part];
      pos := next;
    }
    SplitDone(topic, result);
  }

  /** The parts found so far are those of the topic up to a position. */
  ghost predicate Split(topic: string, pos: nat, result: seq<string>)
    requires pos <= |topic|
  {
    result + Pieces(topic[pos..]) == Pieces(topic)
  }

  lemma SplitOneMore(topic: string, pos: nat, next: nat, result: seq<string>, part: string)
    requires pos <= next <= |topic|
    requires Split(topic, pos, result)
    requires Pieces(topic[pos..]) == [part] + Pieces(topic[next..])
    ensures Split(topic, next, result + [part])
  {
    assert result + ([part] + Pieces(topic[next..])) == (result + [part]) + Pieces(topic[next..]);
  }

  lemma SplitDone(topic: string, result: seq<string>)
    requires Split(topic, |topic|, result)
    ensures result == Pieces(topic)
  {
    assert topic[|topic|..] == "";
    assert result + [] == result;
  }

  // ----- the matcher -----

  function PartsMatch(full: seq<string>, wildcard: seq<string>): bool {
    if full == [] then wildcard == []
    else if wildcard == [] then false
    else if wildcard[0] == "#" then true
    else (wildcard[0] == "+" || wildcard[0] == full[0]) && PartsMatch(full[1..], wildcard[1..])
  }

  predicate EndsInHashLevel(wildcard: string) {
    |wildcard| >= 2 && wildcard[|wildcard| - 2..] == "/#"
  }

  predicate TopicMatches(full: string, wildcard: string)
    decreases |wildcard|
  {
    || full == wildcard
    || (EndsInHashLevel(wildcard) && TopicMatches(full, wildcard[..|wildcard| - 2]))
    || PartsMatch(Pieces(full), Pieces(wildcard))
  }

  method CheckTopicMatches(full: string, wildcard: string) returns (b: bool)
    ensures b == TopicMatches(full, wildcard)
    decreases |wildcard|
  {
    if full == wildcard {
      return true;
    }
    if |wildcard| >= 2 && wildcard[|wildcard| - 2..] == "/#" {
      var start := wildcard[..|wildcard| - 2];
      var found := CheckTopicMatches(full, start);
      if found {
        return true;
      }
    }
    var fullSplit := SplitTopic(full);
    var wildcardSplit := SplitTopic(wildcard);
    assert fullSplit[0..] == fullSplit && wildcardSplit[0..] == wildcardSplit;
    for partno := 0 to |fullSplit|
      invariant partno <= |wildcardSplit|
      invariant PartsMatch(fullSplit, wildcardSplit) == PartsMatch(fullSplit[partno..], wildcardSplit[partno..])
    {
      if partno >= |wildcardSplit| {
        return false;
      }
      assert fullSplit[partno..][1..] == fullSplit[partno + 1..];
      assert wildcardSplit[partno..][1..] == wildcardSplit[partno + 1..];
      var fullPart := fullSplit[partno];
      var wildcardPart := wildcardSplit[partno];
      if wildcardPart == "#" {
        return true;
      }
      if wildcardPart == "+" || wildcardPart == fullPart {
        continue;
      }
      return false;
    }
    b := |fullSplit| == |wildcardSplit|;
  }

  // ----- the match relation of MQTT -----

  /** A filter level stands for a topic level. */
  predicate LevelFits(filter: string, level: string) {
    filter == "+" || filter == level
  }

  ghost predicate LevelsFit(topic: seq<string>, filter: seq<string>) {
    |topic| == |filter| && forall i :: 0 <= i < |filter| ==> LevelFits(filter[i], topic[i])
  }

  /** A trailing `#` stands for any number of levels, none included (so it matches the parent level);
      every other filter level stands for exactly one topic level. */
  ghost predicate MqttMatches(topic: string, filter: string) {
    var t, f := Levels(topic), Levels(filter);
    if Last(f) == "#" then |t| >= |f| - 1 && LevelsFit(t[..|f| - 1], f[..|f| - 1])
    else LevelsFit(t, f)
  }

  ghost predicate TopicName(topic: string) {
    topic != "" && '+' !in topic && '#' !in topic
  }

  ghost predicate ValidLevel(level: string) {
    ('+' in level ==> level == "+") && '#' !in level
  }

  /** `+` fills its level; `#` fills the last level and stands nowhere else. */
  ghost predicate ValidFilter(filter: string) {
    var f := Levels(filter);
    && filter != ""
    && (forall i :: 0 <= i < |f| - 1 ==> ValidLevel(f[i]))
    && (Last(f) == "#" || ValidLevel(Last(f)))
  }

  ghost predicate NoTrailingSlash(s: string) {
    Last(Levels(s)) != ""
  }

  /** The last level is empty and the one before is not. */
  ghost predicate LosesLevel(levels: seq<string>) {
    |levels| >= 2 && Last(levels) == "" && levels[|levels| - 2] != ""
  }

  /** Filters of the form `.../x/` or `.../x//#` with `x` not empty. */
  ghost predicate Misread(filter: string) {
    var f := Levels(filter);
    LosesLevel(if Last(f) == "#" then f[..|f| - 1] else f)
  }

  // ----- where they agree -----

  lemma {:induction false} PartsMatchWithoutHash(t: seq<string>, f: seq<string>)
    requires forall i :: 0 <= i < |f| ==> f[i] != "#"
    ensures PartsMatch(t, f) <==> LevelsFit(t, f)
  {
    if t != [] && f != [] {
      PartsMatchWithoutHash(t[1..], f[1..]);
      if |t| == |f| { FitByHead(t, f); }
    }
  }

  lemma {:induction false} PartsMatchWithHash(t: seq<string>, f: seq<string>)
    requires f != [] && Last(f) == "#"
    requires forall i :: 0 <= i < |f| - 1 ==> f[i] != "#"
    ensures PartsMatch(t, f) <==> |t| >= |f| && LevelsFit(t[..|f| - 1], f[..|f| - 1])
  {
    if t != [] && |f| > 1 {
      PartsMatchWithHash(t[1..], f[1..]);
      if |t| >= |f| {
        var n := |f| - 1;
        assert t[1..][..n - 1] == t[..n][1..] && f[1..][..n - 1] == f[..n][1..];
        FitByHead(t[..n], f[..n]);
      }
    }
  }

  lemma FitByHead(t: seq<string>, f: seq<string>)
    requires |t| == |f| && f != []
    ensures LevelsFit(t, f) <==> LevelFits(f[0], t[0]) && LevelsFit(t[1..], f[1..])
  {
    if LevelsFit(t, f) {
      forall i | 0 <= i < |f[1..]| ensures LevelFits(f[1..][i], t[1..][i]) {
        assert LevelFits(f[i + 1], t[i + 1]);
      }
    }
    if LevelFits(f[0], t[0]) && LevelsFit(t[1..], f[1..]) {
      forall i | 0 <= i < |f| ensures LevelFits(f[i], t[i]) {
        if i > 0 { assert LevelFits(f[1..][i - 1], t[1..][i - 1]); }
      }
    }
  }

  lemma LevelsDetermine(s: string, t: string)
    requires Levels(s) == Levels(t)
    ensures s == t
  {
    JoinInvertsLevels(s);
    JoinInvertsLevels(t);
  }

  lemma {:induction false} HashLevelIsSuffix(s: string)
    ensures EndsInHashLevel(s) <==> |Levels(s)| >= 2 && Last(Levels(s)) == "#"
    ensures EndsInHashLevel(s) ==> Levels(s[..|s| - 2]) == Levels(s)[..|Levels(s)| - 1]
  {
    if EndsInHashLevel(s) {
      var start := s[..|s| - 2];
      assert s == start + "/" + "#";
      LevelsOfSuffix(start, "#");
      assert Levels(s)[..|Levels(s)| - 1] == Levels(start);
    }
    if |Levels(s)| >= 2 && Last(Levels(s)) == "#" {
      var l := Levels(s);
      JoinInvertsLevels(s);
      var front := l[..|l| - 1];
      LevelsInvertsJoin(front);
      LevelsOfSuffix(Join(front), "#");
      assert front + ["#"] == l;
      LevelsDetermine(s, Join(front) + "/" + "#");
    }
  }

  /** On a topic without trailing separator, a filter without `#` that does not lose a level is read as
      MQTT reads it. */
  lemma AgreeWithoutHash(topic: string, filter: string)
    requires NoTrailingSlash(topic)
    requires forall i :: 0 <= i < |Levels(filter)| ==> Levels(filter)[i] != "#"
    requires !LosesLevel(Levels(filter))
    ensures TopicMatches(topic, filter) <==> LevelsFit(Levels(topic), Levels(filter))
  {
    var t, f := Levels(topic), Levels(filter);
    HashLevelIsSuffix(filter);
    PartsMatchWithoutHash(t, Pieces(filter));
    if Last(f) == "" {
      var n := |f|;
      assert LevelsFit(t, f) ==> LevelFits(f[n - 1], t[n - 1]);
      if n > 1 && LevelsFit(t, f[..n - 1]) { LastLevelFits(t, f[..n - 1]); }
    }
  }

  lemma LastLevelFits(t: seq<string>, f: seq<string>)
    requires LevelsFit(t, f) && f != []
    ensures LevelFits(Last(f), Last(t))
  {
  }

  lemma AgreeWithHash(topic: string, filter: string)
    requires NoTrailingSlash(topic)
    requires ValidFilter(filter) && Last(Levels(filter)) == "#"
    requires !Misread(filter)
    ensures TopicMatches(topic, filter) <==> MqttMatches(topic, filter)
  {
    var t, f := Levels(topic), Levels(filter);
    var n := |f| - 1;
    HashLevelIsSuffix(filter);
    forall i | 0 <= i < n ensures f[i] != "#" {
      assert ValidLevel(f[i]);
    }
    PartsMatchWithHash(t, f);
    if n >= 1 {
      AgreeWithoutHash(topic, filter[..|filter| - 2]);
      assert |t| == n ==> t[..n] == t;
      if topic == filter {
        assert LevelsFit(t[..n], f[..n]);
      }
    }
  }

  /** On topic names without trailing separator the matcher is the relation of MQTT for every valid filter
      except the misread ones. */
  lemma MatcherIsMqtt(topic: string, filter: string)
    requires TopicName(topic) && NoTrailingSlash(topic)
    requires ValidFilter(filter) && !Misread(filter)
    ensures TopicMatches(topic, filter) <==> MqttMatches(topic, filter)
  {
    var f := Levels(filter);
    if Last(f) == "#" {
      AgreeWithHash(topic, filter);
    } else {
      forall i | 0 <= i < |f| ensures f[i] != "#" {
        assert ValidLevel(f[i]);
      }
      AgreeWithoutHash(topic, filter);
    }
  }

  // ----- and nowhere else -----

  /** A topic level that fits the filter level. */
  function Sample(filter: seq<string>): (r: seq<string>)
    ensures |r| == |filter|
  {
    seq(|filter|, i requires 0 <= i < |filter| => if filter[i] == "+" then "x" else filter[i])
  }

  lemma {:induction false} JoinedCharacters(levels: seq<string>, c: char)
    requires |levels| >= 1 && c != '/'
    requires forall i :: 0 <= i < |levels| ==> c !in levels[i]
    ensures c !in Join(levels)
  {
    if |levels| > 1 { JoinedCharacters(levels[1..], c); }
  }

  lemma SampleFits(filter: seq<string>)
    requires forall i :: 0 <= i < |filter| ==> ValidLevel(filter[i])
    ensures PartsMatch(Sample(filter), filter)
  {
    forall i | 0 <= i < |filter| ensures filter[i] != "#" { assert ValidLevel(filter[i]); }
    PartsMatchWithoutHash(Sample(filter), filter);
  }

  lemma SampleIsClean(filter: seq<string>)
    requires SlashFree(filter)
    requires forall i :: 0 <= i < |filter| ==> ValidLevel(filter[i])
    ensures CleanLevels(Sample(filter))
  {
    forall i | 0 <= i < |filter| ensures CleanLevel(Sample(filter)[i]) {
      assert ValidLevel(filter[i]);
    }
  }

  lemma SampleEndsLike(filter: seq<string>)
    requires filter != [] && Last(filter) != ""
    ensures Last(Sample(filter)) != ""
  {
    var last := Last(Sample(filter));
    assert |"x"| == 1;
    assert last == "x" || last == Last(filter);
  }

  ghost predicate CleanLevel(level: string) {
    '/' !in level && '+' !in level && '#' !in level
  }

  ghost predicate CleanLevels(levels: seq<string>) {
    forall i :: 0 <= i < |levels| ==> CleanLevel(levels[i])
  }

  lemma SampleIsTopic(filter: seq<string>)
    requires filter != [] && SlashFree(filter) && Last(filter) != ""
    requires forall i :: 0 <= i < |filter| ==> ValidLevel(filter[i])
    ensures var topic := Join(Sample(filter));
            && Levels(topic) == Sample(filter)
            && TopicName(topic) && NoTrailingSlash(topic)
            && PartsMatch(Pieces(topic), filter)
  {
    SampleIsClean(filter);
    SampleEndsLike(filter);
    JoinIsTopic(Sample(filter));
    SampleFits(filter);
  }

  lemma JoinIsTopic(levels: seq<string>)
    requires levels != [] && CleanLevels(levels) && Last(levels) != ""
    ensures Levels(Join(levels)) == levels == Pieces(Join(levels))
    ensures TopicName(Join(levels)) && NoTrailingSlash(Join(levels))
  {
    assert forall i :: 0 <= i < |levels| ==> CleanLevel(levels[i]);
    LevelsInvertsJoin(levels);
    JoinedCharacters(levels, '+');
    JoinedCharacters(levels, '#');
    assert Last(Levels("")) == "";
  }

  /** A misread filter matches a topic that MQTT says it must not. */
  lemma MisreadFilterOvermatches(filter: string) returns (topic: string)
    requires ValidFilter(filter) && Misread(filter)
    ensures TopicName(topic) && NoTrailingSlash(topic)
    ensures TopicMatches(topic, filter) && !MqttMatches(topic, filter)
  {
    var f := Levels(filter);
    JoinInvertsLevels(filter);
    HashLevelIsSuffix(filter);
    var g := if Last(f) == "#" then f[..|f| - 1] else f;
    var kept := g[..|g| - 1];
    forall i | 0 <= i < |kept| ensures ValidLevel(kept[i]) && '/' !in kept[i] {
      assert kept[i] == f[i] && ValidLevel(f[i]);
    }
    topic := Join(Sample(kept));
    SampleIsTopic(kept);
    if Last(f) == "#" {
      var start := filter[..|filter| - 2];
      assert Levels(start) == g && Pieces(start) == kept;
      assert TopicMatches(topic, start);
    } else {
      assert Pieces(filter) == kept;
    }
  }

  /** A valid filter is read as MQTT reads it on all such topics exactly when it is not misread. */
  lemma FilterIsReadRightIffNotMisread(filter: string)
    requires ValidFilter(filter)
    ensures (forall topic :: TopicName(topic) && NoTrailingSlash(topic) ==>
                               (TopicMatches(topic, filter) <==> MqttMatches(topic, filter)))
       <==> !Misread(filter)
  {
    if Misread(filter) {
      var topic := MisreadFilterOvermatches(filter);
    } else {
      forall topic | TopicName(topic) && NoTrailingSlash(topic)
        ensures TopicMatches(topic, filter) <==> MqttMatches(topic, filter)
      {
        MatcherIsMqtt(topic, filter);
      }
    }
  }

  function Pluses(n: nat): (r: seq<string>)
    ensures |r| == n
  {
    seq(n, i => "+")
  }

  /** A topic name is matched right against all filters that are not misread exactly when it does not end
      in a separator. */
  lemma TopicIsMatchedRightIffNoTrailingSlash(topic: string)
    requires TopicName(topic)
    ensures (forall filter :: ValidFilter(filter) && !Misread(filter) ==>
                                (TopicMatches(topic, filter) <==> MqttMatches(topic, filter)))
       <==> NoTrailingSlash(topic)
  {
    if NoTrailingSlash(topic) {
      forall filter | ValidFilter(filter) && !Misread(filter)
        ensures TopicMatches(topic, filter) <==> MqttMatches(topic, filter)
      {
        MatcherIsMqtt(topic, filter);
      }
    } else {
      var filter := TrailingSlashOvermatches(topic);
    }
  }

  /** A topic name that ends in a separator is matched by a filter of one level less. */
  lemma TrailingSlashOvermatches(topic: string) returns (filter: string)
    requires TopicName(topic) && !NoTrailingSlash(topic)
    ensures ValidFilter(filter) && !Misread(filter)
    ensures TopicMatches(topic, filter) && !MqttMatches(topic, filter)
  {
    var n := |Pieces(topic)|;
    JoinInvertsLevels(topic);
    PlusesAreAFilter(n);
    filter := Join(Pluses(n));
    PartsMatchWithoutHash(Pieces(topic), Pluses(n));
  }

  lemma PlusesAreAFilter(n: nat)
    requires n >= 1
    ensures var filter := Join(Pluses(n));
            && Levels(filter) == Pluses(n) == Pieces(filter)
            && ValidFilter(filter) && !Misread(filter)
  {
    LevelsInvertsJoin(Pluses(n));
    assert Last(Pluses(n)) == "+" && ValidLevel("+");
    assert Last(Levels("")) == "";
  }
}
