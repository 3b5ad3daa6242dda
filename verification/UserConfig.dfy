/** The user-config storage: parameter writes edit a document that overlays the main configuration at the next
    boot. */
module UserConfig {
  import opened JsonDocuments
  import opened Options

  datatype Identifier = Identifier(moduleId: string, implementation: Option<string>, parameter: string)

  /** Where a parameter lives in the document; without an implementation it belongs to the module itself. */
  function ContainerOf(id: Identifier): Path {
    if ImplementationOf(id) == "!module" then ["active_modules", id.moduleId, "config_module"]
    else ["active_modules", id.moduleId, "config_implementation", ImplementationOf(id)]
  }

  function PathOf(id: Identifier): Path {
    ContainerOf(id) + [id.parameter]
  }

  /** The places by their names. */
  lemma PlacesInTheDocument(id: Identifier)
    ensures id.implementation in {None, Some("!module")} ==>
              PathOf(id) == ["active_modules", id.moduleId, "config_module", id.parameter]
    ensures id.implementation !in {None, Some("!module")} ==>
              PathOf(id) == ["active_modules", id.moduleId, "config_implementation", id.implementation.value,
                             id.parameter]
  {
  }

  predicate SameParameter(a: Identifier, b: Identifier) {
    && a.moduleId == b.moduleId && a.parameter == b.parameter
    && (a.implementation == b.implementation
        || (ImplementationOf(a) == "!module" && ImplementationOf(b) == "!module"))
  }

  function ImplementationOf(id: Identifier): string {
    if id.implementation.Some? then id.implementation.value else "!module"
  }

  /** Different parameters never share a place, nor does one sit inside the other. */
  lemma PathsAreApart(a: Identifier, b: Identifier)
    ensures PathOf(a) <= PathOf(b) <==> SameParameter(a, b)
    ensures SameParameter(a, b) ==> PathOf(a) == PathOf(b)
  {
    var p, q := PathOf(a), PathOf(b);
    if ImplementationOf(a) == "!module" {
      assert p == ["active_modules", a.moduleId, "config_module", a.parameter];
    } else {
      assert p == ["active_modules", a.moduleId, "config_implementation", ImplementationOf(a), a.parameter];
    }
    if ImplementationOf(b) == "!module" {
      assert q == ["active_modules", b.moduleId, "config_module", b.parameter];
    } else {
      assert q == ["active_modules", b.moduleId, "config_implementation", ImplementationOf(b), b.parameter];
    }
    if p <= q {
      assert p[1] == q[1] && p[2] == q[2] && p[3] == q[3];
      if |p| == 5 { assert p[4] == q[4]; }
    }
  }

  /** The document after one attempt; `value` is missing when the text does not parse as the parameter's type,
      which the code finds out after it has created the containers. */
  function Attempted(doc: Json, id: Identifier, value: Option<Json>): Json {
    if !Editable(doc, ContainerOf(id)) then doc
    else if value.None? || !Editable(doc, PathOf(id)) then Edit(doc, ContainerOf(id), None)
    else Edit(doc, PathOf(id), value)
  }

  predicate Applies(doc: Json, id: Identifier, value: Option<Json>) {
    value.Some? && Editable(doc, PathOf(id))
  }

  /** One call of the write: `content` is the parsed value, and `saves` says whether writing the file works. */
  datatype Attempt = Attempt(id: Identifier, content: Option<int>, saves: bool)

  function ValueOf(a: Attempt): Option<Json> {
    if a.content.Some? then Some(Leaf(a.content.value)) else None
  }

  datatype Stored = Stored(doc: Json, file: Option<Json>)

  predicate Accepted(s: Stored, a: Attempt) {
    Applies(s.doc, a.id, ValueOf(a)) && a.saves
  }

  function Next(s: Stored, a: Attempt): Stored {
    var doc := Attempted(s.doc, a.id, ValueOf(a));
    Stored(doc, if Accepted(s, a) then Some(doc) else s.file)
  }

  /** At boot the document is what the file holds, or null without a file. */
  function Loaded(file: Option<Json>): Stored {
    Stored(if file.Some? then file.value else Null, file)
  }

  function Child(j: Json, key: string): Json {
    if key in FieldsOf(j) then FieldsOf(j)[key] else EMPTY_OBJECT
  }

  function Put(j: Json, key: string, child: Json): Json {
    Object(FieldsOf(j)[key := child])
  }

  lemma EditStep(j: Json, key: string, rest: Path, value: Option<Json>)
    ensures Editable(j, [key] + rest) <==> !j.Leaf? && Editable(Child(j, key), rest)
    ensures Editable(j, [key] + rest) ==>
              Edit(j, [key] + rest, value) == Put(j, key, Edit(Child(j, key), rest, value))
  {
    assert ([key] + rest)[1..] == rest;
  }

  lemma TwoSteps(j: Json, key: string, next: string, rest: Path, value: Option<Json>)
    ensures var path := [key, next] + rest;
            && (Editable(j, path) <==> !j.Leaf? && !Child(j, key).Leaf? && Editable(Child(Child(j, key), next), rest))
            && (Editable(j, path) ==>
                  Edit(j, path, value)
                    == Put(j, key, Put(Child(j, key), next, Edit(Child(Child(j, key), next), rest, value))))
  {
    assert [key, next] + rest == [key] + ([next] + rest);
    EditStep(j, key, [next] + rest, value);
    EditStep(Child(j, key), next, rest, value);
  }

  lemma NoSteps(j: Json, value: Option<Json>)
    ensures Editable(j, []) && Edit(j, [], value) == if value.Some? then value.value else j
  {
  }

  /** A module parameter, one key at a time. */
  lemma ModuleSteps(doc: Json, id: Identifier, value: Option<Json>)
    requires ImplementationOf(id) == "!module"
    ensures var modules := Child(doc, "active_modules");
            var moduleCfg := Child(modules, id.moduleId);
            var container := Child(moduleCfg, "config_module");
            && (Applies(doc, id, value) <==>
                  value.Some? && !doc.Leaf? && !modules.Leaf? && !moduleCfg.Leaf? && !container.Leaf?)
            && Attempted(doc, id, value)
               == if doc.Leaf? || modules.Leaf? || moduleCfg.Leaf? then doc
                  else
                    var filled := if value.Some? && !container.Leaf? then Put(container, id.parameter, value.value)
                                  else container;
                    Put(doc, "active_modules", Put(modules, id.moduleId, Put(moduleCfg, "config_module", filled)))
  {
    var modules := Child(doc, "active_modules");
    var moduleCfg := Child(modules, id.moduleId);
    var container := Child(moduleCfg, "config_module");
    assert ContainerOf(id) == ["active_modules", id.moduleId] + ["config_module"];
    assert PathOf(id) == ["active_modules", id.moduleId] + ["config_module", id.parameter];
    TwoSteps(doc, "active_modules", id.moduleId, ["config_module"], None);
    TwoSteps(doc, "active_modules", id.moduleId, ["config_module", id.parameter], value);
    assert ["config_module"] == ["config_module"] + [];
    EditStep(moduleCfg, "config_module", [], None);
    assert ["config_module", id.parameter] == ["config_module", id.parameter] + [];
    TwoSteps(moduleCfg, "config_module", id.parameter, [], value);
    NoSteps(container, None);
    NoSteps(Child(container, id.parameter), value);
  }

  /** A parameter of an implementation, one key at a time. */
  lemma ImplementationSteps(doc: Json, id: Identifier, value: Option<Json>)
    requires ImplementationOf(id) != "!module"
    ensures var modules := Child(doc, "active_modules");
            var moduleCfg := Child(modules, id.moduleId);
            var implementations := Child(moduleCfg, "config_implementation");
            var container := Child(implementations, ImplementationOf(id));
            && (Applies(doc, id, value) <==>
                  && value.Some? && !doc.Leaf? && !modules.Leaf? && !moduleCfg.Leaf? && !implementations.Leaf?
                  && !container.Leaf?)
            && Attempted(doc, id, value)
               == if doc.Leaf? || modules.Leaf? || moduleCfg.Leaf? || implementations.Leaf? then doc
                  else
                    var filled := if value.Some? && !container.Leaf? then Put(container, id.parameter, value.value)
                                  else container;
                    var withContainer := Put(implementations, ImplementationOf(id), filled);
                    Put(doc, "active_modules",
                        Put(modules, id.moduleId, Put(moduleCfg, "config_implementation", withContainer)))
  {
    var name := ImplementationOf(id);
    var modules := Child(doc, "active_modules");
    var moduleCfg := Child(modules, id.moduleId);
    var implementations := Child(moduleCfg, "config_implementation");
    var container := Child(implementations, name);
    assert ContainerOf(id) == ["active_modules", id.moduleId] + ["config_implementation", name];
    assert PathOf(id) == ["active_modules", id.moduleId] + ["config_implementation", name, id.parameter];
    TwoSteps(doc, "active_modules", id.moduleId, ["config_implementation", name], None);
    TwoSteps(doc, "active_modules", id.moduleId, ["config_implementation", name, id.parameter], value);
    assert ["config_implementation", name] == ["config_implementation", name] + [];
    TwoSteps(moduleCfg, "config_implementation", name, [], None);
    assert ["config_implementation", name, id.parameter] == ["config_implementation", name] + [id.parameter];
    TwoSteps(moduleCfg, "config_implementation", name, [id.parameter], value);
    assert [id.parameter] == [id.parameter] + [];
    EditStep(container, id.parameter, [], value);
    NoSteps(container, None);
    NoSteps(Child(container, id.parameter), value);
  }

  class UserConfigStorage {
    var userConfig: Json
    var file: Option<Json>

    function State(): Stored
      reads this
    {
      Stored(userConfig, file)
    }

    constructor (loaded: Option<Json>)
      ensures State() == Loaded(loaded)
    {
      file := loaded;
      userConfig := if loaded.Some? then loaded.value else Null;
    }

    /** An exception leaves the document as far as the edit got. */
    method WriteConfigurationParameter(attempt: Attempt) returns (ok: bool)
      modifies this
      ensures ok <==> Accepted(old(State()), attempt)
      ensures ok <==>
        && attempt.content.Some? && attempt.saves
        && forall n: nat :: !LeafAbove(old(userConfig), PathOf(attempt.id), n)
      ensures State() == Next(old(State()), attempt)
    {
      var id, value := attempt.id, ValueOf(attempt);
      EditableIffNoLeafAbove(userConfig, PathOf(id));
      ok := false;
      var activeModules := Child(userConfig, "active_modules");
      var moduleCfg := Child(activeModules, id.moduleId);
      var implementation := if id.implementation.Some? then id.implementation.value else "!module";
      if implementation == "!module" {
        ModuleSteps(userConfig, id, value);
      } else {
        ImplementationSteps(userConfig, id, value);
      }
      if userConfig.Leaf? || activeModules.Leaf? || moduleCfg.Leaf? {
        return;
      }
      var stored := false;
      if implementation == "!module" {
        var configModule := Child(moduleCfg, "config_module");
        if value.Some? && !configModule.Leaf? {
          configModule := Put(configModule, id.parameter, value.value);
          stored := true;
        }
        moduleCfg := Put(moduleCfg, "config_module", configModule);
      } else {
        var configImplementation := Child(moduleCfg, "config_implementation");
        if configImplementation.Leaf? {
          return;
        }
        var parameters := Child(configImplementation, implementation);
        if value.Some? && !parameters.Leaf? {
          parameters := Put(parameters, id.parameter, value.value);
          stored := true;
        }
        configImplementation := Put(configImplementation, implementation, parameters);
        moduleCfg := Put(moduleCfg, "config_implementation", configImplementation);
      }
      userConfig := Put(userConfig, "active_modules", Put(activeModules, id.moduleId, moduleCfg));
      if stored && attempt.saves {
        file := Some(userConfig);
        ok := true;
      }
    }
  }

  /** A write that fails because its text does not parse has created the containers by then, and nothing else. */
  lemma FailedParseLeavesContainers(s: Stored, a: Attempt, q: Path)
    requires a.content == None && Editable(s.doc, ContainerOf(a.id))
    ensures var doc := Next(s, a).doc;
            && Read(doc, ContainerOf(a.id))
               == Some(if Read(s.doc, ContainerOf(a.id)).Some? then Read(s.doc, ContainerOf(a.id)).value
                       else EMPTY_OBJECT)
            && (!(q <= ContainerOf(a.id)) ==> Read(doc, q) == Read(s.doc, q))
            && Next(s, a).file == s.file
  {
    EditCreatesContainers(s.doc, ContainerOf(a.id));
    if !(q <= ContainerOf(a.id)) { EditLeavesRest(s.doc, ContainerOf(a.id), None, q); }
  }

  // ----- runs of writes -----

  function AfterAll(s: Stored, attempts: seq<Attempt>): Stored
    decreases |attempts|
  {
    if attempts == [] then s
    else Next(AfterAll(s, attempts[..|attempts| - 1]), attempts[|attempts| - 1])
  }

  /** The value of the last attempt on a parameter whose text parsed, saved or not. */
  function LastValue(attempts: seq<Attempt>, id: Identifier): Option<int>
    decreases |attempts|
  {
    if attempts == [] then None
    else
      var last := attempts[|attempts| - 1];
      if SameParameter(last.id, id) && last.content.Some? then last.content
      else LastValue(attempts[..|attempts| - 1], id)
  }

  /** How many attempts there were up to the last accepted one. */
  function LastAccepted(s: Stored, attempts: seq<Attempt>): (n: nat)
    ensures n <= |attempts|
    decreases |attempts|
  {
    if attempts == [] then 0
    else if Accepted(AfterAll(s, attempts[..|attempts| - 1]), attempts[|attempts| - 1]) then |attempts|
    else LastAccepted(s, attempts[..|attempts| - 1])
  }

  lemma {:induction false} FileIsLastAccepted(s: Stored, attempts: seq<Attempt>)
    ensures var n := LastAccepted(s, attempts);
            AfterAll(s, attempts).file == if n == 0 then s.file else Some(AfterAll(s, attempts[..n]).doc)
    decreases |attempts|
  {
    if attempts != [] {
      var before := attempts[..|attempts| - 1];
      FileIsLastAccepted(s, before);
      assert attempts[..|attempts|] == attempts;
      var n := LastAccepted(s, before);
      assert before[..n] == attempts[..n];
    }
  }

  lemma {:induction false} EditKeepsEditable(j: Json, path: Path, value: Option<Json>, q: Path)
    requires Editable(j, path) && Editable(j, q)
    requires value.Some? ==> !(path < q)
    ensures Editable(Edit(j, path, value), q)
    decreases path
  {
    if path != [] && q != [] && q[0] == path[0] {
      PrefixTails(path, q);
      var child := if path[0] in FieldsOf(j) then FieldsOf(j)[path[0]] else EMPTY_OBJECT;
      EditKeepsEditable(child, path[1..], value, q[1..]);
    }
  }

  lemma {:induction false} EditKeepsNoNullAbove(j: Json, path: Path, value: Option<Json>, q: Path)
    requires Editable(j, path) && NoNullAbove(j, q)
    requires value.Some? ==> value.value.Leaf?
    ensures NoNullAbove(Edit(j, path, value), q)
    decreases path
  {
    if path != [] && q != [] && q[0] == path[0] {
      var child := if path[0] in FieldsOf(j) then FieldsOf(j)[path[0]] else EMPTY_OBJECT;
      EditKeepsNoNullAbove(child, path[1..], value, q[1..]);
    }
  }

  lemma {:induction false} NoNullAboveFront(j: Json, front: Path, last: string)
    requires NoNullAbove(j, front + [last])
    ensures NoNullAbove(j, front)
    decreases front
  {
    if front != [] {
      assert (front + [last])[1..] == front[1..] + [last];
      if front[0] in FieldsOf(j) { NoNullAboveFront(FieldsOf(j)[front[0]], front[1..], last); }
    }
  }

  lemma ContainerIsOnTheWay(id: Identifier, q: Path)
    requires q <= ContainerOf(id)
    ensures q <= PathOf(id) && q != PathOf(id)
  {
  }

  lemma OneAttemptReads(s: Stored, a: Attempt, id: Identifier)
    requires Editable(s.doc, PathOf(id))
    ensures var t := Next(s, a);
            && Editable(t.doc, PathOf(id))
            && Read(t.doc, PathOf(id))
               == if SameParameter(a.id, id) && a.content.Some? then Some(Leaf(a.content.value))
                  else Read(s.doc, PathOf(id))
  {
    var p, q := PathOf(a.id), PathOf(id);
    PathsAreApart(a.id, id);
    PathsAreApart(id, a.id);
    if Editable(s.doc, ContainerOf(a.id)) {
      if ValueOf(a).None? || !Editable(s.doc, p) {
        if q <= ContainerOf(a.id) { ContainerIsOnTheWay(a.id, q); }
        EditLeavesRest(s.doc, ContainerOf(a.id), None, q);
        EditKeepsEditable(s.doc, ContainerOf(a.id), None, q);
      } else {
        EditKeepsEditable(s.doc, p, ValueOf(a), q);
        if SameParameter(a.id, id) {
          EditPutsValue(s.doc, p, ValueOf(a).value);
        } else {
          EditLeavesRest(s.doc, p, ValueOf(a), q);
        }
      }
    } else {
      EditableFront(s.doc, ContainerOf(id), id.parameter);
    }
  }

  lemma {:induction false} EditableFront(doc: Json, front: Path, last: string)
    ensures Editable(doc, front + [last]) ==> Editable(doc, front)
    decreases front
  {
    if front != [] {
      assert (front + [last])[1..] == front[1..] + [last];
      if !doc.Leaf? && front[0] in FieldsOf(doc) { EditableFront(FieldsOf(doc)[front[0]], front[1..], last); }
    }
  }

  lemma {:induction false} DocumentHoldsLastValues(s: Stored, attempts: seq<Attempt>, id: Identifier)
    requires Editable(s.doc, PathOf(id))
    ensures var t := AfterAll(s, attempts);
            && Editable(t.doc, PathOf(id))
            && Read(t.doc, PathOf(id))
               == var last := LastValue(attempts, id);
                  if last.Some? then Some(Leaf(last.value)) else Read(s.doc, PathOf(id))
    decreases |attempts|
  {
    if attempts != [] {
      var before := attempts[..|attempts| - 1];
      DocumentHoldsLastValues(s, before, id);
      OneAttemptReads(AfterAll(s, before), attempts[|attempts| - 1], id);
    }
  }

  /** How far down an attempt edits: an unparsed value only creates the containers. */
  function EditedPath(a: Attempt): Path {
    if a.content.Some? then PathOf(a.id) else ContainerOf(a.id)
  }

  ghost predicate Spares(a: Attempt, q: Path) {
    Untouched(EditedPath(a), ValueOf(a), q)
  }

  lemma OneAttemptIsLocal(s: Stored, a: Attempt, q: Path, main: Json)
    requires NoNullAbove(s.doc, EditedPath(a))
    requires Spares(a, q)
    ensures Read(MergePatch(main, Next(s, a).doc), q) == Read(MergePatch(main, s.doc), q)
  {
    var p := PathOf(a.id);
    if Editable(s.doc, ContainerOf(a.id)) {
      if ValueOf(a).None? || !Editable(s.doc, p) {
        if a.content.Some? {
          if q <= ContainerOf(a.id) { ContainerIsOnTheWay(a.id, q); }
          NoNullAboveFront(s.doc, ContainerOf(a.id), a.id.parameter);
        }
        MergedEditLeavesRest(main, s.doc, ContainerOf(a.id), None, q);
      } else {
        MergedEditLeavesRest(main, s.doc, p, ValueOf(a), q);
      }
    }
  }

  lemma OneAttemptKeepsNoNull(s: Stored, a: Attempt, q: Path)
    requires NoNullAbove(s.doc, q)
    ensures NoNullAbove(Next(s, a).doc, q)
  {
    if Editable(s.doc, ContainerOf(a.id)) {
      if ValueOf(a).None? || !Editable(s.doc, PathOf(a.id)) {
        EditKeepsNoNullAbove(s.doc, ContainerOf(a.id), None, q);
      } else {
        EditKeepsNoNullAbove(s.doc, PathOf(a.id), ValueOf(a), q);
      }
    }
  }

  ghost predicate NoNullsAbove(doc: Json, attempts: seq<Attempt>) {
    forall a :: a in attempts ==> NoNullAbove(doc, EditedPath(a))
  }

  ghost predicate AllSpare(attempts: seq<Attempt>, q: Path) {
    forall a :: a in attempts ==> Spares(a, q)
  }

  lemma {:induction false} AttemptsKeepNoNull(s: Stored, attempts: seq<Attempt>, q: Path)
    requires NoNullAbove(s.doc, q)
    ensures NoNullAbove(AfterAll(s, attempts).doc, q)
    decreases |attempts|
  {
    if attempts != [] {
      var before := attempts[..|attempts| - 1];
      AttemptsKeepNoNull(s, before, q);
      OneAttemptKeepsNoNull(AfterAll(s, before), attempts[|attempts| - 1], q);
    }
  }

  lemma {:induction false} AttemptsAreLocal(s: Stored, attempts: seq<Attempt>, q: Path, main: Json)
    requires NoNullsAbove(s.doc, attempts) && AllSpare(attempts, q)
    ensures Read(MergePatch(main, AfterAll(s, attempts).doc), q) == Read(MergePatch(main, s.doc), q)
    decreases |attempts|
  {
    if attempts != [] {
      var before := attempts[..|attempts| - 1];
      var last := attempts[|attempts| - 1];
      assert last in attempts && forall a :: a in before ==> a in attempts;
      AttemptsAreLocal(s, before, q, main);
      AttemptsKeepNoNull(s, before, EditedPath(last));
      OneAttemptIsLocal(AfterAll(s, before), last, q, main);
    }
  }

  // ----- the next boot -----

  /** The user config counts only if its file exists. */
  function Booted(main: Json, file: Option<Json>): Json {
    if file.Some? then MergePatch(main, file.value) else main
  }

  /** The next boot reads at every parameter the last value attempted before the last accepted write of all,
      whatever the main configuration says. */
  lemma BootReadsLastWrites(main: Json, file: Option<Json>, attempts: seq<Attempt>, id: Identifier)
    requires Editable(Loaded(file).doc, PathOf(id))
    ensures var n := LastAccepted(Loaded(file), attempts);
            n > 0 && LastValue(attempts[..n], id).Some? ==>
              Read(Booted(main, AfterAll(Loaded(file), attempts).file), PathOf(id))
                == Some(Leaf(LastValue(attempts[..n], id).value))
  {
    var s := Loaded(file);
    var n := LastAccepted(s, attempts);
    FileIsLastAccepted(s, attempts);
    if n > 0 && LastValue(attempts[..n], id).Some? {
      DocumentHoldsLastValues(s, attempts[..n], id);
      MergeShowsLeaf(main, AfterAll(s, attempts[..n]).doc, PathOf(id), Leaf(LastValue(attempts[..n], id).value));
    }
  }

  lemma {:induction false} NoFileIsAnEmptyObject(attempts: seq<Attempt>)
    requires attempts != []
    ensures AfterAll(Stored(Null, None), attempts) == AfterAll(Stored(EMPTY_OBJECT, None), attempts)
    decreases |attempts|
  {
    var before := attempts[..|attempts| - 1];
    if before != [] { NoFileIsAnEmptyObject(before); }
  }

  /** What no attempt before the last save edits reads at the next boot as it did at the last one, provided the
      old file has no null on the way to those edits; no file at all is as good. */
  lemma BootLeavesTheRest(main: Json, file: Option<Json>, attempts: seq<Attempt>, q: Path)
    requires var done := attempts[..LastAccepted(Loaded(file), attempts)];
             AllSpare(done, q) && (file.Some? ==> NoNullsAbove(file.value, done))
    requires q != []
    ensures Read(Booted(main, AfterAll(Loaded(file), attempts).file), q) == Read(Booted(main, file), q)
  {
    var n := LastAccepted(Loaded(file), attempts);
    FileIsLastAccepted(Loaded(file), attempts);
    if n > 0 {
      var done := attempts[..n];
      if file.Some? {
        AttemptsAreLocal(Loaded(file), done, q, main);
      } else {
        NoFileIsAnEmptyObject(done);
        forall a | a in done ensures NoNullAbove(EMPTY_OBJECT, EditedPath(a)) {}
        AttemptsAreLocal(Stored(EMPTY_OBJECT, None), done, q, main);
        MergeEmpty(main, q);
      }
    }
  }

  lemma {:induction false} NeverParsedSpares(attempts: seq<Attempt>, id: Identifier)
    requires LastValue(attempts, id) == None
    ensures AllSpare(attempts, PathOf(id))
    decreases |attempts|
  {
    if attempts != [] {
      var before, last := attempts[..|attempts| - 1], attempts[|attempts| - 1];
      NeverParsedSpares(before, id);
      PathsAreApart(last.id, id);
      PathsAreApart(id, last.id);
      if PathOf(id) <= ContainerOf(last.id) { ContainerIsOnTheWay(last.id, PathOf(id)); }
      assert attempts == before + [last];
    }
  }

  /** The next boot reads at a parameter the last value that parsed before the last save, and what the last boot
      read there if none did. */
  lemma BootReadsParameter(main: Json, file: Option<Json>, attempts: seq<Attempt>, id: Identifier)
    requires Editable(Loaded(file).doc, PathOf(id))
    requires file.Some? ==> NoNullsAbove(file.value, attempts[..LastAccepted(Loaded(file), attempts)])
    ensures var last := LastValue(attempts[..LastAccepted(Loaded(file), attempts)], id);
            Read(Booted(main, AfterAll(Loaded(file), attempts).file), PathOf(id))
              == if last.Some? then Some(Leaf(last.value)) else Read(Booted(main, file), PathOf(id))
  {
    var n := LastAccepted(Loaded(file), attempts);
    if LastValue(attempts[..n], id).Some? {
      BootReadsLastWrites(main, file, attempts, id);
    } else {
      NeverParsedSpares(attempts[..n], id);
      BootLeavesTheRest(main, file, attempts, PathOf(id));
    }
  }

  // ----- rejected writes -----

  /** How many attempts there were up to the last accepted one on a parameter. */
  function LastAcceptedOn(s: Stored, attempts: seq<Attempt>, id: Identifier): (k: nat)
    ensures k <= LastAccepted(s, attempts)
    ensures k > 0 ==> SameParameter(attempts[k - 1].id, id) && attempts[k - 1].content.Some?
    decreases |attempts|
  {
    if attempts == [] then 0
    else
      var before, last := attempts[..|attempts| - 1], attempts[|attempts| - 1];
      if SameParameter(last.id, id) && Accepted(AfterAll(s, before), last) then |attempts|
      else LastAcceptedOn(s, before, id)
  }

  /** What the next boot would read if only accepted writes counted. */
  function AcceptedReading(main: Json, file: Option<Json>, attempts: seq<Attempt>, id: Identifier): Option<Json> {
    var k := LastAcceptedOn(Loaded(file), attempts, id);
    if k > 0 then Some(Leaf(attempts[k - 1].content.value)) else Read(Booted(main, file), PathOf(id))
  }

  lemma {:induction false} LastValueConcat(xs: seq<Attempt>, ys: seq<Attempt>, id: Identifier)
    ensures LastValue(xs + ys, id) == if LastValue(ys, id).Some? then LastValue(ys, id) else LastValue(xs, id)
    decreases |ys|
  {
    if ys == [] {
      assert xs + ys == xs;
    } else {
      assert (xs + ys)[..|xs + ys| - 1] == xs + ys[..|ys| - 1];
      LastValueConcat(xs, ys[..|ys| - 1], id);
    }
  }

  lemma {:induction false} NoneAcceptedSince(s: Stored, attempts: seq<Attempt>, id: Identifier, i: nat)
    requires LastAcceptedOn(s, attempts, id) <= i < |attempts|
    requires SameParameter(attempts[i].id, id)
    ensures !Accepted(AfterAll(s, attempts[..i]), attempts[i])
    decreases |attempts|
  {
    if i < |attempts| - 1 {
      assert attempts[..|attempts| - 1][..i] == attempts[..i];
      NoneAcceptedSince(s, attempts[..|attempts| - 1], id, i);
    }
  }

  /** A rejected write is not undone: the next boot reads what the accepted writes alone would give if and only if
      no rejected attempt on the parameter that parsed, made after the last accepted one on it and before the
      last save of any parameter, has left another value behind. */
  lemma RejectedWritesStayOutIffNotSavedLater(main: Json, file: Option<Json>, attempts: seq<Attempt>, id: Identifier)
    requires Editable(Loaded(file).doc, PathOf(id))
    requires file.Some? ==> NoNullsAbove(file.value, attempts[..LastAccepted(Loaded(file), attempts)])
    ensures var s := Loaded(file);
            var n, k := LastAccepted(s, attempts), LastAcceptedOn(s, attempts, id);
            var intended, rejected := AcceptedReading(main, file, attempts, id), LastValue(attempts[k..n], id);
            var read := Read(Booted(main, AfterAll(s, attempts).file), PathOf(id));
            && (read == intended <==> rejected == None || Some(Leaf(rejected.value)) == intended)
            && (forall i :: k <= i < n && SameParameter(attempts[i].id, id) ==>
                  !Accepted(AfterAll(s, attempts[..i]), attempts[i]))
  {
    hide *;
    ReadIffNoneLeftBehind(main, file, attempts, id);
    var s := Loaded(file);
    forall i | LastAcceptedOn(s, attempts, id) <= i < LastAccepted(s, attempts) && SameParameter(attempts[i].id, id)
      ensures !Accepted(AfterAll(s, attempts[..i]), attempts[i])
    {
      NoneAcceptedSince(s, attempts, id, i);
    }
  }

  lemma ReadIffNoneLeftBehind(main: Json, file: Option<Json>, attempts: seq<Attempt>, id: Identifier)
    requires Editable(Loaded(file).doc, PathOf(id))
    requires file.Some? ==> NoNullsAbove(file.value, attempts[..LastAccepted(Loaded(file), attempts)])
    ensures var s := Loaded(file);
            var n, k := LastAccepted(s, attempts), LastAcceptedOn(s, attempts, id);
            var intended, rejected := AcceptedReading(main, file, attempts, id), LastValue(attempts[k..n], id);
            var read := Read(Booted(main, AfterAll(s, attempts).file), PathOf(id));
            read == intended <==> rejected == None || Some(Leaf(rejected.value)) == intended
  {
    hide Next, Accepted, AfterAll, Editable, NoNullsAbove, PathOf, Read, Booted, SameParameter, LastValue;
    var s := Loaded(file);
    var n, k := LastAccepted(s, attempts), LastAcceptedOn(s, attempts, id);
    BootReadsParameter(main, file, attempts, id);
    assert attempts[..k] + attempts[k..n] == attempts[..n];
    LastValueConcat(attempts[..k], attempts[k..n], id);
    LastValueUpToAccepted(s, attempts, id);
  }

  lemma LastValueUpToAccepted(s: Stored, attempts: seq<Attempt>, id: Identifier)
    ensures var k := LastAcceptedOn(s, attempts, id);
            LastValue(attempts[..k], id) == if k > 0 then attempts[k - 1].content else None
  {
  }

  /** A run that shows it: a write rejected at saving is carried to the next boot by a write to another parameter. */
  lemma RejectedWritesSurface(main: Json, x: Identifier, y: Identifier, was: int, rejected: int, other: int)
    requires !SameParameter(x, y)
    ensures var s := Loaded(None);
            var run := [Attempt(x, Some(was), true), Attempt(x, Some(rejected), false), Attempt(y, Some(other), true)];
            && Accepted(s, run[0])
            && !Accepted(AfterAll(s, run[..1]), run[1])
            && Accepted(AfterAll(s, run[..2]), run[2])
            && Read(Booted(main, AfterAll(s, run).file), PathOf(x)) == Some(Leaf(rejected))
  {
    var s := Loaded(None);
    var run := [Attempt(x, Some(was), true), Attempt(x, Some(rejected), false), Attempt(y, Some(other), true)];
    DocumentHoldsLastValues(s, run[..2], y);
    assert run[..3] == run;
    assert run[..2][..1] == run[..1] && run[..1][..0] == [];
    assert LastValue(run[..2], x) == Some(rejected);
    assert Accepted(AfterAll(s, run[..2]), run[2]);
    PathsAreApart(x, y);
    BootReadsLastWrites(main, None, run, x);
  }
}
