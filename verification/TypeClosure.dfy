/** Which types the code generator emits: it starts from the types the interfaces mention, emits each, and goes
    on with the types those mention, naming inline enums on the way. */
module TypeClosure {
  import opened Options
  import opened Sets
  import opened TopicMatching
  import opened TypeReferences

  /** The argument of a schema type. `items` are the values of an enum, `reference` the named type it stands for. */
  datatype Arg =
    | Plain(text: string)
    | Text(items: Option<seq<string>>, reference: Option<string>)
    | Fields(reference: Option<string>, properties: seq<Property>)
    | List(element: Option<Arg>)

  datatype Property = Property(name: string, arg: Arg, required: bool)

  /** The loaded type files; a type is found by its file's path and its name. */
  type Library = map<TypeRef, Arg>

  // ----- type names -----

  /** A printed type and the named types it mentions. */
  datatype Named = Named(text: string, refs: set<TypeRef>)

  function Joined(path: seq<string>): string {
    if path == [] then "" else if |path| == 1 then path[0] else path[0] + "::" + Joined(path[1..])
  }

  function AbsolutePath(t: TypeRef): string {
    "crate::generated::types::" + Joined(t.modulePath) + "::" + t.typeName
  }

  function NameOfReference(reference: string): Option<Named> {
    match FromReference(reference)
    case None => None
    case Some(t) => Some(Named(AbsolutePath(t), {t}))
  }

  /** An object with a reference must not have properties of its own. */
  function AsTypeName(arg: Arg): Option<Named> {
    match arg
    case Plain(text) => Some(Named(text, {}))
    case Text(_, None) => Some(Named("String", {}))
    case Text(_, Some(reference)) => NameOfReference(reference)
    case Fields(None, _) => Some(Named("__serde_json::Value", {}))
    case Fields(Some(reference), properties) => if properties != [] then None else NameOfReference(reference)
    case List(None) => Some(Named("Vec<__serde_json::Value>", {}))
    case List(Some(element)) =>
      match AsTypeName(element)
      case None => None
      case Some(n) => Some(Named("Vec<" + n.text + ">", n.refs))
  }

  /** The argument refers to the named type, at whatever depth of lists. */
  predicate Refers(arg: Arg, t: TypeRef) {
    match arg
    case Plain(_) => false
    case Text(_, reference) => reference.Some? && FromReference(reference.value) == Some(t)
    case Fields(reference, _) => reference.Some? && FromReference(reference.value) == Some(t)
    case List(element) => element.Some? && Refers(element.value, t)
  }

  /** No reference in the argument is broken, and no object has both a reference and properties. */
  predicate Nameable(arg: Arg) {
    match arg
    case Plain(_) => true
    case Text(_, reference) => reference.Some? ==> FromReference(reference.value).Some?
    case Fields(reference, properties) =>
      reference.Some? ==> properties == [] && FromReference(reference.value).Some?
    case List(element) => element.Some? ==> Nameable(element.value)
  }

  function Nested(depth: nat, text: string): string {
    if depth == 0 then text else "Vec<" + Nested(depth - 1, text) + ">"
  }

  function Depth(arg: Arg): nat {
    if arg.List? && arg.element.Some? then 1 + Depth(arg.element.value) else 0
  }

  /** An argument has a type name exactly when it is nameable; the types counted as mentioned are those it refers to,
      and such a type's path is what the text names, inside as many vectors as there are lists. */
  lemma {:induction false} NamesAreReferences(arg: Arg, t: TypeRef)
    ensures AsTypeName(arg).Some? <==> Nameable(arg)
    ensures AsTypeName(arg).Some? ==>
              var n := AsTypeName(arg).value;
              (t in n.refs <==> Refers(arg, t)) && (Refers(arg, t) ==> n.text == Nested(Depth(arg), AbsolutePath(t)))
    decreases arg
  {
    if arg.List? && arg.element.Some? { NamesAreReferences(arg.element.value, t); }
  }

  ghost predicate ColonFree(parts: seq<string>) {
    forall i :: 0 <= i < |parts| ==> ':' !in parts[i]
  }

  lemma NoColonBefore(a: string, b: string, more: string, rest: string)
    requires ':' !in b
    requires a + "::" + more == b + "::" + rest
    ensures |b| <= |a|
  {
    var s := a + "::" + more;
    assert s[|a|] == ':';
    assert forall i :: 0 <= i < |b| ==> s[i] == b[i] && b[i] in b;
  }

  lemma FirstColon(a: string, b: string, more: string, rest: string)
    requires ':' !in a && ':' !in b
    requires a + "::" + more == b + "::" + rest
    ensures a == b && more == rest
  {
    var s := a + "::" + more;
    NoColonBefore(a, b, more, rest);
    NoColonBefore(b, a, rest, more);
    assert a == s[..|a|] && s[..|b|] == b;
    assert more == s[|a| + 2..] && s[|b| + 2..] == rest;
  }

  lemma ColonIffSeveral(p: seq<string>)
    requires p != [] && ColonFree(p)
    ensures ':' in Joined(p) <==> |p| > 1
  {
    if |p| > 1 { assert Joined(p)[|p[0]|] == ':'; }
  }

  lemma {:induction false} JoinedDetermines(p: seq<string>, q: seq<string>)
    requires p != [] && q != [] && ColonFree(p) && ColonFree(q)
    requires Joined(p) == Joined(q)
    ensures p == q
  {
    ColonIffSeveral(p);
    ColonIffSeveral(q);
    if |p| > 1 {
      FirstColon(p[0], q[0], Joined(p[1..]), Joined(q[1..]));
      JoinedDetermines(p[1..], q[1..]);
      assert p == [p[0]] + p[1..] && q == [q[0]] + q[1..];
    }
  }

  lemma {:induction false} JoinedOneMore(p: seq<string>, name: string)
    requires p != []
    ensures Joined(p) + "::" + name == Joined(p + [name])
  {
    if |p| > 1 {
      JoinedOneMore(p[1..], name);
      assert (p + [name])[1..] == p[1..] + [name];
    } else {
      assert (p + [name])[1..] == [name];
    }
  }

  /** Types print alike only if they are the same, as long as no file or type name holds a colon. */
  lemma PathsDetermineTypes(a: TypeRef, b: TypeRef)
    requires a.modulePath != [] && ColonFree(a.modulePath) && ':' !in a.typeName
    requires b.modulePath != [] && ColonFree(b.modulePath) && ':' !in b.typeName
    ensures AbsolutePath(a) == AbsolutePath(b) <==> a == b
  {
    if AbsolutePath(a) == AbsolutePath(b) {
      var prefix := "crate::generated::types::";
      var p, q := a.modulePath + [a.typeName], b.modulePath + [b.typeName];
      JoinedOneMore(a.modulePath, a.typeName);
      JoinedOneMore(b.modulePath, b.typeName);
      assert AbsolutePath(a) == prefix + (Joined(a.modulePath) + "::" + a.typeName);
      assert AbsolutePath(b) == prefix + (Joined(b.modulePath) + "::" + b.typeName);
      assert AbsolutePath(a)[|prefix|..] == Joined(p) && AbsolutePath(b)[|prefix|..] == Joined(q);
      JoinedDetermines(p, q);
      assert p[..|p| - 1] == a.modulePath && q[..|q| - 1] == b.modulePath;
      assert p[|p| - 1] == a.typeName && q[|q| - 1] == b.typeName;
    }
  }

  // ----- one type -----

  datatype Field = Field(name: string, typeName: string)

  datatype Context = ObjectContext(name: string, fields: seq<Field>) | EnumContext(name: string, items: seq<string>)

  predicate InlineEnum(p: Property) {
    p.arg.Text? && p.arg.items.Some?
  }

  /** The type that an inline enum becomes; `pascal` is the conversion of names to Pascal case. */
  function Generated(pascal: string -> string, owner: TypeRef, property: string): TypeRef {
    TypeRef(owner.modulePath, pascal(owner.typeName) + "AutoGen" + pascal(property))
  }

  function Inlined(pascal: string -> string, owner: TypeRef, p: Property): Property
  {
    if InlineEnum(p) then p.(arg := Text(p.arg.items, Some(Printed(Generated(pascal, owner, p.name))))) else p
  }

  datatype FieldList = FieldList(fields: seq<Field>, refs: set<TypeRef>)

  function FieldOf(p: Property, n: Named): Field {
    Field(p.name, if p.required then n.text else "Option<" + n.text + ">")
  }

  function FieldsOf(pascal: string -> string, owner: TypeRef, ps: seq<Property>): Option<FieldList>
    decreases |ps|
  {
    if ps == [] then Some(FieldList([], {}))
    else
      var last := ps[|ps| - 1];
      var before := FieldsOf(pascal, owner, ps[..|ps| - 1]);
      var n := AsTypeName(Inlined(pascal, owner, last).arg);
      if before == None || n == None then None
      else Some(FieldList(before.value.fields + [FieldOf(last, n.value)], before.value.refs + n.value.refs))
  }

  /** The enums made of inline ones; a later one of the same name replaces an earlier one. */
  function NewTypes(pascal: string -> string, owner: TypeRef, ps: seq<Property>): Library
    decreases |ps|
  {
    if ps == [] then map[]
    else
      var last := ps[|ps| - 1];
      var before := NewTypes(pascal, owner, ps[..|ps| - 1]);
      if InlineEnum(last) then before[Generated(pascal, owner, last.name) := Text(last.arg.items, None)] else before
  }

  function AllInlined(pascal: string -> string, owner: TypeRef, ps: seq<Property>): (r: seq<Property>)
    ensures |r| == |ps|
  {
    seq(|ps|, i requires 0 <= i < |ps| => Inlined(pascal, owner, ps[i]))
  }

  /** What processing a type gives, and the library afterwards. */
  datatype Step = Step(context: Context, refs: set<TypeRef>, library: Library)

  /** Undefined types are an error; so is anything but an object or an enum under a name. */
  function Process(pascal: string -> string, library: Library, t: TypeRef): Option<Step>
  {
    if t !in library then None
    else
      match library[t]
      case Fields(reference, ps) =>
        (match FieldsOf(pascal, t, ps)
         case None => None
         case Some(f) =>
           Some(Step(ObjectContext(t.typeName, f.fields), f.refs,
                     library[t := Fields(reference, AllInlined(pascal, t, ps))] + NewTypes(pascal, t, ps))))
      case Text(Some(items), _) => Some(Step(EnumContext(t.typeName, items), {}, library))
      case _ => None
  }

  /** What a property of an object refers to; an inline enum refers to the type it becomes. */
  ghost predicate PropertyRefers(pascal: string -> string, owner: TypeRef, p: Property, t: TypeRef) {
    if p.arg.Text? && p.arg.items.Some? then FromReference(Printed(Generated(pascal, owner, p.name))) == Some(t)
    else Refers(p.arg, t)
  }

  ghost predicate PropertyNameable(pascal: string -> string, owner: TypeRef, p: Property) {
    if p.arg.Text? && p.arg.items.Some? then FromReference(Printed(Generated(pascal, owner, p.name))).Some?
    else Nameable(p.arg)
  }

  ghost predicate SomeRefers(pascal: string -> string, owner: TypeRef, ps: seq<Property>, t: TypeRef) {
    exists i :: 0 <= i < |ps| && PropertyRefers(pascal, owner, ps[i], t)
  }

  ghost predicate AllNameable(pascal: string -> string, owner: TypeRef, ps: seq<Property>) {
    forall i :: 0 <= i < |ps| ==> PropertyNameable(pascal, owner, ps[i])
  }

  lemma PropertyNames(pascal: string -> string, owner: TypeRef, p: Property, t: TypeRef)
    ensures var n := AsTypeName(Inlined(pascal, owner, p).arg);
            && (n.Some? <==> PropertyNameable(pascal, owner, p))
            && (n.Some? ==>
                  && (t in n.value.refs <==> PropertyRefers(pascal, owner, p, t))
                  && (PropertyRefers(pascal, owner, p, t) ==>
                        n.value.text == Nested(Depth(p.arg), AbsolutePath(t))))
  {
    hide FromReference, Printed, Generated, AbsolutePath;
    NamesAreReferences(Inlined(pascal, owner, p).arg, t);
  }

  /** The fields of an object: the loop succeeds exactly when every property is nameable, mentions exactly what the
      properties refer to, and keeps their names in order. A field's text names the type its property refers to,
      optional unless required. */
  lemma {:induction false} FieldsFollowProperties(pascal: string -> string, owner: TypeRef, ps: seq<Property>,
                                                  t: TypeRef)
    ensures FieldsOf(pascal, owner, ps).Some? <==> AllNameable(pascal, owner, ps)
    ensures FieldsOf(pascal, owner, ps).Some? ==>
              var f := FieldsOf(pascal, owner, ps).value;
              && (t in f.refs <==> SomeRefers(pascal, owner, ps, t))
              && |f.fields| == |ps|
              && forall i :: 0 <= i < |ps| ==>
                   && f.fields[i].name == ps[i].name
                   && (PropertyRefers(pascal, owner, ps[i], t) ==>
                         var named := Nested(Depth(ps[i].arg), AbsolutePath(t));
                         f.fields[i].typeName == if ps[i].required then named else "Option<" + named + ">")
    decreases |ps|
  {
    if ps != [] {
      hide PropertyRefers, PropertyNameable, Inlined, AsTypeName, Nested, AbsolutePath, Depth;
      var before, last := ps[..|ps| - 1], ps[|ps| - 1];
      FieldsFollowProperties(pascal, owner, before, t);
      PropertyNames(pascal, owner, last, t);
      assert ps == before + [last];
      assert AllNameable(pascal, owner, ps) <==>
          AllNameable(pascal, owner, before) && PropertyNameable(pascal, owner, last);
      assert SomeRefers(pascal, owner, ps, t) <==>
          SomeRefers(pascal, owner, before, t) || PropertyRefers(pascal, owner, last, t);
    }
  }

  /** A type can be processed if and only if it is defined, as an enum or as an object with nameable properties. */
  lemma ProcessedIffDefinedAndNameable(pascal: string -> string, library: Library, t: TypeRef)
    ensures Process(pascal, library, t).Some? <==>
              && t in library
              && (library[t].Fields? ==> AllNameable(pascal, t, library[t].properties))
              && (!library[t].Fields? ==> library[t].Text? && library[t].items.Some?)
  {
    if t in library && library[t].Fields? { FieldsFollowProperties(pascal, t, library[t].properties, t); }
  }

  lemma OnePropertyMore(pascal: string -> string, owner: TypeRef, ps: seq<Property>, i: nat)
    requires i < |ps|
    ensures var p, before := ps[i], FieldsOf(pascal, owner, ps[..i]);
            var n := AsTypeName(Inlined(pascal, owner, p).arg);
            FieldsOf(pascal, owner, ps[..i + 1])
              == if before == None || n == None then None
                 else Some(FieldList(before.value.fields + [FieldOf(p, n.value)], before.value.refs + n.value.refs))
    ensures var p, before := ps[i], NewTypes(pascal, owner, ps[..i]);
            NewTypes(pascal, owner, ps[..i + 1])
              == if InlineEnum(p) then before[Generated(pascal, owner, p.name) := Text(p.arg.items, None)] else before
    ensures AllInlined(pascal, owner, ps[..i + 1])
         == AllInlined(pascal, owner, ps[..i]) + [Inlined(pascal, owner, ps[i])]
  {
    assert ps[..i + 1][..i] == ps[..i];
  }

  lemma {:induction false} FieldsNeedAllNames(pascal: string -> string, owner: TypeRef, ps: seq<Property>, i: nat)
    requires i <= |ps|
    requires FieldsOf(pascal, owner, ps[..i]) == None
    ensures FieldsOf(pascal, owner, ps) == None
    decreases |ps|
  {
    if i == |ps| {
      assert ps[..i] == ps;
    } else {
      assert ps[..|ps| - 1][..i] == ps[..i];
      FieldsNeedAllNames(pascal, owner, ps[..|ps| - 1], i);
    }
  }

  /** An inline enum gets a name and a reference to it. */
  method NameInlineEnum(pascal: string -> string, t: TypeRef, p: Property, newTypes: Library)
    returns (changed: Property, types: Library)
    ensures changed == Inlined(pascal, t, p)
    ensures types == if InlineEnum(p) then newTypes[Generated(pascal, t, p.name) := Text(p.arg.items, None)]
                     else newTypes
  {
    changed, types := p, newTypes;
    if p.arg.Text? && p.arg.items.Some? {
      var newName := Generated(pascal, t, p.name);
      types := newTypes[newName := Text(p.arg.items, None)];
      changed := p.(arg := Text(p.arg.items, Some(Printed(newName))));
    }
  }

  /** The loop over the properties: `changed` are the properties with their new references. */
  method ContextOfProperties(pascal: string -> string, t: TypeRef, ps: seq<Property>)
    returns (fields: Option<FieldList>, changed: seq<Property>, newTypes: Library)
    ensures fields == FieldsOf(pascal, t, ps)
    ensures fields.Some? ==> changed == AllInlined(pascal, t, ps) && newTypes == NewTypes(pascal, t, ps)
  {
    var printed: seq<Field>, refs: set<TypeRef> := [], {};
    changed, newTypes := [], map[];
    for i := 0 to |ps|
      invariant FieldsOf(pascal, t, ps[..i]) == Some(FieldList(printed, refs))
      invariant newTypes == NewTypes(pascal, t, ps[..i])
      invariant changed == AllInlined(pascal, t, ps[..i])
    {
      OnePropertyMore(pascal, t, ps, i);
      var p;
      p, newTypes := NameInlineEnum(pascal, t, ps[i], newTypes);
      changed := changed + [p];
      var n := AsTypeName(p.arg);
      if n == None {
        FieldsNeedAllNames(pascal, t, ps, i + 1);
        return None, changed, newTypes;
      }
      refs := refs + n.value.refs;
      printed := printed + [FieldOf(p, n.value)];
    }
    assert ps[..|ps|] == ps;
    return Some(FieldList(printed, refs)), changed, newTypes;
  }

  method TypeContextFromRef(pascal: string -> string, library: Library, t: TypeRef) returns (step: Option<Step>)
    ensures step == Process(pascal, library, t)
  {
    if t !in library {
      return None;
    }
    match library[t] {
      case Fields(reference, ps) =>
        var fields, changed, newTypes := ContextOfProperties(pascal, t, ps);
        if fields == None {
          return None;
        }
        return Some(Step(ObjectContext(t.typeName, fields.value.fields), fields.value.refs,
                         library[t := Fields(reference, changed)] + newTypes));
      case Text(Some(items), _) =>
        return Some(Step(EnumContext(t.typeName, items), {}, library));
      case _ =>
        return None;
    }
  }

  // ----- the names that inline enums get -----

  ghost predicate Born(pascal: string -> string, declared: Library, g: TypeRef, owner: TypeRef, i: nat) {
    && owner in declared && declared[owner].Fields? && i < |declared[owner].properties|
    && InlineEnum(declared[owner].properties[i])
    && g == Generated(pascal, owner, declared[owner].properties[i].name)
  }

  ghost function BornNames(pascal: string -> string, declared: Library): set<TypeRef> {
    set owner, i | owner in declared && declared[owner].Fields? && 0 <= i < |declared[owner].properties|
                   && InlineEnum(declared[owner].properties[i])
      :: Generated(pascal, owner, declared[owner].properties[i].name)
  }

  lemma BornNamesContents(pascal: string -> string, declared: Library, g: TypeRef)
    ensures g in BornNames(pascal, declared) <==> exists owner, i: nat :: Born(pascal, declared, g, owner, i)
  {
    if g in BornNames(pascal, declared) {
      var owner, i :| owner in declared && declared[owner].Fields? && 0 <= i < |declared[owner].properties|
        && InlineEnum(declared[owner].properties[i])
        && g == Generated(pascal, owner, declared[owner].properties[i].name);
      assert Born(pascal, declared, g, owner, i);
    }
  }

  /** An inline enum that gives the name its type. */
  lemma {:induction false} NewTypesAreBorn(pascal: string -> string, owner: TypeRef, ps: seq<Property>, g: TypeRef)
    returns (i: nat)
    requires g in NewTypes(pascal, owner, ps)
    ensures i < |ps| && InlineEnum(ps[i]) && g == Generated(pascal, owner, ps[i].name)
    ensures NewTypes(pascal, owner, ps)[g] == Text(ps[i].arg.items, None)
    decreases |ps|
  {
    i := |ps| - 1;
    if !(InlineEnum(ps[i]) && g == Generated(pascal, owner, ps[i].name)) {
      i := NewTypesAreBorn(pascal, owner, ps[..i], g);
    }
  }

  /** Every type that can ever be defined: the declared ones and those inline enums can become. */
  ghost function Universe(pascal: string -> string, declared: Library): set<TypeRef> {
    declared.Keys + BornNames(pascal, declared)
  }

  // ----- walks of the worklist -----

  /** An emitted type, with the types its text mentions. */
  datatype Emitted = Emitted(ref: TypeRef, context: Context, mentions: set<TypeRef>)

  ghost function RefsOf(emitted: seq<Emitted>): set<TypeRef>
    decreases |emitted|
  {
    if emitted == [] then {} else RefsOf(emitted[..|emitted| - 1]) + {emitted[|emitted| - 1].ref}
  }

  /** The roots and everything mentioned so far. */
  ghost function Known(roots: set<TypeRef>, emitted: seq<Emitted>): set<TypeRef>
    decreases |emitted|
  {
    if emitted == [] then roots else Known(roots, emitted[..|emitted| - 1]) + emitted[|emitted| - 1].mentions
  }

  /** Processing a type may change the library for those after it. */
  ghost function LibraryAfter(pascal: string -> string, declared: Library, emitted: seq<Emitted>): Library
    decreases |emitted|
  {
    if emitted == [] then declared
    else
      var before := LibraryAfter(pascal, declared, emitted[..|emitted| - 1]);
      var step := Process(pascal, before, emitted[|emitted| - 1].ref);
      if step.Some? then step.value.library else before
  }

  /** Types processed one after the other, each known and not processed before. */
  ghost predicate IsWalk(pascal: string -> string, declared: Library, roots: set<TypeRef>, emitted: seq<Emitted>)
    decreases |emitted|
  {
    emitted == [] ||
    var before, last := emitted[..|emitted| - 1], emitted[|emitted| - 1];
    var step := Process(pascal, LibraryAfter(pascal, declared, before), last.ref);
    && IsWalk(pascal, declared, roots, before)
    && last.ref in Known(roots, before) && last.ref !in RefsOf(before)
    && step.Some? && last.context == step.value.context && last.mentions == step.value.refs
  }

  lemma OneMoreEmitted(pascal: string -> string, declared: Library, roots: set<TypeRef>, emitted: seq<Emitted>,
                       e: Emitted)
    ensures RefsOf(emitted + [e]) == RefsOf(emitted) + {e.ref}
    ensures Known(roots, emitted + [e]) == Known(roots, emitted) + e.mentions
    ensures var step := Process(pascal, LibraryAfter(pascal, declared, emitted), e.ref);
            && (step.Some? ==> LibraryAfter(pascal, declared, emitted + [e]) == step.value.library)
            && (IsWalk(pascal, declared, roots, emitted + [e]) <==>
                  && IsWalk(pascal, declared, roots, emitted)
                  && e.ref in Known(roots, emitted) && e.ref !in RefsOf(emitted)
                  && step.Some? && e.context == step.value.context && e.mentions == step.value.refs)
  {
    assert (emitted + [e])[..|emitted|] == emitted;
  }

  // ----- where definitions come from -----

  /** An inline enum with these values, in one of these types, gets this name. */
  ghost predicate BirthOf(pascal: string -> string, declared: Library, owners: set<TypeRef>, g: TypeRef,
                          items: seq<string>)
  {
    exists owner, i: nat :: owner in owners && Born(pascal, declared, g, owner, i)
                            && declared[owner].properties[i].arg.items == Some(items)
  }

  /** A definition that has not been used yet is the declared one, or the enum of a type that has been. */
  ghost predicate LibraryFits(pascal: string -> string, declared: Library, library: Library, done: set<TypeRef>) {
    && declared.Keys <= library.Keys <= Universe(pascal, declared)
    && forall r :: r in library && r !in done ==> DefinitionFits(pascal, declared, done, r, library[r])
  }

  ghost predicate DefinitionFits(pascal: string -> string, declared: Library, done: set<TypeRef>, r: TypeRef,
                                 arg: Arg)
  {
    || (r in declared && arg == declared[r])
    || (arg.Text? && arg.items.Some? && BirthOf(pascal, declared, done, r, arg.items.value))
  }

  /** Emitted as declared. */
  ghost predicate AsDeclared(pascal: string -> string, declared: Library, e: Emitted) {
    var step := Process(pascal, declared, e.ref);
    step.Some? && e.context == step.value.context && e.mentions == step.value.refs
  }

  /** Emitted as the named form of an inline enum. */
  ghost predicate AsInlineEnum(pascal: string -> string, declared: Library, done: set<TypeRef>, e: Emitted) {
    && e.mentions == {} && e.context.EnumContext? && e.context.name == e.ref.typeName
    && BirthOf(pascal, declared, done, e.ref, e.context.items)
  }

  ghost predicate EmittedFits(pascal: string -> string, declared: Library, done: set<TypeRef>, e: Emitted) {
    AsDeclared(pascal, declared, e) || AsInlineEnum(pascal, declared, done, e)
  }

  /** The inline enums of an emitted object have been given their names. */
  ghost predicate EnumsNamed(pascal: string -> string, declared: Library, library: Library, e: Emitted) {
    e.context.ObjectContext? ==> forall g, i: nat :: Born(pascal, declared, g, e.ref, i) ==> g in library
  }

  ghost predicate WalkFits(pascal: string -> string, declared: Library, emitted: seq<Emitted>) {
    var library, done := LibraryAfter(pascal, declared, emitted), RefsOf(emitted);
    && LibraryFits(pascal, declared, library, done)
    && forall e :: e in emitted ==>
         e.ref in done && EmittedFits(pascal, declared, done, e) && EnumsNamed(pascal, declared, library, e)
  }

  lemma BirthsGrow(pascal: string -> string, declared: Library, owners: set<TypeRef>, more: set<TypeRef>, g: TypeRef,
                   items: seq<string>)
    requires BirthOf(pascal, declared, owners, g, items) && owners <= more
    ensures BirthOf(pascal, declared, more, g, items)
  {
    var owner, i: nat :| owner in owners && Born(pascal, declared, g, owner, i)
      && declared[owner].properties[i].arg.items == Some(items);
    assert owner in more;
  }

  /** What processing gives depends on the type's own definition only. */
  lemma ProcessIsLocal(pascal: string -> string, a: Library, b: Library, t: TypeRef)
    requires t in a && t in b && a[t] == b[t]
    ensures Process(pascal, a, t).Some? <==> Process(pascal, b, t).Some?
    ensures Process(pascal, a, t).Some? ==>
              && Process(pascal, a, t).value.context == Process(pascal, b, t).value.context
              && Process(pascal, a, t).value.refs == Process(pascal, b, t).value.refs
  {
  }

  lemma ProcessEnum(pascal: string -> string, library: Library, t: TypeRef, items: seq<string>)
    requires t in library && library[t].Text? && library[t].items == Some(items)
    ensures Process(pascal, library, t) == Some(Step(EnumContext(t.typeName, items), {}, library))
  {
  }

  lemma NewTypeIsBirth(pascal: string -> string, declared: Library, owner: TypeRef, g: TypeRef)
    requires owner in declared && declared[owner].Fields?
    requires g in NewTypes(pascal, owner, declared[owner].properties)
    ensures var arg := NewTypes(pascal, owner, declared[owner].properties)[g];
            && arg.Text? && arg.items.Some? && BirthOf(pascal, declared, {owner}, g, arg.items.value)
            && g in BornNames(pascal, declared)
  {
    var i := NewTypesAreBorn(pascal, owner, declared[owner].properties, g);
    assert Born(pascal, declared, g, owner, i);
    BornNamesContents(pascal, declared, g);
  }

  lemma {:induction false} InlineEnumIsNamed(pascal: string -> string, owner: TypeRef, ps: seq<Property>, i: nat)
    requires i < |ps| && InlineEnum(ps[i])
    ensures Generated(pascal, owner, ps[i].name) in NewTypes(pascal, owner, ps)
    decreases |ps|
  {
    if i < |ps| - 1 { InlineEnumIsNamed(pascal, owner, ps[..|ps| - 1], i); }
  }

  /** Processing a type that still has its declared definition. */
  lemma DeclaredStepFits(pascal: string -> string, declared: Library, library: Library, done: set<TypeRef>, t: TypeRef)
    requires LibraryFits(pascal, declared, library, done) && t !in done
    requires t in declared && t in library && library[t] == declared[t]
    requires Process(pascal, library, t).Some?
    ensures var step := Process(pascal, library, t).value;
            && AsDeclared(pascal, declared, Emitted(t, step.context, step.refs))
            && LibraryFits(pascal, declared, step.library, done + {t})
            && library.Keys <= step.library.Keys
            && EnumsNamed(pascal, declared, step.library, Emitted(t, step.context, step.refs))
  {
    ProcessIsLocal(pascal, library, declared, t);
    var step := Process(pascal, library, t).value;
    if library[t].Fields? {
      var ps := declared[t].properties;
      var added := NewTypes(pascal, t, ps);
      forall g | g in added
        ensures DefinitionFits(pascal, declared, done + {t}, g, added[g]) && g in BornNames(pascal, declared)
      {
        NewTypeIsBirth(pascal, declared, t, g);
        BirthsGrow(pascal, declared, {t}, done + {t}, g, added[g].items.value);
      }
      forall g, i: nat | Born(pascal, declared, g, t, i) ensures g in step.library {
        InlineEnumIsNamed(pascal, t, ps, i);
      }
      hide NewTypes, AllInlined, FieldsOf, Born, BornNames, BirthOf;
      forall r | r in step.library && r !in done + {t}
        ensures DefinitionFits(pascal, declared, done + {t}, r, step.library[r])
      {
        if r !in added { DefinitionStillFits(pascal, declared, done, done + {t}, r, library[r]); }
      }
    } else {
      forall r | r in library && r !in done + {t} ensures DefinitionFits(pascal, declared, done + {t}, r, library[r]) {
        DefinitionStillFits(pascal, declared, done, done + {t}, r, library[r]);
      }
    }
  }

  lemma DefinitionStillFits(pascal: string -> string, declared: Library, done: set<TypeRef>, more: set<TypeRef>,
                            r: TypeRef, arg: Arg)
    requires DefinitionFits(pascal, declared, done, r, arg) && done <= more
    ensures DefinitionFits(pascal, declared, more, r, arg)
  {
    if !(r in declared && arg == declared[r]) {
      BirthsGrow(pascal, declared, done, more, r, arg.items.value);
    }
  }

  /** Processing a name that stands for an inline enum. */
  lemma EnumStepFits(pascal: string -> string, declared: Library, library: Library, done: set<TypeRef>, t: TypeRef)
    requires LibraryFits(pascal, declared, library, done) && t !in done
    requires t in library && library[t].Text? && library[t].items.Some?
    requires BirthOf(pascal, declared, done, t, library[t].items.value)
    requires Process(pascal, library, t).Some?
    ensures var step := Process(pascal, library, t).value;
            && AsInlineEnum(pascal, declared, done + {t}, Emitted(t, step.context, step.refs))
            && LibraryFits(pascal, declared, step.library, done + {t})
            && step.library == library
            && EnumsNamed(pascal, declared, step.library, Emitted(t, step.context, step.refs))
  {
    ProcessEnum(pascal, library, t, library[t].items.value);
    BirthsGrow(pascal, declared, done, done + {t}, t, library[t].items.value);
    forall r | r in library && r !in done + {t} ensures DefinitionFits(pascal, declared, done + {t}, r, library[r]) {
      DefinitionStillFits(pascal, declared, done, done + {t}, r, library[r]);
    }
  }

  lemma StepFits(pascal: string -> string, declared: Library, library: Library, done: set<TypeRef>, t: TypeRef)
    requires LibraryFits(pascal, declared, library, done) && t !in done
    requires Process(pascal, library, t).Some?
    ensures var step := Process(pascal, library, t).value;
            var e := Emitted(t, step.context, step.refs);
            && t in Universe(pascal, declared)
            && LibraryFits(pascal, declared, step.library, done + {t}) && library.Keys <= step.library.Keys
            && EmittedFits(pascal, declared, done + {t}, e) && EnumsNamed(pascal, declared, step.library, e)
  {
    hide BirthOf, AsDeclared, AsInlineEnum, EnumsNamed, Universe, FieldsOf, NewTypes, AllInlined;
    assert DefinitionFits(pascal, declared, done, t, library[t]);
    if t in declared && library[t] == declared[t] {
      DeclaredStepFits(pascal, declared, library, done, t);
    } else {
      EnumStepFits(pascal, declared, library, done, t);
    }
  }

  lemma EmittedStillFits(pascal: string -> string, declared: Library, done: set<TypeRef>, more: set<TypeRef>,
                         e: Emitted)
    requires EmittedFits(pascal, declared, done, e) && done <= more
    ensures EmittedFits(pascal, declared, more, e)
  {
    if !AsDeclared(pascal, declared, e) { BirthsGrow(pascal, declared, done, more, e.ref, e.context.items); }
  }

  /** On every walk, whatever names collide: each emitted type is as declared or the named form of an inline enum of
      an emitted type. */
  lemma {:induction false} EveryWalkFits(pascal: string -> string, declared: Library, roots: set<TypeRef>,
                                         emitted: seq<Emitted>)
    requires IsWalk(pascal, declared, roots, emitted)
    ensures WalkFits(pascal, declared, emitted)
    ensures RefsOf(emitted) <= Universe(pascal, declared)
    decreases |emitted|
  {
    hide *;
    if emitted == [] {
      EmptyWalkFits(pascal, declared);
    } else {
      var before, last := emitted[..|emitted| - 1], emitted[|emitted| - 1];
      assert emitted == before + [last];
      OneMoreEmitted(pascal, declared, roots, before, last);
      EveryWalkFits(pascal, declared, roots, before);
      OneMoreWalkFits(pascal, declared, roots, before, last);
    }
  }

  lemma EmptyWalkFits(pascal: string -> string, declared: Library)
    ensures WalkFits(pascal, declared, []) && RefsOf([]) <= Universe(pascal, declared)
  {
  }

  lemma OneMoreWalkFits(pascal: string -> string, declared: Library, roots: set<TypeRef>, before: seq<Emitted>,
                        last: Emitted)
    requires WalkFits(pascal, declared, before) && RefsOf(before) <= Universe(pascal, declared)
    requires IsWalk(pascal, declared, roots, before + [last])
    ensures WalkFits(pascal, declared, before + [last])
    ensures RefsOf(before + [last]) <= Universe(pascal, declared)
  {
    OneMoreEmitted(pascal, declared, roots, before, last);
    hide LibraryFits, EmittedFits, EnumsNamed, Process, Universe, IsWalk, LibraryAfter, RefsOf, Known;
    var library := LibraryAfter(pascal, declared, before);
    StepFits(pascal, declared, library, RefsOf(before), last.ref);
    OneMoreFits(pascal, declared, before, last, Process(pascal, library, last.ref).value.library);
  }

  lemma OneMoreFits(pascal: string -> string, declared: Library, before: seq<Emitted>, last: Emitted, after: Library)
    requires WalkFits(pascal, declared, before)
    requires LibraryAfter(pascal, declared, before).Keys <= after.Keys
    requires EmittedFits(pascal, declared, RefsOf(before) + {last.ref}, last)
    requires EnumsNamed(pascal, declared, after, last)
    ensures forall e :: e in before + [last] ==>
              && e.ref in RefsOf(before) + {last.ref} && EmittedFits(pascal, declared, RefsOf(before) + {last.ref}, e)
              && EnumsNamed(pascal, declared, after, e)
  {
    hide EmittedFits, EnumsNamed, LibraryFits, LibraryAfter, RefsOf;
    forall e | e in before + [last]
      ensures e.ref in RefsOf(before) + {last.ref} && EmittedFits(pascal, declared, RefsOf(before) + {last.ref}, e)
      ensures EnumsNamed(pascal, declared, after, e)
    {
      if e in before {
        EmittedStillFits(pascal, declared, RefsOf(before), RefsOf(before) + {last.ref}, e);
        NamedStays(pascal, declared, LibraryAfter(pascal, declared, before), after, e);
      }
    }
  }

  lemma NamedStays(pascal: string -> string, declared: Library, library: Library, more: Library, e: Emitted)
    requires EnumsNamed(pascal, declared, library, e) && library.Keys <= more.Keys
    ensures EnumsNamed(pascal, declared, more, e)
  {
  }

  // ----- reachable types -----

  /** The declared type is an object with a property that refers to the other type. */
  ghost predicate Mentions(pascal: string -> string, declared: Library, owner: TypeRef, t: TypeRef) {
    owner in declared && declared[owner].Fields? && SomeRefers(pascal, owner, declared[owner].properties, t)
  }

  lemma ProcessedMentions(pascal: string -> string, declared: Library, owner: TypeRef, t: TypeRef)
    requires Process(pascal, declared, owner).Some?
    ensures t in Process(pascal, declared, owner).value.refs <==> Mentions(pascal, declared, owner, t)
  {
    hide FieldsOf, SomeRefers, AllNameable;
    if declared[owner].Fields? { FieldsFollowProperties(pascal, owner, declared[owner].properties, t); }
  }

  /** A chain of mentions from a root. */
  ghost predicate Chain(pascal: string -> string, declared: Library, roots: set<TypeRef>, p: seq<TypeRef>) {
    && p != [] && p[0] in roots
    && forall i :: 0 < i < |p| ==> Mentions(pascal, declared, p[i - 1], p[i])
  }

  ghost predicate Reachable(pascal: string -> string, declared: Library, roots: set<TypeRef>, t: TypeRef) {
    exists p :: Chain(pascal, declared, roots, p) && p[|p| - 1] == t
  }

  lemma RootIsReachable(pascal: string -> string, declared: Library, roots: set<TypeRef>, t: TypeRef)
    requires t in roots
    ensures Reachable(pascal, declared, roots, t)
  {
    assert Chain(pascal, declared, roots, [t]);
  }

  lemma ReachOneMore(pascal: string -> string, declared: Library, roots: set<TypeRef>, t: TypeRef, next: TypeRef)
    requires Reachable(pascal, declared, roots, t)
    requires Mentions(pascal, declared, t, next)
    ensures Reachable(pascal, declared, roots, next)
  {
    hide Mentions;
    var p :| Chain(pascal, declared, roots, p) && p[|p| - 1] == t;
    assert Chain(pascal, declared, roots, p + [next]);
  }

  lemma {:induction false} ClosedHoldsChains(pascal: string -> string, declared: Library, roots: set<TypeRef>,
                                             s: set<TypeRef>, p: seq<TypeRef>)
    requires roots <= s
    requires forall t, u :: t in s && Mentions(pascal, declared, t, u) ==> u in s
    requires Chain(pascal, declared, roots, p)
    ensures p[|p| - 1] in s
    decreases |p|
  {
    hide Mentions;
    if |p| > 1 {
      var q := p[..|p| - 1];
      ClosedHoldsChains(pascal, declared, roots, s, q);
      assert Mentions(pascal, declared, q[|q| - 1], p[|p| - 1]);
    }
  }

  lemma EmittedMentionsDeclared(pascal: string -> string, declared: Library, done: set<TypeRef>, e: Emitted, t: TypeRef)
    requires EmittedFits(pascal, declared, done, e) && t in e.mentions
    ensures Mentions(pascal, declared, e.ref, t)
  {
    ProcessedMentions(pascal, declared, e.ref, t);
  }

  /** No walk ever comes across a type that cannot be reached. */
  lemma {:induction false} KnownAreReachable(pascal: string -> string, declared: Library, roots: set<TypeRef>,
                                             emitted: seq<Emitted>, t: TypeRef)
    requires IsWalk(pascal, declared, roots, emitted)
    requires t in Known(roots, emitted)
    ensures Reachable(pascal, declared, roots, t)
    decreases |emitted|
  {
    hide Reachable, Mentions, Process, LibraryFits, EmittedFits, EnumsNamed;
    if emitted == [] {
      RootIsReachable(pascal, declared, roots, t);
    } else {
      var before, last := emitted[..|emitted| - 1], emitted[|emitted| - 1];
      if t in Known(roots, before) {
        KnownAreReachable(pascal, declared, roots, before, t);
      } else {
        KnownAreReachable(pascal, declared, roots, before, last.ref);
        EveryWalkFits(pascal, declared, roots, emitted);
        assert last in emitted;
        EmittedMentionsDeclared(pascal, declared, RefsOf(emitted), last, t);
        ReachOneMore(pascal, declared, roots, last.ref, t);
      }
    }
  }

  // ----- when a walk emits what it should -----

  /** Everything known has been emitted. */
  ghost predicate IsComplete(roots: set<TypeRef>, emitted: seq<Emitted>) {
    Known(roots, emitted) == RefsOf(emitted)
  }

  ghost predicate EnumEmitted(emitted: seq<Emitted>, g: TypeRef, items: seq<string>) {
    exists e :: e in emitted && e.ref == g && e.context == EnumContext(g.typeName, items)
  }

  /** The reachable types and no others, the declared ones as declared, and every inline enum of an emitted type
      under its generated name with its own values. */
  ghost predicate Exact(pascal: string -> string, declared: Library, roots: set<TypeRef>, emitted: seq<Emitted>) {
    && (forall t :: t in RefsOf(emitted) <==> Reachable(pascal, declared, roots, t))
    && (forall e :: e in emitted && e.ref in declared ==> AsDeclared(pascal, declared, e))
    && (forall g, r, i: nat :: Born(pascal, declared, g, r, i) && r in RefsOf(emitted) ==>
          EnumEmitted(emitted, g, declared[r].properties[i].arg.items.value))
  }

  ghost predicate SameItems(declared: Library, r: TypeRef, i: nat, s: TypeRef, j: nat)
    requires r in declared && declared[r].Fields? && i < |declared[r].properties|
    requires s in declared && declared[s].Fields? && j < |declared[s].properties|
    requires InlineEnum(declared[r].properties[i]) && InlineEnum(declared[s].properties[j])
  {
    declared[r].properties[i].arg.items == declared[s].properties[j].arg.items
  }

  ghost predicate IsEnumOf(arg: Arg, items: Option<seq<string>>) {
    arg.Text? && arg.items == items
  }

  /** A declared type of the generated name is an enum with the same values, and so is every other inline enum of a
      reachable type that gets the name. */
  ghost predicate StandsForOne(pascal: string -> string, declared: Library, roots: set<TypeRef>, g: TypeRef,
                               r: TypeRef, i: nat)
    requires Born(pascal, declared, g, r, i)
  {
    && (g in declared ==> IsEnumOf(declared[g], declared[r].properties[i].arg.items))
    && (forall s, j: nat :: Born(pascal, declared, g, s, j) && Reachable(pascal, declared, roots, s) ==>
          SameItems(declared, r, i, s, j))
  }

  /** Among the reachable types, no generated name stands for two definitions. */
  ghost predicate NoClash(pascal: string -> string, declared: Library, roots: set<TypeRef>) {
    forall g, r, i: nat :: Born(pascal, declared, g, r, i) && Reachable(pascal, declared, roots, r) ==>
      StandsForOne(pascal, declared, roots, g, r, i)
  }

  lemma {:induction false} EmittedIsUnique(pascal: string -> string, declared: Library, roots: set<TypeRef>,
                                           emitted: seq<Emitted>, d: Emitted, e: Emitted)
    requires IsWalk(pascal, declared, roots, emitted)
    requires d in emitted && e in emitted && d.ref == e.ref
    ensures d == e
    decreases |emitted|
  {
    hide Process, LibraryAfter;
    var before, last := emitted[..|emitted| - 1], emitted[|emitted| - 1];
    assert emitted == before + [last];
    if d in before { EmittedIsDone(before, d); }
    if e in before { EmittedIsDone(before, e); }
    if d in before && e in before { EmittedIsUnique(pascal, declared, roots, before, d, e); }
  }

  lemma {:induction false} EmittedIsDone(emitted: seq<Emitted>, e: Emitted)
    requires e in emitted
    ensures e.ref in RefsOf(emitted)
    decreases |emitted|
  {
    var before, last := emitted[..|emitted| - 1], emitted[|emitted| - 1];
    assert emitted == before + [last];
    if e in before { EmittedIsDone(before, e); }
  }

  lemma {:induction false} DoneIsEmitted(emitted: seq<Emitted>, t: TypeRef) returns (e: Emitted)
    requires t in RefsOf(emitted)
    ensures e in emitted && e.ref == t
    decreases |emitted|
  {
    var before, last := emitted[..|emitted| - 1], emitted[|emitted| - 1];
    assert emitted == before + [last];
    if last.ref == t { e := last; } else { e := DoneIsEmitted(before, t); }
  }

  lemma {:induction false} MentionsAreKnown(roots: set<TypeRef>, emitted: seq<Emitted>, e: Emitted)
    requires e in emitted
    ensures roots <= Known(roots, emitted) && e.mentions <= Known(roots, emitted)
    decreases |emitted|
  {
    var before, last := emitted[..|emitted| - 1], emitted[|emitted| - 1];
    assert emitted == before + [last];
    RootsAreKnown(roots, emitted);
    if e in before { MentionsAreKnown(roots, before, e); }
  }

  lemma {:induction false} RootsAreKnown(roots: set<TypeRef>, emitted: seq<Emitted>)
    ensures roots <= Known(roots, emitted)
    decreases |emitted|
  {
    if emitted != [] { RootsAreKnown(roots, emitted[..|emitted| - 1]); }
  }

  /** An exact walk leaves no room for a clash. */
  lemma ExactMeansNoClash(pascal: string -> string, declared: Library, roots: set<TypeRef>, emitted: seq<Emitted>)
    requires IsWalk(pascal, declared, roots, emitted) && Exact(pascal, declared, roots, emitted)
    ensures NoClash(pascal, declared, roots)
  {
    hide IsWalk, Exact, Reachable, Born, StandsForOne;
    forall g, r, i: nat | Born(pascal, declared, g, r, i) && Reachable(pascal, declared, roots, r)
      ensures StandsForOne(pascal, declared, roots, g, r, i)
    {
      ExactMeansNoClashAt(pascal, declared, roots, emitted, g, r, i);
    }
  }

  lemma ExactMeansNoClashAt(pascal: string -> string, declared: Library, roots: set<TypeRef>, emitted: seq<Emitted>,
                            g: TypeRef, r: TypeRef, i: nat)
    requires IsWalk(pascal, declared, roots, emitted) && Exact(pascal, declared, roots, emitted)
    requires Born(pascal, declared, g, r, i) && Reachable(pascal, declared, roots, r)
    ensures StandsForOne(pascal, declared, roots, g, r, i)
  {
    hide IsWalk, Reachable, FieldsOf, NewTypes, AllInlined, Generated;
    var items := declared[r].properties[i].arg.items.value;
    assert EnumEmitted(emitted, g, items);
    var e :| e in emitted && e.ref == g && e.context == EnumContext(g.typeName, items);
    if g in declared { assert AsDeclared(pascal, declared, e); }
    forall s, j: nat | Born(pascal, declared, g, s, j) && Reachable(pascal, declared, roots, s)
      ensures SameItems(declared, r, i, s, j)
    {
      var others := declared[s].properties[j].arg.items.value;
      assert EnumEmitted(emitted, g, others);
      var d :| d in emitted && d.ref == g && d.context == EnumContext(g.typeName, others);
      EmittedIsUnique(pascal, declared, roots, emitted, d, e);
    }
  }

  // ----- references are printable -----

  ghost predicate AllPrintable(refs: set<TypeRef>) {
    forall t :: t in refs ==> Printable(t)
  }

  lemma {:induction false} NamedTypesArePrintable(arg: Arg)
    ensures AsTypeName(arg).Some? ==> AllPrintable(AsTypeName(arg).value.refs)
  {
    match arg
    case Text(_, Some(reference)) => ReadIsPrintable(reference);
    case Fields(Some(reference), _) => ReadIsPrintable(reference);
    case List(Some(element)) => NamedTypesArePrintable(element);
    case _ =>
  }

  lemma {:induction false} FieldRefsArePrintable(pascal: string -> string, owner: TypeRef, ps: seq<Property>)
    ensures FieldsOf(pascal, owner, ps).Some? ==> AllPrintable(FieldsOf(pascal, owner, ps).value.refs)
    decreases |ps|
  {
    if ps != [] {
      hide AsTypeName, Printable;
      FieldRefsArePrintable(pascal, owner, ps[..|ps| - 1]);
      NamedTypesArePrintable(Inlined(pascal, owner, ps[|ps| - 1]).arg);
    }
  }

  lemma {:induction false} KnownArePrintable(pascal: string -> string, declared: Library, roots: set<TypeRef>,
                                             emitted: seq<Emitted>)
    requires IsWalk(pascal, declared, roots, emitted) && AllPrintable(roots)
    ensures AllPrintable(Known(roots, emitted))
    decreases |emitted|
  {
    if emitted != [] {
      var before, last := emitted[..|emitted| - 1], emitted[|emitted| - 1];
      KnownArePrintable(pascal, declared, roots, before);
      var library := LibraryAfter(pascal, declared, before);
      hide Printable, LibraryAfter, FieldsOf;
      if library[last.ref].Fields? {
        FieldRefsArePrintable(pascal, last.ref, library[last.ref].properties);
      }
    }
  }

  /** A printed type mentions the enums made of its inline ones. */
  lemma {:induction false} OwnEnumIsMentioned(pascal: string -> string, owner: TypeRef, ps: seq<Property>, i: nat)
    requires Printable(owner) && i < |ps| && InlineEnum(ps[i])
    requires FieldsOf(pascal, owner, ps).Some?
    ensures Generated(pascal, owner, ps[i].name) in FieldsOf(pascal, owner, ps).value.refs
    decreases |ps|
  {
    hide Printable, Printed, FromReference;
    if i < |ps| - 1 {
      OwnEnumIsMentioned(pascal, owner, ps[..|ps| - 1], i);
    } else {
      var g := Generated(pascal, owner, ps[i].name);
      GeneratedReadsBackOrFails(owner, g.typeName);
      assert Inlined(pascal, owner, ps[i]).arg == Text(ps[i].arg.items, Some(Printed(g)));
      assert AsTypeName(Inlined(pascal, owner, ps[i]).arg) == NameOfReference(Printed(g));
    }
  }

  // ----- without a clash every complete walk is exact -----

  lemma DeclaredIsEmittedAsDeclared(pascal: string -> string, declared: Library, roots: set<TypeRef>,
                                    emitted: seq<Emitted>, e: Emitted)
    requires IsWalk(pascal, declared, roots, emitted) && IsComplete(roots, emitted)
    requires NoClash(pascal, declared, roots)
    requires e in emitted && e.ref in declared
    ensures AsDeclared(pascal, declared, e)
  {
    hide IsWalk, Reachable, FieldsOf, NewTypes, AllInlined, LibraryFits, EnumsNamed, Known, RefsOf, Generated;
    EveryWalkFits(pascal, declared, roots, emitted);
    assert EmittedFits(pascal, declared, RefsOf(emitted), e);
    if !AsDeclared(pascal, declared, e) {
      var owner, i: nat :| owner in RefsOf(emitted) && Born(pascal, declared, e.ref, owner, i)
        && declared[owner].properties[i].arg.items == Some(e.context.items);
      KnownAreReachable(pascal, declared, roots, emitted, owner);
      assert StandsForOne(pascal, declared, roots, e.ref, owner, i);
      ProcessEnum(pascal, declared, e.ref, e.context.items);
    }
  }

  lemma InlineEnumIsEmitted(pascal: string -> string, declared: Library, roots: set<TypeRef>, emitted: seq<Emitted>,
                            g: TypeRef, r: TypeRef, i: nat)
    requires IsWalk(pascal, declared, roots, emitted) && IsComplete(roots, emitted)
    requires AllPrintable(roots) && NoClash(pascal, declared, roots)
    requires Born(pascal, declared, g, r, i) && r in RefsOf(emitted)
    ensures EnumEmitted(emitted, g, declared[r].properties[i].arg.items.value)
  {
    hide IsWalk, Reachable, FieldsOf, NewTypes, AllInlined, LibraryFits, EnumsNamed, Known, RefsOf, Printable;
    var items := declared[r].properties[i].arg.items.value;
    var owner := DoneIsEmitted(emitted, r);
    DeclaredIsEmittedAsDeclared(pascal, declared, roots, emitted, owner);
    KnownArePrintable(pascal, declared, roots, emitted);
    OwnEnumIsMentioned(pascal, r, declared[r].properties, i);
    MentionsAreKnown(roots, emitted, owner);
    var e := DoneIsEmitted(emitted, g);
    EveryWalkFits(pascal, declared, roots, emitted);
    assert EmittedFits(pascal, declared, RefsOf(emitted), e);
    KnownAreReachable(pascal, declared, roots, emitted, r);
    assert StandsForOne(pascal, declared, roots, g, r, i);
    if AsDeclared(pascal, declared, e) {
      assert g in declared;
      ProcessEnum(pascal, declared, g, items);
    } else {
      var s, j: nat :| s in RefsOf(emitted) && Born(pascal, declared, g, s, j)
        && declared[s].properties[j].arg.items == Some(e.context.items);
      KnownAreReachable(pascal, declared, roots, emitted, s);
      assert SameItems(declared, r, i, s, j);
    }
  }

  lemma ReachableAreEmitted(pascal: string -> string, declared: Library, roots: set<TypeRef>, emitted: seq<Emitted>,
                            t: TypeRef)
    requires IsWalk(pascal, declared, roots, emitted) && IsComplete(roots, emitted)
    requires NoClash(pascal, declared, roots)
    ensures t in RefsOf(emitted) <==> Reachable(pascal, declared, roots, t)
  {
    hide IsWalk, Known, RefsOf, NoClash, Process;
    if t in RefsOf(emitted) { KnownAreReachable(pascal, declared, roots, emitted, t); }
    RootsAreKnown(roots, emitted);
    forall x, u | x in RefsOf(emitted) && Mentions(pascal, declared, x, u) ensures u in RefsOf(emitted) {
      MentionsAreEmitted(pascal, declared, roots, emitted, x, u);
    }
    if Reachable(pascal, declared, roots, t) {
      var p :| Chain(pascal, declared, roots, p) && p[|p| - 1] == t;
      ClosedHoldsChains(pascal, declared, roots, RefsOf(emitted), p);
    }
  }

  lemma MentionsAreEmitted(pascal: string -> string, declared: Library, roots: set<TypeRef>, emitted: seq<Emitted>,
                           t: TypeRef, u: TypeRef)
    requires IsWalk(pascal, declared, roots, emitted) && IsComplete(roots, emitted)
    requires NoClash(pascal, declared, roots)
    requires t in RefsOf(emitted) && Mentions(pascal, declared, t, u)
    ensures u in RefsOf(emitted)
  {
    hide IsWalk, Known, RefsOf, NoClash, FieldsOf, NewTypes, AllInlined, SomeRefers;
    var e := DoneIsEmitted(emitted, t);
    DeclaredIsEmittedAsDeclared(pascal, declared, roots, emitted, e);
    ProcessedMentions(pascal, declared, t, u);
    MentionsAreKnown(roots, emitted, e);
  }

  /** A complete walk emits exactly what it should if and only if, among the reachable types, no generated name stands
      for two definitions. */
  lemma WalkIsExactIffNoClash(pascal: string -> string, declared: Library, roots: set<TypeRef>, emitted: seq<Emitted>)
    requires AllPrintable(roots)
    requires IsWalk(pascal, declared, roots, emitted) && IsComplete(roots, emitted)
    ensures Exact(pascal, declared, roots, emitted) <==> NoClash(pascal, declared, roots)
  {
    hide IsWalk, IsComplete, NoClash, Reachable, AsDeclared, EnumEmitted, RefsOf, Printable, Known;
    if Exact(pascal, declared, roots, emitted) {
      ExactMeansNoClash(pascal, declared, roots, emitted);
    }
    if NoClash(pascal, declared, roots) {
      forall t ensures t in RefsOf(emitted) <==> Reachable(pascal, declared, roots, t) {
        ReachableAreEmitted(pascal, declared, roots, emitted, t);
      }
      forall e | e in emitted && e.ref in declared ensures AsDeclared(pascal, declared, e) {
        DeclaredIsEmittedAsDeclared(pascal, declared, roots, emitted, e);
      }
      forall g, r, i: nat | Born(pascal, declared, g, r, i) && r in RefsOf(emitted)
        ensures EnumEmitted(emitted, g, declared[r].properties[i].arg.items.value)
      {
        InlineEnumIsEmitted(pascal, declared, roots, emitted, g, r, i);
      }
    }
  }

  // ----- when a walk cannot go on -----

  ghost predicate IsStuck(pascal: string -> string, declared: Library, roots: set<TypeRef>, emitted: seq<Emitted>,
                          t: TypeRef)
  {
    && IsWalk(pascal, declared, roots, emitted)
    && t in Known(roots, emitted) && t !in RefsOf(emitted)
    && Process(pascal, LibraryAfter(pascal, declared, emitted), t) == None
  }

  ghost predicate Owns(pascal: string -> string, declared: Library, r: TypeRef, g: TypeRef) {
    exists i: nat :: Born(pascal, declared, g, r, i)
  }

  /** Someone other than the owner of an inline enum refers to this name. */
  ghost predicate AskedByStranger(pascal: string -> string, declared: Library, roots: set<TypeRef>, t: TypeRef) {
    || t in roots
    || exists r :: Reachable(pascal, declared, roots, r) && Mentions(pascal, declared, r, t)
                   && !Owns(pascal, declared, r, t)
  }

  lemma {:induction false} KnownFrom(roots: set<TypeRef>, emitted: seq<Emitted>, t: TypeRef)
    returns (e: Option<Emitted>)
    requires t in Known(roots, emitted)
    ensures if e == None then t in roots else e.value in emitted && t in e.value.mentions
    decreases |emitted|
  {
    if t in roots {
      e := None;
    } else {
      var before, last := emitted[..|emitted| - 1], emitted[|emitted| - 1];
      assert emitted == before + [last];
      if t in last.mentions { e := Some(last); } else { e := KnownFrom(roots, before, t); }
    }
  }

  /** A walk gets stuck only on a reachable type: a declared one that cannot be processed as declared, or one that is
      not declared and that someone other than the owner of an inline enum refers to. */
  lemma StuckOnABadReference(pascal: string -> string, declared: Library, roots: set<TypeRef>, emitted: seq<Emitted>,
                             t: TypeRef)
    requires IsStuck(pascal, declared, roots, emitted, t)
    ensures Reachable(pascal, declared, roots, t)
    ensures if t in declared then Process(pascal, declared, t) == None
            else AskedByStranger(pascal, declared, roots, t)
  {
    hide IsWalk, Reachable, FieldsOf, NewTypes, AllInlined, Known, RefsOf, LibraryAfter, Universe;
    KnownAreReachable(pascal, declared, roots, emitted, t);
    EveryWalkFits(pascal, declared, roots, emitted);
    var library, done := LibraryAfter(pascal, declared, emitted), RefsOf(emitted);
    if t in library {
      assert DefinitionFits(pascal, declared, done, t, library[t]);
      if t in declared && library[t] == declared[t] {
        ProcessIsLocal(pascal, library, declared, t);
      } else {
        ProcessEnum(pascal, library, t, library[t].items.value);
      }
    } else {
      var from := KnownFrom(roots, emitted, t);
      if from.Some? {
        MentionerIsStranger(pascal, declared, roots, emitted, from.value, t);
      }
    }
  }

  lemma MentionerIsStranger(pascal: string -> string, declared: Library, roots: set<TypeRef>, emitted: seq<Emitted>,
                            e: Emitted, t: TypeRef)
    requires IsWalk(pascal, declared, roots, emitted) && WalkFits(pascal, declared, emitted)
    requires e in emitted && t in e.mentions && t !in LibraryAfter(pascal, declared, emitted)
    ensures AskedByStranger(pascal, declared, roots, t)
  {
    hide IsWalk, Reachable, FieldsOf, NewTypes, AllInlined, LibraryAfter, LibraryFits;
    assert EmittedFits(pascal, declared, RefsOf(emitted), e);
    assert EnumsNamed(pascal, declared, LibraryAfter(pascal, declared, emitted), e);
    EmittedMentionsDeclared(pascal, declared, RefsOf(emitted), e, t);
    assert e.context.ObjectContext?;
    EmittedIsReachable(pascal, declared, roots, emitted, e);
  }

  lemma {:induction false} EmittedIsReachable(pascal: string -> string, declared: Library, roots: set<TypeRef>,
                                              emitted: seq<Emitted>, e: Emitted)
    requires IsWalk(pascal, declared, roots, emitted) && e in emitted
    ensures Reachable(pascal, declared, roots, e.ref)
    decreases |emitted|
  {
    hide Process, LibraryAfter, Reachable;
    var before, last := emitted[..|emitted| - 1], emitted[|emitted| - 1];
    assert emitted == before + [last];
    if e in before {
      EmittedIsReachable(pascal, declared, roots, before, e);
    } else {
      KnownAreReachable(pascal, declared, roots, before, last.ref);
    }
  }

  // ----- the worklist -----

  /** What is left of one pass over the known types. */
  datatype Round = Round(library: Library, emitted: seq<Emitted>, mentioned: set<TypeRef>)

  ghost predicate RoundFits(pascal: string -> string, declared: Library, roots: set<TypeRef>, typeRefs: set<TypeRef>,
                            round: Round)
  {
    && IsWalk(pascal, declared, roots, round.emitted)
    && round.library == LibraryAfter(pascal, declared, round.emitted)
    && Known(roots, round.emitted) == typeRefs + round.mentioned
  }

  ghost predicate GetsStuck(pascal: string -> string, declared: Library, roots: set<TypeRef>) {
    exists emitted, t :: IsStuck(pascal, declared, roots, emitted, t)
  }

  /** One type of the worklist. */
  method EmitType(pascal: string -> string, ghost declared: Library, ghost roots: set<TypeRef>, round: Round,
                  ghost typeRefs: set<TypeRef>, t: TypeRef)
    returns (next: Option<Round>)
    requires RoundFits(pascal, declared, roots, typeRefs, round)
    requires t in typeRefs && t !in RefsOf(round.emitted)
    ensures next.Some? ==>
              && RoundFits(pascal, declared, roots, typeRefs, next.value)
              && RefsOf(next.value.emitted) == RefsOf(round.emitted) + {t}
    ensures next == None ==> GetsStuck(pascal, declared, roots)
  {
    hide Process, IsWalk, LibraryAfter, Known, RefsOf;
    var step := TypeContextFromRef(pascal, round.library, t);
    if step == None {
      assert IsStuck(pascal, declared, roots, round.emitted, t);
      return None;
    }
    var e := Emitted(t, step.value.context, step.value.refs);
    OneMoreEmitted(pascal, declared, roots, round.emitted, e);
    assert (typeRefs + round.mentioned) + e.mentions == typeRefs + (round.mentioned + e.mentions);
    return Some(Round(step.value.library, round.emitted + [e], round.mentioned + e.mentions));
  }

  lemma OneDone<T>(typeRefs: set<T>, done: set<T>, rest: set<T>, t: T)
    requires rest <= typeRefs && done <= typeRefs <= done + rest && t in rest
    ensures rest - {t} <= typeRefs && done + {t} <= typeRefs <= (done + {t}) + (rest - {t})
    ensures t in done ==> done + {t} == done
    ensures |rest - {t}| < |rest|
  {
  }

  /** One pass over the known types, emitting those not done yet. */
  method WalkRound(pascal: string -> string, ghost declared: Library, ghost roots: set<TypeRef>, before: Round,
                   doneBefore: set<TypeRef>, typeRefs: set<TypeRef>)
    returns (result: Option<Round>)
    requires RoundFits(pascal, declared, roots, typeRefs, before)
    requires doneBefore == RefsOf(before.emitted) <= typeRefs
    ensures result.Some? ==>
              && RoundFits(pascal, declared, roots, typeRefs, result.value)
              && RefsOf(result.value.emitted) == typeRefs
    ensures result == None ==> GetsStuck(pascal, declared, roots)
  {
    hide RoundFits, GetsStuck, RefsOf;
    var round, done, rest := before, doneBefore, typeRefs;
    while rest != {}
      invariant rest <= typeRefs && done <= typeRefs <= done + rest
      invariant done == RefsOf(round.emitted)
      invariant RoundFits(pascal, declared, roots, typeRefs, round)
      decreases |rest|
    {
      var t :| t in rest;
      OneDone(typeRefs, done, rest, t);
      rest := rest - {t};
      if t in done {
        continue;
      }
      var next := EmitType(pascal, declared, roots, round, typeRefs, t);
      if next == None {
        return None;
      }
      round, done := next.value, done + {t};
    }
    return Some(round);
  }

  lemma NextRoundFits(pascal: string -> string, declared: Library, roots: set<TypeRef>, typeRefs: set<TypeRef>,
                      round: Round)
    requires RoundFits(pascal, declared, roots, typeRefs, round)
    ensures RoundFits(pascal, declared, roots, typeRefs + round.mentioned, Round(round.library, round.emitted, {}))
    ensures RefsOf(round.emitted) <= Universe(pascal, declared)
  {
    EveryWalkFits(pascal, declared, roots, round.emitted);
    assert typeRefs + round.mentioned + {} == typeRefs + round.mentioned;
  }

  lemma FirstRoundFits(pascal: string -> string, declared: Library, roots: set<TypeRef>)
    ensures RoundFits(pascal, declared, roots, roots, Round(declared, [], {}))
    ensures RefsOf([]) == {}
  {
    assert roots + {} == roots;
  }

  lemma LastRoundIsComplete(pascal: string -> string, declared: Library, roots: set<TypeRef>, typeRefs: set<TypeRef>,
                            round: Round)
    requires RoundFits(pascal, declared, roots, typeRefs, round)
    requires round.mentioned == {} && RefsOf(round.emitted) == typeRefs
    ensures IsWalk(pascal, declared, roots, round.emitted) && IsComplete(roots, round.emitted)
  {
    assert typeRefs + {} == typeRefs;
  }

  /** The worklist loop. Comparing sizes is enough to compare the sets, as what is done is always part of what is
      known. It ends for every library. What it emits is a complete walk; it fails only when it is stuck. */
  method CloseTypes(pascal: string -> string, declared: Library, roots: set<TypeRef>)
    returns (result: Option<seq<Emitted>>)
    ensures result.Some? ==> IsWalk(pascal, declared, roots, result.value) && IsComplete(roots, result.value)
    ensures result == None ==> GetsStuck(pascal, declared, roots)
  {
    hide RoundFits, IsWalk, IsComplete, GetsStuck, RefsOf, Universe;
    var library, typeRefs, emitted := declared, roots, [];
    var done: set<TypeRef> := {};
    FirstRoundFits(pascal, declared, roots);
    while |done| != |typeRefs|
      invariant done == RefsOf(emitted) <= typeRefs
      invariant RoundFits(pascal, declared, roots, typeRefs, Round(library, emitted, {}))
      decreases |Universe(pascal, declared) - done|
    {
      SubsetOfSameSize(done, typeRefs);
      var round := WalkRound(pascal, declared, roots, Round(library, emitted, {}), done, typeRefs);
      if round == None {
        return None;
      }
      NextRoundFits(pascal, declared, roots, typeRefs, round.value);
      LessIsLeft(Universe(pascal, declared), done, typeRefs);
      library, emitted, done := round.value.library, round.value.emitted, typeRefs;
      typeRefs := typeRefs + round.value.mentioned;
    }
    SubsetOfSameSize(done, typeRefs);
    LastRoundIsComplete(pascal, declared, roots, typeRefs, Round(library, emitted, {}));
    return Some(emitted);
  }

  // ----- collisions -----

  /** Of several inline enums of one object that get the same name, the last one's values stay. */
  lemma {:induction false} LastInlineEnumWins(pascal: string -> string, owner: TypeRef, ps: seq<Property>, i: nat)
    requires i < |ps| && InlineEnum(ps[i])
    requires forall k :: i < k < |ps| && InlineEnum(ps[k]) ==>
               Generated(pascal, owner, ps[k].name) != Generated(pascal, owner, ps[i].name)
    ensures var g := Generated(pascal, owner, ps[i].name);
            g in NewTypes(pascal, owner, ps) && NewTypes(pascal, owner, ps)[g] == Text(ps[i].arg.items, None)
    decreases |ps|
  {
    hide Generated;
    if i < |ps| - 1 { LastInlineEnumWins(pascal, owner, ps[..|ps| - 1], i); }
  }

  /** A root that mentions one other type and leaves an enum under that name. */
  ghost predicate LeavesEnum(pascal: string -> string, declared: Library, owner: TypeRef, g: TypeRef,
                             items: seq<string>)
  {
    var step := Process(pascal, declared, owner);
    && owner != g && step.Some? && step.value.refs == {g}
    && g in step.value.library && step.value.library[g] == Text(Some(items), None)
  }

  /** The walks from such a root: the owner, then the enum. */
  ghost predicate OwnerThenEnum(pascal: string -> string, declared: Library, owner: TypeRef, g: TypeRef,
                                items: seq<string>, emitted: seq<Emitted>)
  {
    var library, done, known := LibraryAfter(pascal, declared, emitted), RefsOf(emitted), Known({owner}, emitted);
    && done <= {owner, g}
    && (forall e :: e in emitted && e.ref == g ==> e.context == EnumContext(g.typeName, items))
    && if emitted == [] then known == {owner} && library == declared
       else known <= {owner, g} && owner in done && g in library && library[g] == Text(Some(items), None)
  }

  lemma EmptyIsOwnerThenEnum(pascal: string -> string, declared: Library, owner: TypeRef, g: TypeRef,
                             items: seq<string>)
    ensures OwnerThenEnum(pascal, declared, owner, g, items, [])
  {
  }

  lemma OneMoreOfTwo(pascal: string -> string, declared: Library, owner: TypeRef, g: TypeRef, items: seq<string>,
                     before: seq<Emitted>, last: Emitted)
    requires LeavesEnum(pascal, declared, owner, g, items)
    requires OwnerThenEnum(pascal, declared, owner, g, items, before)
    requires IsWalk(pascal, declared, {owner}, before + [last])
    ensures OwnerThenEnum(pascal, declared, owner, g, items, before + [last])
  {
    OneMoreEmitted(pascal, declared, {owner}, before, last);
    var library := LibraryAfter(pascal, declared, before);
    if before != [] { ProcessEnum(pascal, library, g, items); }
    hide IsWalk, LibraryAfter, RefsOf, Known, Process;
    assert last.ref == if before == [] then owner else g;
  }

  lemma {:induction false} EveryWalkIsOwnerThenEnum(pascal: string -> string, declared: Library, owner: TypeRef,
                                                    g: TypeRef, items: seq<string>, emitted: seq<Emitted>)
    requires LeavesEnum(pascal, declared, owner, g, items)
    requires IsWalk(pascal, declared, {owner}, emitted)
    ensures OwnerThenEnum(pascal, declared, owner, g, items, emitted)
    decreases |emitted|
  {
    hide *;
    if emitted == [] {
      EmptyIsOwnerThenEnum(pascal, declared, owner, g, items);
    } else {
      var before, last := emitted[..|emitted| - 1], emitted[|emitted| - 1];
      assert emitted == before + [last];
      OneMoreEmitted(pascal, declared, {owner}, before, last);
      EveryWalkIsOwnerThenEnum(pascal, declared, owner, g, items, before);
      OneMoreOfTwo(pascal, declared, owner, g, items, before, last);
    }
  }

  /** An object with one inline enum, and a declared object whose name that enum gets. */
  function OverwritingLibrary(pascal: string -> string, owner: TypeRef, property: string, items: seq<string>,
                              other: TypeRef, values: seq<string>): Library
  {
    var g := Generated(pascal, owner, property);
    map[other := Text(Some(values), None),
        g := Fields(None, [Property("other", Text(None, Some(Printed(other))), true)]),
        owner := Fields(None, [Property(property, Text(Some(items), None), true)])]
  }

  lemma OneProperty(pascal: string -> string, owner: TypeRef, p: Property)
    ensures NewTypes(pascal, owner, [p])
         == if InlineEnum(p) then map[Generated(pascal, owner, p.name) := Text(p.arg.items, None)] else map[]
    ensures var n := AsTypeName(Inlined(pascal, owner, p).arg);
            FieldsOf(pascal, owner, [p])
              == if n == None then None else Some(FieldList([FieldOf(p, n.value)], n.value.refs))
  {
    assert [p][..0] == [];
    var n := AsTypeName(Inlined(pascal, owner, p).arg);
    if n.Some? {
      assert [] + [FieldOf(p, n.value)] == [FieldOf(p, n.value)] && {} + n.value.refs == n.value.refs;
    }
  }

  /** Processing the owner overwrites the declared object with the enum. A type that only the object mentions can be
      reached but is never emitted. */
  lemma OverwrittenTypeLosesItsMentions(pascal: string -> string, owner: TypeRef, property: string, items: seq<string>,
                                        other: TypeRef, values: seq<string>, emitted: seq<Emitted>)
    requires var g := Generated(pascal, owner, property);
             owner != g && other != g && other != owner && Printable(g) && Printable(other)
    requires IsWalk(pascal, OverwritingLibrary(pascal, owner, property, items, other, values), {owner}, emitted)
    ensures Reachable(pascal, OverwritingLibrary(pascal, owner, property, items, other, values), {owner}, other)
    ensures other !in RefsOf(emitted)
  {
    var declared := OverwritingLibrary(pascal, owner, property, items, other, values);
    var g := Generated(pascal, owner, property);
    var p := Property(property, Text(Some(items), None), true);
    var q := Property("other", Text(None, Some(Printed(other))), true);
    PrintedReadsBackIffPrintable(g);
    PrintedReadsBackIffPrintable(other);
    hide Printed, FromReference, Printable, IsWalk, Generated;
    OneProperty(pascal, owner, p);
    OneProperty(pascal, g, q);
    ProcessedMentions(pascal, declared, owner, g);
    ProcessedMentions(pascal, declared, g, other);
    RootIsReachable(pascal, declared, {owner}, owner);
    ReachOneMore(pascal, declared, {owner}, owner, g);
    ReachOneMore(pascal, declared, {owner}, g, other);
    EveryWalkIsOwnerThenEnum(pascal, declared, owner, g, items, emitted);
  }

  /** Two inline enums of one object that get the same name: the first one's values are never emitted under it. */
  lemma SecondEnumReplacesFirst(pascal: string -> string, owner: TypeRef, p: Property, q: Property,
                                emitted: seq<Emitted>)
    requires InlineEnum(p) && InlineEnum(q) && p.arg.items != q.arg.items
    requires Generated(pascal, owner, p.name) == Generated(pascal, owner, q.name) != owner
    requires Printable(Generated(pascal, owner, p.name))
    requires IsWalk(pascal, map[owner := Fields(None, [p, q])], {owner}, emitted)
    ensures !EnumEmitted(emitted, Generated(pascal, owner, p.name), p.arg.items.value)
  {
    var declared: Library := map[owner := Fields(None, [p, q])];
    var g := Generated(pascal, owner, p.name);
    PrintedReadsBackIffPrintable(g);
    hide Printed, FromReference, Printable, IsWalk, Generated, EnumEmitted;
    OneProperty(pascal, owner, p);
    assert [p, q][..1] == [p];
    LastInlineEnumWins(pascal, owner, [p, q], 1);
    EveryWalkIsOwnerThenEnum(pascal, declared, owner, g, q.arg.items.value, emitted);
    if EnumEmitted(emitted, g, p.arg.items.value) {
      NotBoth(emitted, g, p.arg.items.value, q.arg.items.value);
    }
  }

  lemma NotBoth(emitted: seq<Emitted>, g: TypeRef, items: seq<string>, others: seq<string>)
    requires EnumEmitted(emitted, g, items)
    requires forall e :: e in emitted && e.ref == g ==> e.context == EnumContext(g.typeName, others)
    ensures items == others
  {
  }
}
