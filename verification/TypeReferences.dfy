/** References to named types, as schemas write them and the code generator reads and prints them. */
module TypeReferences {
  import opened Options
  import opened TopicMatching

  datatype TypeRef = TypeRef(modulePath: seq<string>, typeName: string)

  function Trimmed(s: string): string {
    if s != "" && s[0] == '/' then Trimmed(s[1..]) else s
  }

  /** What stands between the occurrences of "#/", scanning from the left. */
  function Cut(s: string): (parts: seq<string>)
    ensures |parts| >= 1
  {
    if s == "" then [""]
    else if |s| >= 2 && s[0] == '#' && s[1] == '/' then [""] + Cut(s[2..])
    else
      var rest := Cut(s[1..]);
      [[s[0]] + rest[0]] + rest[1..]
  }

  function FromReference(s: string): Option<TypeRef> {
    var parts := Cut(Trimmed(s));
    if |parts| != 2 then None else Some(TypeRef(Levels(parts[0]), parts[1]))
  }

  /** The module path as a file path. */
  function PathText(path: seq<string>): string {
    if path == [] then "" else Join(path)
  }

  /** How a reference to a generated type is printed. */
  function Printed(t: TypeRef): string {
    "/" + PathText(t.modulePath) + "#/" + t.typeName
  }

  // ----- cutting -----

  ghost predicate Uncut(s: string) {
    Cut(s) == [s]
  }

  lemma {:induction false} FirstPartIsPrefix(s: string)
    ensures Cut(s)[0] <= s
  {
    if s != "" && !(|s| >= 2 && s[0] == '#' && s[1] == '/') {
      FirstPartIsPrefix(s[1..]);
      assert [s[0]] + s[1..] == s;
    }
  }

  lemma UncutOneMore(c: char, s: string)
    requires Uncut(s)
    requires !(c == '#' && s != "" && s[0] == '/')
    ensures Uncut([c] + s)
  {
    assert ([c] + s)[1..] == s;
  }

  lemma {:induction false} PartsAreUncut(s: string, i: nat)
    requires i < |Cut(s)|
    ensures Uncut(Cut(s)[i])
  {
    if s != "" {
      if |s| >= 2 && s[0] == '#' && s[1] == '/' {
        if i > 0 { PartsAreUncut(s[2..], i - 1); }
      } else {
        var rest := Cut(s[1..]);
        PartsAreUncut(s[1..], i);
        FirstPartIsPrefix(s[1..]);
        if i == 0 { UncutOneMore(s[0], rest[0]); }
      }
    }
  }

  /** A mark after an uncut text is found where it stands. */
  lemma {:induction false} CutAtMark(p: string, n: string)
    requires Uncut(p)
    ensures Cut(p + "#/" + n) == [p] + Cut(n)
  {
    if p == "" {
      assert p + "#/" + n == "#/" + n;
      assert ("#/" + n)[2..] == n;
    } else {
      var s := p + "#/" + n;
      assert s[1..] == p[1..] + "#/" + n;
      UncutTail(p);
      CutAtMark(p[1..], n);
      assert [p[0]] + p[1..] == p;
    }
  }

  lemma UncutTail(p: string)
    requires p != "" && Uncut(p)
    ensures Uncut(p[1..]) && !(|p| >= 2 && p[0] == '#' && p[1] == '/')
  {
    assert |p| >= 2 && p[0] == '#' && p[1] == '/' ==> |Cut(p)| >= 2;
    var rest := Cut(p[1..]);
    assert Cut(p) == [[p[0]] + rest[0]] + rest[1..];
    assert |rest| == 1;
    assert Cut(p)[0] == p && p == [p[0]] + rest[0];
    assert rest[0] == p[1..];
  }

  lemma {:induction false} OnePartIsUncut(s: string)
    requires |Cut(s)| == 1
    ensures Uncut(s)
  {
    if s != "" {
      OnePartIsUncut(s[1..]);
      assert [s[0]] + s[1..] == s;
    }
  }

  ghost predicate MarkAt(s: string, i: int) {
    0 <= i < |s| - 1 && s[i] == '#' && s[i + 1] == '/'
  }

  /** A text is uncut exactly when "#/" occurs nowhere in it. */
  lemma {:induction false} UncutIffNoMark(s: string)
    ensures Uncut(s) <==> forall i :: !MarkAt(s, i)
  {
    if s != "" {
      UncutIffNoMark(s[1..]);
      forall i ensures MarkAt(s, i + 1) <==> MarkAt(s[1..], i) || (i == -1 && MarkAt(s, 0)) {}
      if MarkAt(s, 0) {
        assert |Cut(s)| == 1 + |Cut(s[2..])|;
      } else {
        if Uncut(s) { UncutTail(s); }
        if Uncut(s[1..]) { UncutOneMore(s[0], s[1..]); }
        assert [s[0]] + s[1..] == s;
        if i :| MarkAt(s, i) { assert MarkAt(s[1..], i - 1); }
        if i :| MarkAt(s[1..], i) { assert MarkAt(s, i + 1); }
      }
    }
  }

  lemma {:induction false} TrimmedHasNoSlash(s: string)
    ensures Trimmed(s) == "" || Trimmed(s)[0] != '/'
  {
    if s != "" && s[0] == '/' { TrimmedHasNoSlash(s[1..]); }
  }

  // ----- references -----

  /** A reference that survives printing: no component holds a slash, the path does not begin with one, and no
      "#/" hides in path or name. */
  ghost predicate Printable(t: TypeRef) {
    var path := PathText(t.modulePath);
    && t.modulePath != [] && SlashFree(t.modulePath) && !(path != "" && path[0] == '/')
    && Uncut(path) && Uncut(t.typeName)
  }

  /** Printing and reading are inverse exactly on the printable references. */
  lemma PrintedReadsBackIffPrintable(t: TypeRef)
    ensures FromReference(Printed(t)) == Some(t) <==> Printable(t)
  {
    var path := PathText(t.modulePath);
    var s := path + "#/" + t.typeName;
    assert Printed(t)[1..] == s;
    if Printable(t) {
      assert Trimmed(s) == s;
      CutAtMark(path, t.typeName);
      LevelsInvertsJoin(t.modulePath);
    } else if FromReference(Printed(t)) == Some(t) {
      ReadIsPrintable(Printed(t));
    }
  }

  /** A reference with exactly one "#/", as schemas write it, names the file before the mark and the type after it;
      slashes in front do not count. */
  lemma ReadsFileAndName(file: string, name: string)
    requires file != "" && file[0] != '/'
    requires forall i :: !MarkAt(file, i) && !MarkAt(name, i)
    ensures FromReference("/" + file + "#/" + name) == Some(TypeRef(Levels(file), name))
    ensures FromReference(file + "#/" + name) == Some(TypeRef(Levels(file), name))
  {
    var s := file + "#/" + name;
    UncutIffNoMark(file);
    UncutIffNoMark(name);
    TwoParts(file, name);
    hide *;
    NothingTrimmed(s);
    SlashInFront(file, "#/", name);
    TrimmedOnce(s);
    ReadAsParts(s, file, name);
    ReadAsParts("/" + s, file, name);
  }

  lemma TwoParts(file: string, name: string)
    requires Uncut(file) && Uncut(name)
    requires file != "" && file[0] != '/'
    ensures var s := file + "#/" + name; Cut(s) == [file, name] && s != "" && s[0] != '/'
  {
    hide Cut;
    CutAtMark(file, name);
  }

  lemma NothingTrimmed(s: string)
    requires s != "" && s[0] != '/'
    ensures Trimmed(s) == s
  {
  }

  lemma SlashInFront(a: string, b: string, c: string)
    ensures "/" + a + b + c == "/" + (a + b + c)
  {
  }

  lemma ReadAsParts(s: string, file: string, name: string)
    requires Cut(Trimmed(s)) == [file, name]
    ensures FromReference(s) == Some(TypeRef(Levels(file), name))
  {
    hide Cut, Trimmed, Levels;
  }

  lemma TrimmedOnce(s: string)
    ensures Trimmed("/" + s) == Trimmed(s)
  {
    assert ("/" + s)[1..] == s;
  }

  /** Whatever is read can be printed and read again. */
  lemma ReadIsPrintable(s: string)
    ensures var r := FromReference(s); r.Some? ==> Printable(r.value)
  {
    var parts := Cut(Trimmed(s));
    if |parts| == 2 {
      PartsAreUncut(Trimmed(s), 0);
      PartsAreUncut(Trimmed(s), 1);
      FirstPartIsPrefix(Trimmed(s));
      TrimmedHasNoSlash(s);
      JoinInvertsLevels(parts[0]);
    }
  }

  /** The reference to a generated type reads back whenever its name is free of "#/": the module path comes from
      a reference already read. */
  lemma GeneratedReadsBack(t: TypeRef, name: string)
    requires Printable(t)
    ensures FromReference(Printed(t.(typeName := name))) == Some(t.(typeName := name)) <==> Uncut(name)
  {
    PrintedReadsBackIffPrintable(t.(typeName := name));
  }

  /** A reference to a generated type leads to that type or is no reference at all. */
  lemma GeneratedReadsBackOrFails(t: TypeRef, name: string)
    requires Printable(t)
    ensures var g := t.(typeName := name);
            FromReference(Printed(g)) == None || FromReference(Printed(g)) == Some(g)
  {
    var g := t.(typeName := name);
    var path := PathText(t.modulePath);
    var s := path + "#/" + name;
    assert Printed(g)[1..] == s;
    assert Trimmed(s) == s;
    CutAtMark(path, name);
    if |Cut(s)| == 2 {
      OnePartIsUncut(name);
      GeneratedReadsBack(t, name);
    }
  }
}
