/** JSON documents, reading and editing them along a path of keys, and merge patches as section 2 of RFC 7396
    defines them. */
module JsonDocuments {
  import opened Options

  /** Everything that is neither null nor an object counts as a leaf: patches replace it as a whole. */
  datatype Json = Null | Leaf(content: int) | Object(fields: map<string, Json>)

  const EMPTY_OBJECT: Json := Object(map[])

  type Path = seq<string>

  function FieldsOf(j: Json): map<string, Json> {
    if j.Object? then j.fields else map[]
  }

  function MergePatch(target: Json, patch: Json): Json
    decreases patch
  {
    match patch
    case Object(changes) =>
      var base := FieldsOf(target);
      Object(map k | k in base.Keys + changes.Keys && (k in changes ==> changes[k] != Null) ::
               if k in changes then MergePatch(if k in base then base[k] else Null, changes[k]) else base[k])
    case _ => patch
  }

  function Read(j: Json, path: Path): Option<Json> {
    if path == [] then Some(j)
    else if j.Object? && path[0] in j.fields then Read(j.fields[path[0]], path[1..])
    else None
  }

  /** Indexing with a key turns null into an object and throws on anything else that is no object. */
  predicate Editable(j: Json, path: Path) {
    path == [] || (!j.Leaf? && (path[0] in FieldsOf(j) ==> Editable(FieldsOf(j)[path[0]], path[1..])))
  }

  /** Creates the missing objects along the path and puts the value at its end, if there is one to put. */
  function Edit(j: Json, path: Path, value: Option<Json>): Json
    requires Editable(j, path)
    decreases path
  {
    if path == [] then (if value.Some? then value.value else j)
    else
      var child := if path[0] in FieldsOf(j) then FieldsOf(j)[path[0]] else EMPTY_OBJECT;
      Object(FieldsOf(j)[path[0] := Edit(child, path[1..], value)])
  }

  /** The places an edit leaves alone: not on the way to its end, nor inside what it put there. */
  ghost predicate Untouched(path: Path, value: Option<Json>, q: Path) {
    !(q <= path) && (value.Some? ==> !(path <= q))
  }

  /** No null stands on the way to the end of the path. */
  predicate NoNullAbove(j: Json, path: Path) {
    path == [] || (j != Null && (path[0] in FieldsOf(j) ==> NoNullAbove(FieldsOf(j)[path[0]], path[1..])))
  }

  // ----- one edit -----

  lemma {:induction false} EditPutsValue(j: Json, path: Path, value: Json)
    requires Editable(j, path)
    ensures Read(Edit(j, path, Some(value)), path) == Some(value)
    decreases path
  {
    if path != [] {
      var child := if path[0] in FieldsOf(j) then FieldsOf(j)[path[0]] else EMPTY_OBJECT;
      EditPutsValue(child, path[1..], value);
    }
  }

  /** An edit without a value makes sure there is something at the end of the path. */
  lemma {:induction false} EditCreatesContainers(j: Json, path: Path)
    requires Editable(j, path)
    ensures Read(Edit(j, path, None), path)
         == Some(if Read(j, path).Some? then Read(j, path).value else EMPTY_OBJECT)
    decreases path
  {
    if path != [] {
      var child := if path[0] in FieldsOf(j) then FieldsOf(j)[path[0]] else EMPTY_OBJECT;
      EditCreatesContainers(child, path[1..]);
    }
  }

  lemma PrefixTails(p: Path, q: Path)
    requires p != [] && q != [] && p[0] == q[0]
    ensures p <= q <==> p[1..] <= q[1..]
  {
    if p[1..] <= q[1..] {
      assert p == [p[0]] + p[1..] && q == [q[0]] + q[1..];
    }
  }

  lemma UntouchedTails(path: Path, value: Option<Json>, q: Path)
    requires path != [] && q != [] && path[0] == q[0]
    ensures Untouched(path, value, q) <==> Untouched(path[1..], value, q[1..])
  {
    PrefixTails(path, q);
    PrefixTails(q, path);
  }

  lemma {:induction false} EditLeavesRest(j: Json, path: Path, value: Option<Json>, q: Path)
    requires Editable(j, path) && Untouched(path, value, q)
    ensures Read(Edit(j, path, value), q) == Read(j, q)
    decreases path
  {
    if path != [] && q[0] == path[0] {
      var child := if path[0] in FieldsOf(j) then FieldsOf(j)[path[0]] else EMPTY_OBJECT;
      UntouchedTails(path, value, q);
      EditLeavesRest(child, path[1..], value, q[1..]);
    }
  }

  // ----- edits under a merge -----

  lemma MergeEmpty(main: Json, q: Path)
    requires q != []
    ensures Read(MergePatch(main, EMPTY_OBJECT), q) == Read(main, q)
  {
  }

  /** A leaf of the patch is what the merged document has there, whatever the main document is. */
  lemma {:induction false} MergeShowsLeaf(main: Json, patch: Json, path: Path, value: Json)
    requires Read(patch, path) == Some(value) && value.Leaf?
    ensures Read(MergePatch(main, patch), path) == Some(value)
    decreases path
  {
    if path != [] {
      var base := FieldsOf(main);
      var k := path[0];
      MergeShowsLeaf(if k in base then base[k] else Null, patch.fields[k], path[1..], value);
      assert patch.fields[k] != Null;
    }
  }

  /** A null in the patch removes what the main document has there, and everything below. */
  lemma {:induction false} MergeRemovesNulls(main: Json, patch: Json, path: Path, below: Path)
    requires path != [] && Read(patch, path) == Some(Null)
    ensures Read(MergePatch(main, patch), path + below) == None
    decreases path
  {
    assert (path + below)[1..] == path[1..] + below;
    var k := path[0];
    if |path| > 1 {
      var base := if k in FieldsOf(main) then FieldsOf(main)[k] else Null;
      MergeRemovesNulls(base, patch.fields[k], path[1..], below);
    }
  }

  /** What an object of the patch does not mention stays as in the main document. */
  lemma {:induction false} MergeKeepsUnmentioned(main: Json, patch: Json, path: Path, k: string, below: Path)
    requires Read(patch, path).Some? && Read(patch, path).value.Object? && k !in Read(patch, path).value.fields
    ensures Read(MergePatch(main, patch), path + [k] + below) == Read(main, path + [k] + below)
    decreases path
  {
    if path == [] {
      assert ([k] + below)[1..] == below;
    } else {
      var q := path + [k] + below;
      assert q[1..] == path[1..] + [k] + below;
      var base := if path[0] in FieldsOf(main) then FieldsOf(main)[path[0]] else Null;
      MergeKeepsUnmentioned(base, patch.fields[path[0]], path[1..], k, below);
    }
  }

  /** Below a leaf of the patch the merged document has nothing. */
  lemma {:induction false} MergeEndsAtLeaves(main: Json, patch: Json, path: Path, k: string, below: Path)
    requires Read(patch, path).Some? && Read(patch, path).value.Leaf?
    ensures Read(MergePatch(main, patch), path + [k] + below) == None
    decreases path
  {
    if path != [] {
      assert (path + [k] + below)[1..] == path[1..] + [k] + below;
      var base := if path[0] in FieldsOf(main) then FieldsOf(main)[path[0]] else Null;
      MergeEndsAtLeaves(base, patch.fields[path[0]], path[1..], k, below);
    }
  }

  ghost predicate LeafAbove(j: Json, path: Path, n: nat) {
    n < |path| && Read(j, path[..n]).Some? && Read(j, path[..n]).value.Leaf?
  }

  ghost predicate NullAbove(j: Json, path: Path, n: nat) {
    n < |path| && Read(j, path[..n]) == Some(Null)
  }

  lemma ReadOneDown(j: Json, path: Path, n: nat)
    requires n < |path| - 1
    ensures Read(j, path[..n + 1])
         == if path[0] in FieldsOf(j) then Read(FieldsOf(j)[path[0]], path[1..][..n]) else None
  {
    assert path[..n + 1][1..] == path[1..][..n];
  }

  /** An edit is possible exactly if no leaf stands on the way. */
  lemma {:induction false} EditableIffNoLeafAbove(j: Json, path: Path)
    ensures Editable(j, path) <==> forall n: nat :: !LeafAbove(j, path, n)
    decreases path
  {
    if path != [] {
      assert path[..0] == [];
      assert LeafAbove(j, path, 0) <==> j.Leaf?;
      if path[0] in FieldsOf(j) {
        var child := FieldsOf(j)[path[0]];
        EditableIffNoLeafAbove(child, path[1..]);
        forall n: nat ensures LeafAbove(j, path, n + 1) <==> LeafAbove(child, path[1..], n) {
          if n < |path| - 1 { ReadOneDown(j, path, n); }
        }
      }
      forall n: nat | n > 0 && LeafAbove(j, path, n)
        ensures path[0] in FieldsOf(j) && LeafAbove(FieldsOf(j)[path[0]], path[1..], n - 1)
      {
        ReadOneDown(j, path, n - 1);
      }
    }
  }

  /** The paths that are free of nulls are those without a proper prefix that reads as null. */
  lemma {:induction false} NoNullAboveMeans(j: Json, path: Path)
    ensures NoNullAbove(j, path) <==> forall n: nat :: !NullAbove(j, path, n)
    decreases path
  {
    if path != [] {
      assert path[..0] == [];
      assert NullAbove(j, path, 0) <==> j == Null;
      if path[0] in FieldsOf(j) {
        var child := FieldsOf(j)[path[0]];
        NoNullAboveMeans(child, path[1..]);
        forall n: nat ensures NullAbove(j, path, n + 1) <==> NullAbove(child, path[1..], n) {
          if n < |path| - 1 { ReadOneDown(j, path, n); }
        }
      }
      forall n: nat | n > 0 && NullAbove(j, path, n)
        ensures path[0] in FieldsOf(j) && NullAbove(FieldsOf(j)[path[0]], path[1..], n - 1)
      {
        ReadOneDown(j, path, n - 1);
      }
    }
  }

  /** The child of a merged document. */
  lemma MergeChild(main: Json, patch: Json, k: string, rest: Path)
    requires patch.Object? && rest != []
    ensures Read(MergePatch(main, patch), [k] + rest)
         == var base := if k in FieldsOf(main) then FieldsOf(main)[k] else Null;
            if k in patch.fields then Read(MergePatch(base, patch.fields[k]), rest) else Read(base, rest)
  {
    assert ([k] + rest)[1..] == rest;
  }

  lemma {:induction false} MergedEditLeavesRest(main: Json, j: Json, path: Path, value: Option<Json>, q: Path)
    requires Editable(j, path) && NoNullAbove(j, path)
    requires Untouched(path, value, q)
    ensures Read(MergePatch(main, Edit(j, path, value)), q) == Read(MergePatch(main, j), q)
    decreases path
  {
    if path != [] {
      var edited := Edit(j, path, value);
      if q[0] == path[0] {
        var k := path[0];
        var base := if k in FieldsOf(main) then FieldsOf(main)[k] else Null;
        var child := if k in j.fields then j.fields[k] else EMPTY_OBJECT;
        UntouchedTails(path, value, q);
        MergedEditLeavesRest(base, child, path[1..], value, q[1..]);
        assert q == [k] + q[1..];
        MergeChild(main, j, k, q[1..]);
        MergeChild(main, edited, k, q[1..]);
        if k !in j.fields { MergeEmpty(base, q[1..]); }
      }
    }
  }

  /** Where a null stood on the way, the edit brings entries of the main document back. */
  lemma {:induction false} NullAboveBringsBack(j: Json, path: Path, value: Option<Json>) returns (main: Json, q: Path)
    requires Editable(j, path) && !NoNullAbove(j, path)
    ensures Untouched(path, value, q)
    ensures Read(MergePatch(main, Edit(j, path, value)), q) != Read(MergePatch(main, j), q)
    decreases path
  {
    var k := path[0];
    var edited := Edit(j, path, value);
    if j == Null {
      var other := k + "x";
      main, q := Object(map[other := Leaf(0)]), [other];
      assert edited.fields.Keys == {k};
      assert MergePatch(main, edited).fields[other] == Leaf(0);
      assert Read(MergePatch(main, edited), q) == Some(Leaf(0)) by { assert q[1..] == []; }
    } else {
      var inner, rest := NullAboveBringsBack(j.fields[k], path[1..], value);
      main, q := Object(map[k := inner]), [k] + rest;
      assert q[1..] == rest;
      UntouchedTails(path, value, q);
      MergeChild(main, j, k, rest);
      MergeChild(main, edited, k, rest);
    }
  }

  /** An edit of the patch leaves the rest of every merged document alone exactly when the patch has no null on
      the way. */
  lemma MergedEditIsLocalIffNoNullAbove(j: Json, path: Path, value: Option<Json>)
    requires Editable(j, path)
    ensures NoNullAbove(j, path)
       <==> forall main, q | Untouched(path, value, q) ::
              Read(MergePatch(main, Edit(j, path, value)), q) == Read(MergePatch(main, j), q)
  {
    if NoNullAbove(j, path) {
      forall main, q | Untouched(path, value, q)
        ensures Read(MergePatch(main, Edit(j, path, value)), q) == Read(MergePatch(main, j), q)
      {
        MergedEditLeavesRest(main, j, path, value, q);
      }
    } else {
      var main, q := NullAboveBringsBack(j, path, value);
    }
  }
}
