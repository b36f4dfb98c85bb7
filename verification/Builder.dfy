/** Applying edits to a version.

    One builder accumulates any number of edits and then writes out the resulting file lists.
    `Folded` gives the meaning: files leave and enter level by level, edit by edit. */
module Builder {
  import opened DbFormat
  import opened Version

  /** The files removed from and added to each level; a file is named by level and number. */
  datatype VersionEdit = VersionEdit(deleted: set<(nat, nat)>, added: seq<(nat, File)>)

  ghost predicate ValidEdit(edit: VersionEdit) {
    forall i :: 0 <= i < |edit.added| ==> edit.added[i].0 < NUM_LEVELS
  }

  /** One edit applied to the set of files of one level. */
  ghost function ApplyToLevel(files: set<File>, l: nat, edit: VersionEdit): set<File> {
    (set f | f in files && (l, f.number) !in edit.deleted) + (set p | p in edit.added && p.0 == l :: p.1)
  }

  ghost function Folded(files: set<File>, l: nat, edits: seq<VersionEdit>): set<File> {
    if edits == [] then files
    else ApplyToLevel(Folded(files, l, edits[..|edits| - 1]), l, edits[|edits| - 1])
  }

  ghost function FileSet(files: seq<File>): set<File> {
    set f | f in files
  }

  /** No edit adds a file that the level already holds, now or earlier under the same number. */
  ghost predicate Fresh(base: seq<File>, added: seq<File>, l: nat, edit: VersionEdit) {
    && (forall p, f :: p in edit.added && p.0 == l && (f in base || f in added) ==> p.1.number != f.number)
    && (forall i, j :: 0 <= i < j < |edit.added| && edit.added[i].0 == l == edit.added[j].0
          ==> edit.added[i].1.number != edit.added[j].1.number)
  }

  // ---------------------------------------------------------------------------- merging

  lemma BySmallestTransitive(f: File, g: File, h: File)
    ensures BySmallest(f, g) && BySmallest(g, h) ==> BySmallest(f, h)
    ensures f.number != g.number ==> BySmallest(f, g) || BySmallest(g, f)
  {
    LessIsTotalOrder(f.smallest, g.smallest, h.smallest);
  }

  /** Insertion into the ordered set of added files. */
  function InsertFile(files: seq<File>, f: File): (r: seq<File>)
    requires SortedBySmallest(files) && forall g :: g in files ==> g.number != f.number
    ensures SortedBySmallest(r)
    ensures forall g :: g in r <==> g in files || g == f
  {
    if files == [] then [f]
    else if BySmallest(f, files[0]) then
      assert forall i :: 0 <= i < |files| ==> BySmallest(f, files[i]) by {
        forall i | 0 < i < |files| ensures BySmallest(f, files[i]) {
          BySmallestTransitive(f, files[0], files[i]);
        }
      }
      [f] + files
    else
      var rest := InsertFile(files[1..], f);
      BySmallestTransitive(f, files[0], files[0]);
      assert files[0] in files;
      assert forall i :: 0 <= i < |rest| ==> rest[i] in rest;
      assert forall g :: g in files[1..] ==> BySmallest(files[0], g);
      [files[0]] + rest
  }

  function MaybeAddFile(files: seq<File>, deleted: set<nat>, f: File): (r: seq<File>)
    ensures forall g :: g in r <==> g in files || (g == f && f.number !in deleted)
  {
    if f.number in deleted then files else files + [f]
  }

  /** `files` is the ordered merge of `xs[..x]` and `ys[..y]` without the deleted files, all of it
      before what is left of either. */
  ghost predicate Merged(files: seq<File>, xs: seq<File>, x: nat, ys: seq<File>, y: nat, deleted: set<nat>) {
    && x <= |xs| && y <= |ys|
    && SortedBySmallest(files)
    && (forall f :: f in files <==> (f in xs[..x] || f in ys[..y]) && f.number !in deleted)
    && (forall f, i :: f in files && x <= i < |xs| ==> BySmallest(f, xs[i]))
    && (forall f, i :: f in files && y <= i < |ys| ==> BySmallest(f, ys[i]))
  }

  lemma TakeNext(files: seq<File>, xs: seq<File>, x: nat, ys: seq<File>, y: nat, deleted: set<nat>)
    requires SortedBySmallest(xs) && SortedBySmallest(ys)
    requires Merged(files, xs, x, ys, y, deleted) && x < |xs|
    requires y < |ys| ==> BySmallest(xs[x], ys[y])
    ensures Merged(MaybeAddFile(files, deleted, xs[x]), xs, x + 1, ys, y, deleted)
  {
    hide BySmallest;
    assert xs[..x + 1] == xs[..x] + [xs[x]];
    forall i | y < i < |ys| ensures BySmallest(xs[x], ys[i]) {
      BySmallestTransitive(xs[x], ys[y], ys[i]);
    }
    var r := MaybeAddFile(files, deleted, xs[x]);
    forall f | f in r ensures f in files || f == xs[x] {
    }
    assert SortedBySmallest(r) by {
      assert forall i :: 0 <= i < |files| ==> files[i] in files;
    }
    hide SortedBySmallest, MaybeAddFile;
    assert forall f, i :: f in r && x + 1 <= i < |xs| ==> BySmallest(f, xs[i]);
    assert forall f, i :: f in r && y <= i < |ys| ==> BySmallest(f, ys[i]);
  }

  /** Merge the surviving base files with the surviving added files of one level. */
  method SaveLevel(base: seq<File>, deleted: set<nat>, added: seq<File>) returns (files: seq<File>)
    requires SortedBySmallest(base) && SortedBySmallest(added)
    requires forall f, g :: f in base && g in added ==> f.number != g.number
    ensures SortedBySmallest(files)
    ensures forall f :: f in files <==> (f in base || f in added) && f.number !in deleted
  {
    files := [];
    var b := 0;
    for a := 0 to |added|
      invariant Merged(files, base, b, added, a, deleted)
    {
      while b < |base| && BySmallest(base[b], added[a])
        invariant Merged(files, base, b, added, a, deleted)
      {
        TakeNext(files, base, b, added, a, deleted);
        files := MaybeAddFile(files, deleted, base[b]);
        b := b + 1;
      }
      if b < |base| {
        assert base[b] in base && added[a] in added;
        BySmallestTransitive(base[b], added[a], added[a]);
      }
      assert Merged(files, added, a, base, b, deleted);
      TakeNext(files, added, a, base, b, deleted);
      files := MaybeAddFile(files, deleted, added[a]);
    }
    while b < |base|
      invariant Merged(files, base, b, added, |added|, deleted)
    {
      TakeNext(files, base, b, added, |added|, deleted);
      files := MaybeAddFile(files, deleted, base[b]);
      b := b + 1;
    }
    assert base[..b] == base && added[..|added|] == added;
  }

  // ------------------------------------------------------------------------- the builder

  function DeletedAt(edit: VersionEdit, l: nat): (r: set<nat>)
    ensures forall n :: n in r <==> (l, n) in edit.deleted
  {
    var r := set p | p in edit.deleted && p.0 == l :: p.1;
    assert forall n :: (l, n) in edit.deleted ==> (l, n).1 in r;
    r
  }

  /** A level's added list after the first `i` new files of an edit. */
  ghost predicate AddedUpTo(l: nat, before: seq<File>, edit: VersionEdit, i: nat, added: seq<File>)
    requires i <= |edit.added|
  {
    && SortedBySmallest(added)
    && forall f :: f in added <==> f in before || (l, f) in edit.added[..i]
  }

  /** A level's deleted set after an edit's deletions and its first `i` new files. */
  ghost predicate DeletedUpTo(l: nat, before: set<nat>, edit: VersionEdit, i: nat, deleted: set<nat>)
    requires i <= |edit.added|
  {
    forall n :: n in deleted <==>
      (n in before || (l, n) in edit.deleted) && forall f: File :: (l, f) in edit.added[..i] ==> f.number != n
  }

  lemma UpToNext(l: nat, beforeA: seq<File>, beforeD: set<nat>, edit: VersionEdit, i: nat, added: seq<File>, deleted: set<nat>)
    requires i < |edit.added|
    requires AddedUpTo(l, beforeA, edit, i, added) && DeletedUpTo(l, beforeD, edit, i, deleted)
    requires edit.added[i].0 == l ==> forall g :: g in added ==> g.number != edit.added[i].1.number
    ensures edit.added[i].0 == l ==>
              && AddedUpTo(l, beforeA, edit, i + 1, InsertFile(added, edit.added[i].1))
              && DeletedUpTo(l, beforeD, edit, i + 1, deleted - {edit.added[i].1.number})
    ensures edit.added[i].0 != l ==>
              AddedUpTo(l, beforeA, edit, i + 1, added) && DeletedUpTo(l, beforeD, edit, i + 1, deleted)
  {
    assert edit.added[..i + 1] == edit.added[..i] + [edit.added[i]];
  }

  /** The surviving files of one level. */
  ghost predicate Survive(files: set<File>, base: seq<File>, added: seq<File>, deleted: set<nat>) {
    forall f :: f in files <==> (f in base || f in added) && f.number !in deleted
  }

  lemma SurviveApply(l: nat, base: seq<File>, beforeA: seq<File>, beforeD: set<nat>, edit: VersionEdit,
                     added: seq<File>, deleted: set<nat>, files: set<File>)
    requires Survive(files, base, beforeA, beforeD) && Fresh(base, beforeA, l, edit)
    requires AddedUpTo(l, beforeA, edit, |edit.added|, added) && DeletedUpTo(l, beforeD, edit, |edit.added|, deleted)
    ensures Survive(ApplyToLevel(files, l, edit), base, added, deleted)
  {
    assert edit.added[..|edit.added|] == edit.added;
    forall f ensures f in ApplyToLevel(files, l, edit) <==> (f in base || f in added) && f.number !in deleted {
      assert (l, f) in edit.added ==> f in ApplyToLevel(files, l, edit);
      if f in base || f in beforeA {
        assert (l, f) in edit.added ==> (l, f).1.number != f.number;
      }
    }
  }

  lemma FoldedApply(l: nat, base: seq<File>, beforeA: seq<File>, beforeD: set<nat>, edit: VersionEdit,
                    added: seq<File>, deleted: set<nat>, edits: seq<VersionEdit>)
    requires Survive(Folded(FileSet(base), l, edits), base, beforeA, beforeD) && Fresh(base, beforeA, l, edit)
    requires forall f, g :: f in base && g in beforeA ==> f.number != g.number
    requires AddedUpTo(l, beforeA, edit, |edit.added|, added) && DeletedUpTo(l, beforeD, edit, |edit.added|, deleted)
    ensures Survive(Folded(FileSet(base), l, edits + [edit]), base, added, deleted)
    ensures forall f, g :: f in base && g in added ==> f.number != g.number
    ensures forall f :: f in added <==> f in beforeA || (l, f) in edit.added
  {
    assert (edits + [edit])[..|edits|] == edits;
    SurviveApply(l, base, beforeA, beforeD, edit, added, deleted, Folded(FileSet(base), l, edits));
    assert edit.added[..|edit.added|] == edit.added;
  }

  class VersionBuilder {
    const base: seq<seq<File>>
    var deleted: seq<set<nat>>
    var added: seq<seq<File>>
    ghost var edits: seq<VersionEdit>

    ghost predicate Valid()
      reads this
    {
      && |base| == |deleted| == |added| == NUM_LEVELS
      && (forall l :: 0 <= l < NUM_LEVELS ==> SortedBySmallest(base[l]) && SortedBySmallest(added[l]))
      && (forall l, f, g :: 0 <= l < NUM_LEVELS && f in base[l] && g in added[l] ==> f.number != g.number)
      && (forall l :: 0 <= l < NUM_LEVELS ==>
            Survive(Folded(FileSet(base[l]), l, edits), base[l], added[l], deleted[l]))
    }

    constructor (levels: seq<seq<File>>)
      requires |levels| == NUM_LEVELS && forall l :: 0 <= l < NUM_LEVELS ==> SortedBySmallest(levels[l])
      ensures Valid() && base == levels && edits == [] && forall l :: 0 <= l < NUM_LEVELS ==> added[l] == []
    {
      base := levels;
      deleted := seq(NUM_LEVELS, _ => {});
      added := seq(NUM_LEVELS, _ => []);
      edits := [];
      new;
      forall l | 0 <= l < NUM_LEVELS ensures Survive(Folded(FileSet(base[l]), l, edits), base[l], added[l], deleted[l]) {
        assert Folded(FileSet(base[l]), l, []) == FileSet(base[l]);
      }
    }

    /** Apply one edit on top of those already applied. */
    method Apply(edit: VersionEdit)
      requires Valid() && ValidEdit(edit)
      requires forall l :: 0 <= l < NUM_LEVELS ==> Fresh(base[l], added[l], l, edit)
      modifies this
      ensures Valid() && edits == old(edits) + [edit]
      ensures forall l, f :: 0 <= l < NUM_LEVELS ==>
                (f in added[l] <==> f in old(added)[l] || (l, f) in edit.added)
    {
      var before := deleted;
      deleted := seq(NUM_LEVELS, l requires 0 <= l < NUM_LEVELS => before[l] + DeletedAt(edit, l));
      for i := 0 to |edit.added|
        invariant |added| == NUM_LEVELS && |deleted| == NUM_LEVELS && edits == old(edits)
        invariant forall l :: 0 <= l < NUM_LEVELS ==>
                    AddedUpTo(l, old(added)[l], edit, i, added[l]) && DeletedUpTo(l, before[l], edit, i, deleted[l])
      {
        var (level, f) := edit.added[i];
        assert (level, f) in edit.added;
        forall g | g in added[level] ensures g.number != f.number {
          assert Fresh(base[level], old(added)[level], level, edit);
        }
        forall l | 0 <= l < NUM_LEVELS
          ensures l == level ==> AddedUpTo(l, old(added)[l], edit, i + 1, InsertFile(added[l], f))
          ensures l == level ==> DeletedUpTo(l, before[l], edit, i + 1, deleted[l] - {f.number})
          ensures l != level ==> AddedUpTo(l, old(added)[l], edit, i + 1, added[l]) && DeletedUpTo(l, before[l], edit, i + 1, deleted[l])
        {
          UpToNext(l, old(added)[l], before[l], edit, i, added[l], deleted[l]);
        }
        deleted := deleted[level := deleted[level] - {f.number}];
        added := added[level := InsertFile(added[level], f)];
      }
      edits := edits + [edit];
      forall l | 0 <= l < NUM_LEVELS
        ensures Survive(Folded(FileSet(base[l]), l, edits), base[l], added[l], deleted[l])
        ensures forall f, g :: f in base[l] && g in added[l] ==> f.number != g.number
        ensures forall f :: f in added[l] <==> f in old(added)[l] || (l, f) in edit.added
      {
        FoldedApply(l, base[l], old(added)[l], before[l], edit, added[l], deleted[l], old(edits));
      }
    }

    /** The file lists after all the edits applied so far. */
    method SaveTo() returns (levels: seq<seq<File>>)
      requires Valid()
      ensures |levels| == NUM_LEVELS
      ensures forall l :: 0 <= l < NUM_LEVELS ==>
                SortedBySmallest(levels[l]) && FileSet(levels[l]) == Folded(FileSet(base[l]), l, edits)
    {
      levels := [];
      for l := 0 to NUM_LEVELS
        invariant |levels| == l
        invariant forall i :: 0 <= i < l ==>
                    SortedBySmallest(levels[i]) && FileSet(levels[i]) == Folded(FileSet(base[i]), i, edits)
      {
        var files := SaveLevel(base[l], deleted[l], added[l]);
        levels := levels + [files];
      }
    }
  }

  // ---------------------------------------------------------------------- manifest replay

  /** A sorted file list is determined by its set of files. */
  lemma {:induction false} SortedListUnique(xs: seq<File>, ys: seq<File>)
    requires SortedBySmallest(xs) && SortedBySmallest(ys)
    requires forall f :: f in xs <==> f in ys
    ensures xs == ys
  {
    assert |xs| > 0 ==> xs[0] in xs;
    assert |ys| > 0 ==> ys[0] in ys;
    if xs != [] {
      var i :| 0 <= i < |ys| && ys[i] == xs[0];
      var j :| 0 <= j < |xs| && xs[j] == ys[0];
      assert xs[0] == ys[0];
      forall f ensures f in xs[1..] <==> f in ys[1..] {
        assert f in xs[1..] ==> f in xs && f != xs[0];
        assert f in ys[1..] ==> f in ys && f != ys[0];
        assert xs == [xs[0]] + xs[1..] && ys == [ys[0]] + ys[1..];
      }
      SortedListUnique(xs[1..], ys[1..]);
    }
  }

  /** `versions` is the run that applied the edits one at a time at level `l`. */
  ghost predicate OneAtATime(versions: seq<seq<File>>, l: nat, edits: seq<VersionEdit>) {
    && |versions| == |edits| + 1
    && (forall i :: 0 <= i < |versions| ==> SortedBySmallest(versions[i]))
    && forall i :: 0 <= i < |edits| ==> FileSet(versions[i + 1]) == ApplyToLevel(FileSet(versions[i]), l, edits[i])
  }

  lemma {:induction false} FoldedOneAtATime(versions: seq<seq<File>>, l: nat, edits: seq<VersionEdit>)
    requires OneAtATime(versions, l, edits)
    ensures FileSet(versions[|edits|]) == Folded(FileSet(versions[0]), l, edits)
  {
    if edits != [] {
      FoldedOneAtATime(versions[..|edits|], l, edits[..|edits| - 1]);
    }
  }

  /** Replaying a manifest through one builder gives, at every level, the very list that applying the
      edits one at a time gave. */
  lemma ManifestReplay(versions: seq<seq<File>>, l: nat, edits: seq<VersionEdit>, recovered: seq<File>)
    requires OneAtATime(versions, l, edits)
    requires SortedBySmallest(recovered) && FileSet(recovered) == Folded(FileSet(versions[0]), l, edits)
    ensures recovered == versions[|edits|]
  {
    FoldedOneAtATime(versions, l, edits);
    forall f ensures f in recovered <==> f in versions[|edits|] {
      assert f in FileSet(recovered) <==> f in FileSet(versions[|edits|]);
    }
    SortedListUnique(recovered, versions[|edits|]);
  }
}
