/** The edits that the database applies: a compaction's, a trivial move's, a flush's. */
module Edits {
  import opened Version
  import opened Inputs
  import opened Setup
  import opened Builder
  import opened Install

  /** Build the next version from the current one and an edit. */
  method LogAndApply(levels: seq<seq<File>>, edit: VersionEdit) returns (levels': seq<seq<File>>)
    requires |levels| == NUM_LEVELS && forall l :: 0 <= l < NUM_LEVELS ==> SortedBySmallest(levels[l])
    requires ValidEdit(edit) && forall l :: 0 <= l < NUM_LEVELS ==> Fresh(levels[l], [], l, edit)
    ensures |levels'| == NUM_LEVELS
    ensures forall l :: 0 <= l < NUM_LEVELS ==>
              SortedBySmallest(levels'[l]) && FileSet(levels'[l]) == ApplyToLevel(FileSet(levels[l]), l, edit)
  {
    var builder := new VersionBuilder(levels);
    builder.Apply(edit);
    levels' := builder.SaveTo();
    forall l | 0 <= l < NUM_LEVELS ensures FileSet(levels'[l]) == ApplyToLevel(FileSet(levels[l]), l, edit) {
      assert builder.edits == [edit] && [edit][..0] == [];
    }
  }

  function DeletionsOf(level: nat, files: seq<File>): (r: set<(nat, nat)>)
    ensures forall l, n :: (l, n) in r <==> l == level && exists f :: f in files && f.number == n
  {
    set f | f in files :: (level, f.number)
  }

  function AdditionsOf(level: nat, files: seq<File>): (r: seq<(nat, File)>)
    ensures |r| == |files| && forall i :: 0 <= i < |r| ==> r[i] == (level, files[i])
  {
    seq(|files|, i requires 0 <= i < |files| => (level, files[i]))
  }

  /** Inputs leave their levels, outputs enter the next one. */
  function CompactionEdit(c: Compaction, outputs: seq<File>): VersionEdit {
    VersionEdit(DeletionsOf(c.level, c.inputs0) + DeletionsOf(c.level + 1, c.inputs1), AdditionsOf(c.level + 1, outputs))
  }

  lemma AdditionsAt(level: nat, files: seq<File>, l: nat, f: File)
    ensures (l, f) in AdditionsOf(level, files) <==> l == level && f in files
  {
    if l == level && f in files {
      var i :| 0 <= i < |files| && files[i] == f;
      assert AdditionsOf(level, files)[i] == (l, f);
    }
  }

  /** Within a level, a number names one file. */
  lemma DeletedByNumber(levels: seq<seq<File>>, l: nat, ins: seq<File>, f: File)
    requires UniqueNumbers(levels) && l < |levels| && Subset(ins, levels[l]) && f in levels[l]
    ensures (exists g :: g in ins && g.number == f.number) <==> f in ins
  {
  }

  lemma EditIsReplaced(levels: seq<seq<File>>, c: Compaction, outputs: seq<File>, levels': seq<seq<File>>)
    requires |levels| == |levels'| == NUM_LEVELS && c.level + 1 < NUM_LEVELS && UniqueNumbers(levels)
    requires Subset(c.inputs0, levels[c.level]) && Subset(c.inputs1, levels[c.level + 1])
    requires forall l :: 0 <= l < NUM_LEVELS ==> SortedBySmallest(levels'[l]) && SortedBySmallest(levels[l])
    requires forall l :: 0 <= l < NUM_LEVELS ==> FileSet(levels'[l]) == ApplyToLevel(FileSet(levels[l]), l, CompactionEdit(c, outputs))
    ensures Replaced(levels, c, outputs, levels')
  {
    var L := c.level;
    forall f ensures f in levels'[L] <==> f in levels[L] && f !in c.inputs0 {
      LevelAfterEdit(levels, c, outputs, levels'[L], L, f);
    }
    forall f ensures f in levels'[L + 1] <==> (f in levels[L + 1] && f !in c.inputs1) || f in outputs {
      LevelAfterEdit(levels, c, outputs, levels'[L + 1], L + 1, f);
    }
    forall l: nat | l < NUM_LEVELS && l != L && l != L + 1 ensures levels'[l] == levels[l] {
      forall f ensures f in levels'[l] <==> f in levels[l] {
        LevelAfterEdit(levels, c, outputs, levels'[l], l, f);
      }
      SortedListUnique(levels'[l], levels[l]);
    }
  }

  lemma LevelAfterEdit(levels: seq<seq<File>>, c: Compaction, outputs: seq<File>, files': seq<File>, l: nat, f: File)
    requires |levels| == NUM_LEVELS && c.level + 1 < NUM_LEVELS && UniqueNumbers(levels) && l < NUM_LEVELS
    requires Subset(c.inputs0, levels[c.level]) && Subset(c.inputs1, levels[c.level + 1])
    requires FileSet(files') == ApplyToLevel(FileSet(levels[l]), l, CompactionEdit(c, outputs))
    ensures f in files' <==>
            || (f in levels[l] && !(l == c.level && f in c.inputs0) && !(l == c.level + 1 && f in c.inputs1))
            || (l == c.level + 1 && f in outputs)
  {
    var edit := CompactionEdit(c, outputs);
    AdditionsAt(c.level + 1, outputs, l, f);
    assert f in files' <==> f in FileSet(files');
    assert f in ApplyToLevel(FileSet(levels[l]), l, edit) <==>
           (f in levels[l] && (l, f.number) !in edit.deleted) || (l, f) in edit.added by {
      assert (l, f) in edit.added ==> (l, f).1 in ApplyToLevel(FileSet(levels[l]), l, edit);
    }
    if f in levels[l] {
      if l == c.level {
        DeletedByNumber(levels, l, c.inputs0, f);
      } else if l == c.level + 1 {
        DeletedByNumber(levels, l, c.inputs1, f);
      }
    }
  }

  lemma CompactionEditFresh(levels: seq<seq<File>>, c: Compaction, outputs: seq<File>, l: nat)
    requires |levels| == NUM_LEVELS && c.level + 1 < NUM_LEVELS && l < NUM_LEVELS && UniqueNumbers(levels)
    requires forall i, j :: 0 <= i < j < |outputs| ==> outputs[i].number != outputs[j].number
    requires FreshNumbers(levels, outputs) || (|outputs| == 1 && outputs[0] in levels[c.level])
    ensures Fresh(levels[l], [], l, CompactionEdit(c, outputs))
  {
    var edit := CompactionEdit(c, outputs);
    forall p, f | p in edit.added && p.0 == l && f in levels[l] ensures p.1.number != f.number {
      AdditionsAt(c.level + 1, outputs, p.0, p.1);
      assert p == (p.0, p.1);
    }
  }

  /** Install a compaction or a trivial move. */
  method ApplyCompaction(levels: seq<seq<File>>, c: Compaction, outputs: seq<File>) returns (levels': seq<seq<File>>)
    requires Inv(levels) && GoodInputs(levels, c) && OutputsOk(c, outputs)
    requires forall i, j :: 0 <= i < j < |outputs| ==> outputs[i].number != outputs[j].number
    requires FreshNumbers(levels, outputs) || (|outputs| == 1 && outputs == c.inputs0)
    ensures Replaced(levels, c, outputs, levels') && Inv(levels')
  {
    var edit := CompactionEdit(c, outputs);
    assert |outputs| == 1 && outputs == c.inputs0 ==> outputs[0] in levels[c.level];
    assert UniqueNumbers(levels) && Subset(c.inputs0, levels[c.level]) && Subset(c.inputs1, levels[c.level + 1]);
    forall l | 0 <= l < NUM_LEVELS ensures Fresh(levels[l], [], l, edit) {
      CompactionEditFresh(levels, c, outputs, l);
    }
    assert ValidEdit(edit);
    assert forall l :: 0 <= l < NUM_LEVELS ==> SortedBySmallest(levels[l]);
    levels' := LogAndApply(levels, edit);
    hide *;
    EditIsReplaced(levels, c, outputs, levels');
    ReplacedInv(levels, c, outputs, levels');
  }

  // ------------------------------------------------------------------------------ flush

  /** Install a flushed memtable's file at the level picked for it. */
  method ApplyFlush(levels: seq<seq<File>>, level: nat, f: File) returns (levels': seq<seq<File>>)
    requires Inv(levels) && Flushable(levels, level, f)
    ensures Added(levels, level, f, levels') && Inv(levels')
  {
    var edit := VersionEdit({}, [(level, f)]);
    forall l: nat | l < NUM_LEVELS ensures Fresh(levels[l], [], l, edit) {
      assert forall p :: p in edit.added ==> p == (level, f);
    }
    levels' := LogAndApply(levels, edit);
    FlushIsAdded(levels, level, f, levels');
    hide *;
    AddedInv(levels, level, f, levels');
  }

  lemma FlushIsAdded(levels: seq<seq<File>>, level: nat, f: File, levels': seq<seq<File>>)
    requires |levels| == |levels'| == NUM_LEVELS && level < NUM_LEVELS
    requires forall l :: 0 <= l < NUM_LEVELS ==> SortedBySmallest(levels'[l]) && SortedBySmallest(levels[l])
    requires forall l :: 0 <= l < NUM_LEVELS ==> FileSet(levels'[l]) == ApplyToLevel(FileSet(levels[l]), l, VersionEdit({}, [(level, f)]))
    ensures Added(levels, level, f, levels')
  {
    var edit := VersionEdit({}, [(level, f)]);
    assert (level, f) in edit.added && forall p :: p in edit.added ==> p == (level, f);
    forall l: nat, g | l < NUM_LEVELS ensures g in levels'[l] <==> g in levels[l] || (l == level && g == f) {
      assert g in levels'[l] <==> g in FileSet(levels'[l]);
      assert l == level ==> (level, f).1 in ApplyToLevel(FileSet(levels[l]), l, edit);
    }
    forall l: nat | l < NUM_LEVELS && l != level ensures levels'[l] == levels[l] {
      assert forall g :: g in levels'[l] <==> g in levels[l];
      SortedListUnique(levels'[l], levels[l]);
    }
  }
}
