/** The output files of a compaction. */
module CompactionOutput {
  import opened DbFormat
  import opened Version
  import opened CompactionWork

  lemma FlattenStep(outputs: seq<seq<Entry>>, i: nat)
    requires i < |outputs|
    ensures Flatten(outputs[..i + 1]) == Flatten(outputs[..i]) + outputs[i]
  {
    assert outputs[..i + 1][..i] == outputs[..i] && outputs[..i + 1][i] == outputs[i];
  }

  lemma {:induction false} FlattenPrefix(outputs: seq<seq<Entry>>, i: nat, j: nat)
    requires i <= j <= |outputs|
    ensures Flatten(outputs[..i]) <= Flatten(outputs[..j])
    decreases j - i
  {
    if i < j {
      FlattenStep(outputs, i);
      FlattenPrefix(outputs, i + 1, j);
    }
  }

  /** Where an entry of an output sits in the flattened run. */
  lemma PieceAt(outputs: seq<seq<Entry>>, i: nat, x: nat) returns (z: nat)
    requires i < |outputs| && x < |outputs[i]|
    ensures z == |Flatten(outputs[..i])| + x < |Flatten(outputs[..i + 1])| <= |Flatten(outputs)|
    ensures Flatten(outputs)[z] == outputs[i][x]
  {
    z := |Flatten(outputs[..i])| + x;
    FlattenStep(outputs, i);
    FlattenPrefix(outputs, i + 1, |outputs|);
    assert outputs[..|outputs|] == outputs;
    assert Flatten(outputs[..i + 1])[z] == outputs[i][x];
  }

  /** Pieces of a sorted run: each is sorted and all of one comes before all of the next. */
  lemma PiecesSorted(outputs: seq<seq<Entry>>, i: nat, j: nat, x: nat, y: nat)
    requires Sorted(Flatten(outputs)) && i <= j < |outputs| && x < |outputs[i]| && y < |outputs[j]| && (i == j ==> x < y)
    ensures Less(outputs[i][x].ik, outputs[j][y].ik)
  {
    var z := PieceAt(outputs, i, x);
    var w := PieceAt(outputs, j, y);
    if i < j {
      FlattenPrefix(outputs, i + 1, j);
    }
    assert z < w;
  }

  lemma {:induction false} EveryEntryInPiece(outputs: seq<seq<Entry>>, e: Entry) returns (i: nat)
    requires e in Flatten(outputs)
    ensures i < |outputs| && e in outputs[i]
  {
    var n := |outputs| - 1;
    if e in outputs[n] {
      i := n;
    } else {
      i := EveryEntryInPiece(outputs[..n], e);
    }
  }

  /** Number the outputs and record their bounds. */
  method MakeFiles(outputs: seq<seq<Entry>>, next: nat, size: seq<Entry> -> nat) returns (files: seq<File>)
    requires NonEmpty(outputs) && Sorted(Flatten(outputs))
    requires forall e :: e in Flatten(outputs) ==> e.ik.seqno <= MAX_SEQUENCE_NUMBER
    ensures |files| == |outputs|
    ensures forall i :: 0 <= i < |files| ==> files[i].number == next + i && files[i].run == outputs[i] && files[i].size == size(outputs[i])
    ensures AllWellFormed(files) && Disjoint(files)
    ensures forall e :: e in LevelEntries(files) <==> e in Flatten(outputs)
  {
    files := [];
    for i := 0 to |outputs|
      invariant |files| == i
      invariant forall j :: 0 <= j < i ==> files[j].number == next + j && files[j].run == outputs[j] && files[j].size == size(outputs[j]) && WellFormed(files[j])
    {
      var run := outputs[i];
      forall x, y | 0 <= x < y < |run| ensures Less(run[x].ik, run[y].ik) {
        PiecesSorted(outputs, i, i, x, y);
      }
      forall x | 0 <= x < |run| ensures run[x].ik.seqno <= MAX_SEQUENCE_NUMBER {
        var z := PieceAt(outputs, i, x);
      }
      files := files + [File(next + i, size(run), run[0].ik, run[|run| - 1].ik, run)];
    }
    FilesHoldOutputs(outputs, files);
  }

  lemma FilesHoldOutputs(outputs: seq<seq<Entry>>, files: seq<File>)
    requires Sorted(Flatten(outputs)) && |files| == |outputs|
    requires forall j :: 0 <= j < |files| ==> files[j].run == outputs[j] && WellFormed(files[j])
    ensures Disjoint(files)
    ensures forall e :: e in LevelEntries(files) <==> e in Flatten(outputs)
  {
    forall i, j | 0 <= i < j < |files| ensures Less(files[i].largest, files[j].smallest) {
      FilesInOrder(outputs, files, i, j);
    }
    forall e ensures e in LevelEntries(files) <==> e in Flatten(outputs) {
      FilesHoldEntry(outputs, files, e);
    }
  }

  lemma FilesInOrder(outputs: seq<seq<Entry>>, files: seq<File>, i: nat, j: nat)
    requires Sorted(Flatten(outputs)) && |files| == |outputs| && i < j < |files|
    requires files[i].run == outputs[i] && files[j].run == outputs[j] && WellFormed(files[i]) && WellFormed(files[j])
    ensures Less(files[i].largest, files[j].smallest)
  {
    hide Less, Sorted, Flatten;
    PiecesSorted(outputs, i, j, |outputs[i]| - 1, 0);
  }

  lemma FilesHoldEntry(outputs: seq<seq<Entry>>, files: seq<File>, e: Entry)
    requires |files| == |outputs| && forall j :: 0 <= j < |files| ==> files[j].run == outputs[j]
    ensures e in LevelEntries(files) <==> e in Flatten(outputs)
  {
    hide Flatten;
    if e in Flatten(outputs) {
      var i := EveryEntryInPiece(outputs, e);
      assert files[i] in files && e in files[i].run;
    }
    if e in LevelEntries(files) {
      var i :| 0 <= i < |files| && e in files[i].run;
      var x :| 0 <= x < |outputs[i]| && outputs[i][x] == e;
      var z := PieceAt(outputs, i, x);
    }
  }
}
