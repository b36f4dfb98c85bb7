/** The user-level iterator: from internal entries to live user entries at a sequence number. */
module DbIter {
  import opened DbFormat
  import opened Reads
  import opened MergingIterator

  predicate Shown(run: seq<Entry>, s: nat, i: int) {
    0 <= i < |run| && run[i].ik.seqno <= s
  }

  /** Entry `i` is what a reader at `s` sees of its user key: the first visible entry of that key, and
      not a deletion. */
  ghost predicate Live(run: seq<Entry>, s: nat, i: int) {
    && Shown(run, s, i) && run[i].ik.kind.Put?
    && forall j :: 0 <= j < i && run[j].ik.key == run[i].ik.key ==> !Shown(run, s, j)
  }

  /** No live entry strictly between two positions. */
  ghost predicate NoLive(run: seq<Entry>, s: nat, lo: int, hi: int) {
    forall i :: lo < i < hi ==> !Live(run, s, i)
  }

  lemma KeysOrdered(run: seq<Entry>, i: nat, j: nat)
    requires Sorted(run) && i <= j < |run|
    ensures run[i].ik.key <= run[j].ik.key
  {
    assert i < j ==> Less(run[i].ik, run[j].ik);
  }

  /** Live entries have distinct, increasing user keys. */
  lemma LiveKeysIncrease(run: seq<Entry>, s: nat, i: nat, j: nat)
    requires Sorted(run) && Live(run, s, i) && Live(run, s, j) && i < j
    ensures run[i].ik.key < run[j].ik.key
  {
    KeysOrdered(run, i, j);
  }

  /** The live entries are exactly what point reads find. */
  lemma LiveIsRead(run: seq<Entry>, s: nat, k: UserKey, v: Bytes)
    requires Sorted(run) && Distinct(Contents(run))
    ensures Read(Contents(run), k, s) == Some(v) <==> exists i :: Live(run, s, i) && run[i].ik.key == k && run[i].value == v
  {
    var S := Contents(run);
    if i :| Live(run, s, i) && run[i].ik.key == k && run[i].value == v {
      LiveIsVisible(run, s, i);
      ReadVisible(S, k, s, run[i]);
    }
    if Read(S, k, s) == Some(v) {
      var e :| IsVisible(S, k, s, e);
      ReadVisible(S, k, s, e);
      var i :| 0 <= i < |run| && run[i] == e;
      forall j | 0 <= j < i && run[j].ik.key == k ensures !Shown(run, s, j) {
        assert Less(run[j].ik, run[i].ik) && run[j] in S;
      }
      assert Live(run, s, i);
    }
  }

  lemma LiveIsVisible(run: seq<Entry>, s: nat, i: nat)
    requires Sorted(run) && Live(run, s, i)
    ensures IsVisible(Contents(run), run[i].ik.key, s, run[i])
  {
    forall e | e in Contents(run) && Candidate(run[i].ik.key, s, e) ensures e.ik.seqno <= run[i].ik.seqno {
      var j :| 0 <= j < |run| && run[j] == e;
      assert Shown(run, s, j);
      assert i < j ==> Less(run[i].ik, run[j].ik);
    }
  }

  // ------------------------------------------------------------------------ moving forward

  /** The forward scan at position `at`, looking for the first live entry after `lo`: what has been
      passed is not live, and the skip key hides exactly what it should. */
  ghost predicate Scanning(run: seq<Entry>, s: nat, lo: int, at: int, skip: Option<UserKey>) {
    && 0 <= at <= |run| && lo < |run|
    && NoLive(run, s, lo, at)
    && (forall j, i :: 0 <= j < at <= i < |run| && Shown(run, s, j) && run[j].ik.key == run[i].ik.key
          ==> skip.Some? && run[j].ik.key <= skip.value)
    && (skip.Some? ==> forall i :: at <= i < |run| && lo < i && run[i].ik.key <= skip.value ==> !Live(run, s, i))
    && (at <= lo ==> Live(run, s, lo) && skip.Some? && run[lo].ik.key <= skip.value)
    && (forall i :: at <= i < lo ==> !Shown(run, s, i))
  }

  lemma ScanPastHidden(run: seq<Entry>, s: nat, lo: int, at: nat, skip: Option<UserKey>)
    requires Sorted(run) && Scanning(run, s, lo, at, skip) && at < |run|
    requires !Shown(run, s, at) || (run[at].ik.kind.Put? && skip.Some? && run[at].ik.key <= skip.value)
    ensures Scanning(run, s, lo, at + 1, skip)
  {
  }

  lemma ScanPastDeletion(run: seq<Entry>, s: nat, lo: int, at: nat, skip: Option<UserKey>)
    requires Sorted(run) && Scanning(run, s, lo, at, skip) && at < |run|
    requires Shown(run, s, at) && run[at].ik.kind.Deletion?
    ensures Scanning(run, s, lo, at + 1, Some(run[at].ik.key))
  {
    var k := run[at].ik.key;
    forall j, i | 0 <= j < at + 1 <= i < |run| && run[j].ik.key == run[i].ik.key ensures run[j].ik.key <= k {
      KeysOrdered(run, j, at);
    }
    forall i | at + 1 <= i < |run| && run[i].ik.key <= k ensures !Live(run, s, i) {
      KeysOrdered(run, at, i);
    }
  }

  lemma ScanFound(run: seq<Entry>, s: nat, lo: int, at: nat, skip: Option<UserKey>)
    requires Sorted(run) && Scanning(run, s, lo, at, skip) && at < |run|
    requires Shown(run, s, at) && run[at].ik.kind.Put? && !(skip.Some? && run[at].ik.key <= skip.value)
    ensures lo < at && Live(run, s, at)
  {
  }

  /** Starting after the current entry, from its position or from just before its key's entries. */
  lemma ScanFromCurrent(run: seq<Entry>, s: nat, cur: nat, at: nat)
    requires Sorted(run) && Live(run, s, cur) && at <= cur && forall i :: at <= i < cur ==> !Shown(run, s, i)
    ensures Scanning(run, s, cur, at, Some(run[cur].ik.key))
  {
    var k := run[cur].ik.key;
    forall j, i | 0 <= j < at <= i < |run| && run[j].ik.key == run[i].ik.key ensures run[j].ik.key <= k {
      KeysOrdered(run, j, cur);
    }
    forall i | cur < i < |run| && run[i].ik.key <= k ensures !Live(run, s, i) {
      KeysOrdered(run, cur, i);
    }
  }

  lemma ScanFromSeek(run: seq<Entry>, s: nat, k: UserKey, at: nat)
    requires Sorted(run) && at == SeekIndex(run, LookupKey(k, s))
    ensures Scanning(run, s, at - 1, at, None)
    ensures forall i :: Live(run, s, i) && run[i].ik.key >= k <==> Live(run, s, i) && i >= at
  {
    forall j | 0 <= j < |run| ensures j < at && Shown(run, s, j) ==> run[j].ik.key < k {
      VisibleIffAtOrAfterLookupKey(run[j].ik, s);
    }
    forall i | at <= i < |run| ensures run[i].ik.key >= k {
      KeysOrdered(run, at, i);
    }
  }

  lemma ScanFromStart(run: seq<Entry>, s: nat)
    ensures Scanning(run, s, -1, 0, None)
  {
  }

  // ----------------------------------------------------------------------- moving backward

  /** The backward scan at position `at`, looking for the last live entry before `hi`, with the latest
      visible entry passed as its candidate. */
  ghost predicate Backing(run: seq<Entry>, s: nat, at: int, hi: int, candidate: Option<nat>) {
    && -1 <= at < |run| && at < hi <= |run|
    && match candidate
       case None => NoLive(run, s, at, hi)
       case Some(c) =>
         && at < c < hi && Shown(run, s, c) && run[c].ik.kind.Put? && NoLive(run, s, c, hi)
         && forall i :: at < i < c ==> !Shown(run, s, i)
  }

  lemma BackPastHidden(run: seq<Entry>, s: nat, at: nat, hi: int, candidate: Option<nat>)
    requires Backing(run, s, at, hi, candidate) && !Shown(run, s, at)
    ensures Backing(run, s, at - 1, hi, candidate)
  {
  }

  lemma BackPastShown(run: seq<Entry>, s: nat, at: nat, hi: int, candidate: Option<nat>)
    requires Sorted(run) && Backing(run, s, at, hi, candidate) && Shown(run, s, at)
    requires candidate.Some? ==> run[at].ik.key >= run[candidate.value].ik.key
    ensures Backing(run, s, at - 1, hi, if run[at].ik.kind.Put? then Some(at) else None)
  {
    if candidate.Some? {
      KeysOrdered(run, at, candidate.value);
    }
  }

  lemma BackFound(run: seq<Entry>, s: nat, at: int, hi: int, c: nat)
    requires Sorted(run) && Backing(run, s, at, hi, Some(c)) && (at >= 0 ==> run[at].ik.key < run[c].ik.key)
    ensures Live(run, s, c)
  {
    forall j | 0 <= j < c && run[j].ik.key == run[c].ik.key ensures !Shown(run, s, j) {
      if j <= at {
        KeysOrdered(run, j, at);
      }
    }
  }

  lemma BackFromCurrent(run: seq<Entry>, s: nat, at: int, cur: nat)
    requires Live(run, s, cur) && -1 <= at < cur
    requires forall i :: at < i < cur ==> run[i].ik.key == run[cur].ik.key || !Shown(run, s, i)
    ensures Backing(run, s, at, cur, None)
  {
  }

  // --------------------------------------------------------------------------------- DBIter

  lemma Where(iter: Iterator)
    requires iter.Invariant()
    ensures iter.Valid() <==> 0 <= iter.at < |iter.merged|
    ensures -1 <= iter.at <= |iter.merged| && Sorted(iter.merged)
  {
    hide Sorted;
  }

  lemma ShownAt(run: seq<Entry>, s: nat, i: nat)
    requires i < |run|
    ensures Shown(run, s, i) <==> run[i].ik.seqno <= s
  {
  }

  lemma CurrentInRun(run: seq<Entry>, s: nat, i: int)
    requires Live(run, s, i)
    ensures 0 <= i < |run|
  {
  }

  lemma ScanPassed(run: seq<Entry>, s: nat, lo: int, at: int, skip: Option<UserKey>)
    requires Scanning(run, s, lo, at, skip)
    ensures NoLive(run, s, lo, at)
  {
    hide NoLive, Live;
  }

  lemma BackingFacts(run: seq<Entry>, s: nat, at: int, hi: int, candidate: Option<nat>)
    requires Backing(run, s, at, hi, candidate)
    ensures -1 <= at < |run| && at < hi <= |run|
    ensures candidate.None? ==> NoLive(run, s, at, hi)
    ensures candidate.Some? ==> at < candidate.value < hi && NoLive(run, s, candidate.value, hi)
    ensures candidate.Some? ==> forall i :: at < i < candidate.value ==> !Shown(run, s, i)
  {
    hide NoLive, Shown;
  }

  class DBIter {
    const iter: Iterator
    const sequence: nat
    var forward: bool
    var valid: bool
    var savedKey: Option<UserKey>
    var savedValue: Bytes

    /** The live entry the iterator stands on. */
    ghost var cur: int

    /** Moving forward, the internal iterator is on the current entry; moving backward, it is before
        all visible entries of the current key. */
    ghost predicate Invariant()
      reads this, iter
    {
      && iter.Invariant() && Sorted(iter.merged)
      && (valid ==> Live(iter.merged, sequence, cur))
      && (valid && forward ==> iter.at == cur)
      && (valid && !forward ==>
            && savedKey == Some(iter.merged[cur].ik.key) && savedValue == iter.merged[cur].value
            && -1 <= iter.at < cur && forall i :: iter.at < i < cur ==> !Shown(iter.merged, sequence, i))
    }

    constructor (iter: Iterator, sequence: nat)
      requires iter.Invariant()
      ensures Invariant() && this.iter == iter && this.sequence == sequence && !valid
    {
      this.iter, this.sequence := iter, sequence;
      forward, valid, savedKey, savedValue := true, false, None, [];
      new;
      Where(iter);
    }

    function Key(): (k: UserKey)
      requires Invariant() && valid
      reads this, iter
      ensures k == iter.merged[cur].ik.key
    {
      if forward then Where(iter); iter.Current().ik.key else savedKey.value
    }

    function Value(): (v: Bytes)
      requires Invariant() && valid
      reads this, iter
      ensures v == iter.merged[cur].value
    {
      if forward then Where(iter); iter.Current().value else savedValue
    }

    method FindNextUserEntry(skipping: bool, ghost lo: int)
      requires iter.Invariant() && iter.Valid() && forward
      requires skipping ==> savedKey.Some?
      requires Sorted(iter.merged) && Scanning(iter.merged, sequence, lo, iter.at, if skipping then savedKey else None)
      modifies this, iter
      ensures Invariant() && forward
      ensures valid ==> lo < cur && NoLive(iter.merged, sequence, lo, cur)
      ensures !valid ==> NoLive(iter.merged, sequence, lo, |iter.merged|)
    {
      hide Sorted, Live, NoLive, Scanning, Shown, Iterator.Invariant, Iterator.Valid;
      ghost var run := iter.merged;
      var skip := if skipping then savedKey else None;
      while true
        invariant iter.Invariant() && iter.Valid() && forward && Sorted(run)
        invariant Scanning(run, sequence, lo, iter.at, skip)
        decreases |run| - iter.at
      {
        Where(iter);
        var e := iter.Current();
        ShownAt(run, sequence, iter.at);
        if e.ik.seqno <= sequence && e.ik.kind.Deletion? {
          ScanPastDeletion(run, sequence, lo, iter.at, skip);
          skip := Some(e.ik.key);
        } else if e.ik.seqno <= sequence && !(skip.Some? && e.ik.key <= skip.value) {
          ScanFound(run, sequence, lo, iter.at, skip);
          ScanPassed(run, sequence, lo, iter.at, skip);
          valid, savedKey := true, None;
          cur := iter.at;
          return;
        } else {
          ScanPastHidden(run, sequence, lo, iter.at, skip);
        }
        iter.Next();
        if !iter.Valid() {
          break;
        }
      }
      Where(iter);
      ScanPassed(run, sequence, lo, iter.at, skip);
      valid, savedKey := false, None;
    }

    /** Step to the next live entry. */
    method Next()
      requires Invariant() && valid
      modifies this, iter
      ensures Invariant() && forward
      ensures valid ==> old(cur) < cur && NoLive(iter.merged, sequence, old(cur), cur)
      ensures !valid ==> NoLive(iter.merged, sequence, old(cur), |iter.merged|)
    {
      hide Sorted, NoLive, Scanning, Shown, Iterator.Invariant, Iterator.Valid;
      ghost var run, lo := iter.merged, cur;
      CurrentInRun(run, sequence, lo);
      Where(iter);
      if !forward {
        forward := true;
        if !iter.Valid() {
          iter.SeekToFirst();
        } else {
          iter.Next();
        }
        Where(iter);
      } else {
        Where(iter);
        savedKey := Some(iter.Current().ik.key);
      }
      ScanFromCurrent(run, sequence, lo, iter.at);
      FindNextUserEntry(true, lo);
    }

    method FindPrevUserEntry(ghost hi: int)
      requires iter.Invariant() && !forward && Sorted(iter.merged)
      requires Backing(iter.merged, sequence, iter.at, hi, None)
      modifies this, iter
      ensures Invariant()
      ensures valid ==> cur < hi && NoLive(iter.merged, sequence, cur, hi)
      ensures !valid ==> NoLive(iter.merged, sequence, -1, hi)
    {
      hide Sorted, Live, NoLive, Backing, Shown, Iterator.Invariant, Iterator.Valid;
      ghost var run := iter.merged;
      ghost var candidate: Option<nat> := None;
      var valueType := Deletion;
      BackingFacts(run, sequence, iter.at, hi, candidate);
      while iter.Valid()
        invariant iter.Invariant() && !forward && Sorted(run) && -1 <= iter.at
        invariant Backing(run, sequence, iter.at, hi, candidate)
        invariant valueType.Deletion? <==> candidate.None?
        invariant candidate.Some? ==> candidate.value < |run|
        invariant candidate.Some? ==> savedKey == Some(run[candidate.value].ik.key) && savedValue == run[candidate.value].value
        decreases iter.at + 1
      {
        Where(iter);
        var e := iter.Current();
        ShownAt(run, sequence, iter.at);
        if e.ik.seqno <= sequence {
          if !valueType.Deletion? && e.ik.key < savedKey.value {
            break;
          }
          BackPastShown(run, sequence, iter.at, hi, candidate);
          valueType := e.ik.kind;
          if valueType.Deletion? {
            savedKey, savedValue := None, [];
            candidate := None;
          } else {
            savedKey, savedValue := Some(e.ik.key), e.value;
            candidate := Some(iter.at);
          }
        } else {
          BackPastHidden(run, sequence, iter.at, hi, candidate);
        }
        iter.Prev();
      }
      BackingFacts(run, sequence, iter.at, hi, candidate);
      if valueType.Deletion? {
        Where(iter);
        valid, savedKey, savedValue, forward := false, None, [], true;
      } else {
        if !iter.Valid() {
          Where(iter);
        }
        BackFound(run, sequence, iter.at, hi, candidate.value);
        valid := true;
        cur := candidate.value;
      }
    }

    /** Step to the previous live entry. */
    method Prev()
      requires Invariant() && valid
      modifies this, iter
      ensures Invariant()
      ensures valid ==> cur < old(cur) && NoLive(iter.merged, sequence, cur, old(cur))
      ensures !valid ==> NoLive(iter.merged, sequence, -1, old(cur))
    {
      hide Sorted, NoLive, Backing, Shown, Iterator.Invariant, Iterator.Valid;
      ghost var run, hi := iter.merged, cur;
      CurrentInRun(run, sequence, hi);
      if forward {
        Where(iter);
        savedKey := Some(iter.Current().ik.key);
        while true
          invariant iter.Invariant() && iter.Valid() && 0 <= iter.at <= hi && savedKey == Some(run[hi].ik.key)
          invariant forall i :: iter.at <= i < hi ==> run[i].ik.key == run[hi].ik.key
          invariant Sorted(run) && Live(run, sequence, hi)
          decreases iter.at
        {
          iter.Prev();
          if !iter.Valid() {
            Where(iter);
            BackFromCurrent(run, sequence, -1, hi);
            BackingFacts(run, sequence, -1, hi, None);
            valid, savedKey, savedValue := false, None, [];
            return;
          }
          Where(iter);
          if iter.Current().ik.key < savedKey.value {
            break;
          }
          KeysOrdered(run, iter.at, hi);
        }
        forward := false;
      }
      BackFromCurrent(run, sequence, iter.at, hi);
      FindPrevUserEntry(hi);
    }

    /** Stand on the first live entry whose key is at or after `target`. */
    method Seek(target: UserKey)
      requires Invariant()
      modifies this, iter
      ensures Invariant() && forward
      ensures valid ==> iter.merged[cur].ik.key >= target
      ensures forall i :: Live(iter.merged, sequence, i) && iter.merged[i].ik.key >= target ==> valid && cur <= i
    {
      hide Sorted, Scanning, Iterator.Invariant, Iterator.Valid;
      forward, savedKey, savedValue := true, None, [];
      iter.Seek(LookupKey(target, sequence));
      ghost var run, at := iter.merged, iter.at;
      ScanFromSeek(run, sequence, target, at);
      if iter.Valid() {
        FindNextUserEntry(false, at - 1);
      } else {
        Where(iter);
        valid := false;
      }
    }

    method SeekToFirst()
      requires Invariant()
      modifies this, iter
      ensures Invariant() && forward
      ensures forall i :: Live(iter.merged, sequence, i) ==> valid && cur <= i
    {
      hide Sorted, Scanning, Iterator.Invariant, Iterator.Valid;
      forward, savedValue := true, [];
      iter.SeekToFirst();
      ScanFromStart(iter.merged, sequence);
      if iter.Valid() {
        FindNextUserEntry(false, -1);
      } else {
        Where(iter);
        valid := false;
      }
    }

    method SeekToLast()
      requires Invariant()
      modifies this, iter
      ensures Invariant()
      ensures forall i :: Live(iter.merged, sequence, i) ==> valid && i <= cur
    {
      forward, savedValue := false, [];
      iter.SeekToLast();
      assert Backing(iter.merged, sequence, iter.at, |iter.merged|, None);
      hide Sorted, Backing, Shown, Iterator.Invariant, Iterator.Valid;
      FindPrevUserEntry(|iter.merged|);
    }
  }
}
