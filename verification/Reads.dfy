/** What a read means.

    A set of entries answers a read of `k` at snapshot `s` with the newest entry of `k` whose
    sequence number is at most `s`.  Independently, a history of operations answers it with the map
    obtained by replaying its first `s` operations.  `ReplayIsRead` connects the two. */
module Reads {
  import opened DbFormat

  // ------------------------------------------------------------------ reading a set of entries

  predicate Candidate(k: UserKey, s: nat, e: Entry) {
    e.ik.key == k && e.ik.seqno <= s
  }

  ghost predicate IsVisible(S: set<Entry>, k: UserKey, s: nat, e: Entry) {
    && e in S && Candidate(k, s, e)
    && forall e' :: e' in S && Candidate(k, s, e') ==> e'.ik.seqno <= e.ik.seqno
  }

  /** No two entries share a sequence number. */
  ghost predicate Distinct(S: set<Entry>) {
    forall e, e' :: e in S && e' in S && e.ik.seqno == e'.ik.seqno ==> e == e'
  }

  function Outcome(e: Entry): (r: Option<Bytes>) {
    if e.ik.kind.Put? then Some(e.value) else None
  }

  ghost function Read(S: set<Entry>, k: UserKey, s: nat): (r: Option<Bytes>) {
    if e :| IsVisible(S, k, s, e) then Outcome(e) else None
  }

  lemma {:induction false} VisibleExists(S: set<Entry>, k: UserKey, s: nat, e: Entry)
    requires e in S && Candidate(k, s, e)
    ensures exists m :: IsVisible(S, k, s, m)
    decreases s - e.ik.seqno
  {
    if !IsVisible(S, k, s, e) {
      var e' :| e' in S && Candidate(k, s, e') && e'.ik.seqno > e.ik.seqno;
      VisibleExists(S, k, s, e');
    }
  }

  lemma ReadVisible(S: set<Entry>, k: UserKey, s: nat, e: Entry)
    requires Distinct(S) && IsVisible(S, k, s, e)
    ensures Read(S, k, s) == Outcome(e)
  {
    forall m | IsVisible(S, k, s, m) ensures m == e {
      assert m.ik.seqno == e.ik.seqno;
    }
  }

  lemma ReadAbsent(S: set<Entry>, k: UserKey, s: nat)
    requires forall e :: e in S ==> !Candidate(k, s, e)
    ensures Read(S, k, s) == None
  {
  }

  /** Two sets of entries answer every read at or above `low` alike. */
  ghost predicate Agree(S: set<Entry>, T: set<Entry>, low: nat) {
    forall k, s :: s >= low ==> Read(S, k, s) == Read(T, k, s)
  }

  // -------------------------------------------------------------------- replaying a history

  datatype Op = Op(kind: ValueType, key: UserKey, value: Bytes)

  /** The map a sequence of operations leaves behind. */
  function Replay(ops: seq<Op>): (m: map<UserKey, Bytes>) {
    if ops == [] then map[]
    else
      var m, op := Replay(ops[..|ops| - 1]), ops[|ops| - 1];
      if op.kind.Put? then m[op.key := op.value] else m - {op.key}
  }

  function Lookup(m: map<UserKey, Bytes>, k: UserKey): (r: Option<Bytes>) {
    if k in m then Some(m[k]) else None
  }

  /** The operation at index `i` of the history carries sequence number `i + 1`. */
  function EntryAt(ops: seq<Op>, i: nat): (e: Entry)
    requires i < |ops|
  {
    Entry(InternalKey(ops[i].key, i + 1, ops[i].kind), ops[i].value)
  }

  function EntriesOf(ops: seq<Op>): (S: set<Entry>)
    ensures forall e :: e in S <==> exists i :: 0 <= i < |ops| && e == EntryAt(ops, i)
  {
    set i | 0 <= i < |ops| :: EntryAt(ops, i)
  }

  /** Entries are determined by their sequence number. */
  lemma EntriesOfBySeqno(ops: seq<Op>, e: Entry)
    requires e in EntriesOf(ops)
    ensures 1 <= e.ik.seqno <= |ops| && e == EntryAt(ops, e.ik.seqno - 1)
  {
  }

  lemma EntriesOfDistinct(ops: seq<Op>)
    ensures Distinct(EntriesOf(ops))
  {
  }

  lemma EntriesOfSnoc(ops: seq<Op>, op: Op)
    ensures EntriesOf(ops + [op]) == EntriesOf(ops) + {EntryAt(ops + [op], |ops|)}
  {
    var more := ops + [op];
    forall i | 0 <= i < |ops| ensures EntryAt(more, i) == EntryAt(ops, i) {
    }
    forall e | e in EntriesOf(more)
      ensures e in EntriesOf(ops) + {EntryAt(more, |ops|)}
    {
      var i :| 0 <= i < |more| && e == EntryAt(more, i);
    }
    forall e | e in EntriesOf(ops)
      ensures e in EntriesOf(more)
    {
      var i :| 0 <= i < |ops| && e == EntryAt(ops, i);
      assert e == EntryAt(more, i);
    }
    assert EntryAt(more, |ops|) in EntriesOf(more);
  }

  /** Adding the entry with the greatest sequence number so far: a read at or above it of its own
      key returns it, and every other read is unchanged. */
  lemma ReadAfterAdd(S: set<Entry>, e: Entry, k: UserKey, s: nat)
    requires Distinct(S + {e})
    requires forall x :: x in S ==> x.ik.seqno < e.ik.seqno
    ensures Read(S + {e}, k, s) == if Candidate(k, s, e) then Outcome(e) else Read(S, k, s)
  {
    if Candidate(k, s, e) {
      ReadVisible(S + {e}, k, s, e);
    } else if m :| IsVisible(S, k, s, m) {
      ReadVisible(S, k, s, m);
      ReadVisible(S + {e}, k, s, m);
    } else {
      forall x | x in S ensures !Candidate(k, s, x) {
        if Candidate(k, s, x) {
          VisibleExists(S, k, s, x);
        }
      }
      ReadAbsent(S + {e}, k, s);
    }
  }

  /** Reading the entries of a history at snapshot `s` is looking up the replay of its first `s`
      operations. */
  lemma {:induction false} ReplayIsRead(ops: seq<Op>, k: UserKey, s: nat)
    ensures Read(EntriesOf(ops), k, s)
         == Lookup(Replay(if s <= |ops| then ops[..s] else ops), k)
    decreases |ops|
  {
    if ops == [] {
      ReadAbsent({}, k, s);
      assert EntriesOf(ops) == {};
      assert s <= |ops| ==> ops[..s] == [];
    } else {
      var init, op := ops[..|ops| - 1], ops[|ops| - 1];
      assert ops == init + [op];
      var e := EntryAt(ops, |init|);
      EntriesOfSnoc(init, op);
      EntriesOfDistinct(ops);
      forall x | x in EntriesOf(init) ensures x.ik.seqno < e.ik.seqno {
        EntriesOfBySeqno(init, x);
      }
      ReadAfterAdd(EntriesOf(init), e, k, s);
      ReplayIsRead(init, k, s);
      if s <= |init| {
        assert ops[..s] == init[..s];
      } else {
        assert s == |ops| ==> ops[..s] == ops;
      }
    }
  }

  /** Appending one operation to a history and its entry to a store that agrees with it. */
  lemma AgreeAfterAdd(S: set<Entry>, ops: seq<Op>, op: Op, low: nat)
    requires S <= EntriesOf(ops) && Agree(S, EntriesOf(ops), low)
    ensures var e := EntryAt(ops + [op], |ops|);
            S + {e} <= EntriesOf(ops + [op]) && Agree(S + {e}, EntriesOf(ops + [op]), low)
  {
    var e := EntryAt(ops + [op], |ops|);
    EntriesOfSnoc(ops, op);
    EntriesOfDistinct(ops + [op]);
    forall x | x in EntriesOf(ops) ensures x.ik.seqno < e.ik.seqno {
      EntriesOfBySeqno(ops, x);
    }
    forall k, s | s >= low
      ensures Read(S + {e}, k, s) == Read(EntriesOf(ops + [op]), k, s)
    {
      ReadAfterAdd(S, e, k, s);
      ReadAfterAdd(EntriesOf(ops), e, k, s);
    }
  }
}
