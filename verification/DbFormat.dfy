/** Internal keys, entries and sorted runs: the vocabulary shared by memtables, table files and
    iterators.

    A user comparator is a total order on byte strings.  The model's user keys are reals, ordered
    by `<`: `BytewiseOrderEmbeds` proves that the bytewise comparator is an order embedding into the
    reals, so every statement about real keys is a statement about byte-string keys. */
module DbFormat {
  newtype byte = x: int | 0 <= x < 256

  type Bytes = seq<byte>

  type UserKey = real

  datatype Option<+T> = None | Some(value: T)

  /** Kinds of entry; the numeric codes 0 and 1 are the low byte of a tag. */
  datatype ValueType = Deletion | Put

  /** Sequence numbers are 56-bit: the tag packs one of them with a kind into 64 bits. */
  const MAX_SEQUENCE_NUMBER: nat := 0xFF_FFFF_FFFF_FFFF

  datatype InternalKey = InternalKey(key: UserKey, seqno: nat, kind: ValueType) {
    /** The packed trailer of an encoded internal key. */
    function Tag(): nat {
      seqno * 256 + if kind.Put? then 1 else 0
    }
  }

  datatype Entry = Entry(ik: InternalKey, value: Bytes)

  /** Increasing user key, then decreasing sequence number, then decreasing kind. */
  predicate Less(a: InternalKey, b: InternalKey) {
    a.key < b.key || (a.key == b.key && a.Tag() > b.Tag())
  }

  predicate AtMost(a: InternalKey, b: InternalKey) {
    !Less(b, a)
  }

  /** The internal order is a strict total order whose only ties are equal keys. */
  lemma LessIsTotalOrder(a: InternalKey, b: InternalKey, c: InternalKey)
    ensures !Less(a, a)
    ensures Less(a, b) && Less(b, c) ==> Less(a, c)
    ensures Less(a, b) || Less(b, a) || a == b
  {
    if a.key == b.key && a.Tag() == b.Tag() {
      assert a.Tag() % 256 == b.Tag() % 256;
      assert a.kind == b.kind;
    }
  }

  /** The key a reader seeks to: the earliest internal key of `k` visible at `snapshot`. */
  function LookupKey(k: UserKey, snapshot: nat): (r: InternalKey) {
    InternalKey(k, snapshot, Put)
  }

  /** An entry of `k` is visible at a snapshot exactly when it is not before the lookup key. */
  lemma VisibleIffAtOrAfterLookupKey(ik: InternalKey, snapshot: nat)
    ensures ik.seqno <= snapshot <==> AtMost(LookupKey(ik.key, snapshot), ik)
  {
    if ik.seqno > snapshot {
      assert ik.Tag() >= (snapshot + 1) * 256;
    }
  }

  // ---------------------------------------------------------------------------------- runs

  /** A run is the contents of one memtable or one table file. */
  predicate Sorted(run: seq<Entry>) {
    forall i, j :: 0 <= i < j < |run| ==> Less(run[i].ik, run[j].ik)
  }

  function Contents(run: seq<Entry>): set<Entry> {
    set e | e in run
  }

  /** Index of the first entry at or after `target`; `|run|` when there is none.  This is what
      seeking a memtable's skip list or a table's iterator computes. */
  function SeekIndex(run: seq<Entry>, target: InternalKey): (i: nat)
    ensures i <= |run|
    ensures forall j :: 0 <= j < i ==> Less(run[j].ik, target)
    ensures i < |run| ==> AtMost(target, run[i].ik)
  {
    if run == [] || AtMost(target, run[0].ik) then 0
    else 1 + SeekIndex(run[1..], target)
  }

  // ----------------------------------------------------------------- the bytewise comparator

  /** Bytewise lexicographic order, a proper prefix first. */
  predicate BytewiseLess(a: Bytes, b: Bytes) {
    b != [] && (a == [] || a[0] < b[0] || (a[0] == b[0] && BytewiseLess(a[1..], b[1..])))
  }

  /** The position of a byte string on the real line, read as a base-257 fraction. */
  function Rank(a: Bytes): (r: real)
    ensures 0.0 <= r < 1.0
  {
    if a == [] then 0.0 else ((a[0] as int + 1) as real + Rank(a[1..])) / 257.0
  }

  lemma {:induction false} BytewiseOrderEmbeds(a: Bytes, b: Bytes)
    ensures BytewiseLess(a, b) <==> Rank(a) < Rank(b)
    ensures a == b <==> Rank(a) == Rank(b)
  {
    if a != [] && b != [] {
      BytewiseOrderEmbeds(a[1..], b[1..]);
      if a[0] == b[0] {
        assert a == [a[0]] + a[1..] && b == [b[0]] + b[1..];
      }
    }
  }
}
