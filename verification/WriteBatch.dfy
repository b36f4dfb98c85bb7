/** Write batches as bytes: how a batch is built, merged into another, written to a log and read back. */
module WriteBatch {
  import opened DbFormat
  import opened PbVarint
  import opened Coding
  import opened Crc
  import opened Reads
  import opened MemTable
  import EditCodec
  import Log
  import LogReader

  const HEADER: nat := 12

  datatype BatchOp = Put(key: Bytes, value: Bytes) | Delete(key: Bytes) {
    /** The operation on the key's place in the order. */
    function Meaning(): Op {
      match this
      case Put(key, value) => Op(ValueType.Put, Rank(key), value)
      case Delete(key) => Op(Deletion, Rank(key), [])
    }

    /** Lengths are stored in 32 bits. */
    predicate Fits() {
      |key| < TWO_32 && (Put? ==> |value| < TWO_32)
    }
  }

  /** A length, cut to 32 bits, and the bytes. */
  function Sized(b: Bytes): Bytes {
    Varint(|b| % TWO_32) + b
  }

  function OpBytes(op: BatchOp): Bytes {
    match op
    case Put(key, value) => [1] + Sized(key) + Sized(value)
    case Delete(key) => [0] + Sized(key)
  }

  ghost function OpsBytes(ops: seq<BatchOp>): Bytes {
    if ops == [] then [] else OpsBytes(ops[..|ops| - 1]) + OpBytes(ops[|ops| - 1])
  }

  ghost predicate AllFit(ops: seq<BatchOp>) {
    forall i :: 0 <= i < |ops| ==> ops[i].Fits()
  }

  lemma {:induction false} OpsBytesConcat(a: seq<BatchOp>, b: seq<BatchOp>)
    ensures OpsBytes(a + b) == OpsBytes(a) + OpsBytes(b)
    decreases |b|
  {
    hide OpBytes;
    if b == [] {
      assert a + b == a;
    } else {
      assert (a + b)[..|a + b| - 1] == a + b[..|b| - 1];
      OpsBytesConcat(a, b[..|b| - 1]);
    }
  }

  lemma OneOp(op: BatchOp)
    ensures OpsBytes([op]) == OpBytes(op)
  {
    hide OpBytes;
    assert [op][..0] == [];
  }

  /** A batch in bytes: the sequence number, the number of operations, the operations. */
  ghost function Encoding(seqno: nat, ops: seq<BatchOp>): Bytes {
    Digits(seqno, 8) + EncodeFixed32(|ops| % TWO_32) + OpsBytes(ops)
  }

  lemma HeaderIs(seqno: nat, ops: seq<BatchOp>)
    requires seqno < TWO_64
    ensures |Encoding(seqno, ops)| >= HEADER && Undigits(Encoding(seqno, ops)[..8]) == seqno
    ensures DecodeFixed32(Encoding(seqno, ops)[8..]) == |ops| % TWO_32 && Encoding(seqno, ops)[HEADER..] == OpsBytes(ops)
    ensures Encoding(seqno, ops)[..8] == Digits(seqno, 8) && Encoding(seqno, ops)[8..HEADER] == EncodeFixed32(|ops| % TWO_32)
  {
    hide Digits, Undigits, EncodeFixed32, DecodeFixed32, OpsBytes, Pow256;
    var rep, a, b, c := Encoding(seqno, ops), Digits(seqno, 8), EncodeFixed32(|ops| % TWO_32), OpsBytes(ops);
    assert rep == a + b + c;
    assert rep[..8] == a && rep[8..] == b + c && rep[HEADER..] == c && rep[8..HEADER] == b;
    FixedWidths();
    DigitsRoundTrip(seqno, 8);
    Fixed32RoundTrip(|ops| % TWO_32, c);
  }

  lemma WithHeader(rep: Bytes, seqno: nat, ops: seq<BatchOp>)
    requires |rep| >= HEADER && rep[..8] == Digits(seqno, 8) && rep[8..HEADER] == EncodeFixed32(|ops| % TWO_32) && rep[HEADER..] == OpsBytes(ops)
    ensures rep == Encoding(seqno, ops)
  {
    hide Digits, EncodeFixed32, OpsBytes;
    assert rep == rep[..8] + rep[8..HEADER] + rep[HEADER..];
  }

  // ------------------------------------------------------------------------------- building

  class Batch {
    var rep: Bytes
    ghost var seqno: nat
    ghost var ops: seq<BatchOp>

    ghost predicate Valid()
      reads this
    {
      seqno < TWO_64 && rep == Encoding(seqno, ops)
    }

    constructor ()
      ensures Valid() && seqno == 0 && ops == []
    {
      rep, seqno, ops := seq(HEADER, _ => 0), 0, [];
      new;
      EmptyEncoding(rep);
    }

    function Count(): nat
      requires |rep| >= HEADER
      reads this
    {
      DecodeFixed32(rep[8..])
    }

    /** Replace the count. */
    method SetCount(n: nat)
      requires |rep| >= HEADER
      modifies this`rep
      ensures rep == old(rep)[..8] + EncodeFixed32(n % TWO_32) + old(rep)[HEADER..]
    {
      rep := rep[..8] + EncodeFixed32(n % TWO_32) + rep[HEADER..];
    }

    method SetSequence(n: nat)
      requires Valid() && n < TWO_64
      modifies this`rep, this`seqno
      ensures Valid() && seqno == n && ops == old(ops)
    {
      hide *;
      HeaderSize();
      ValidUnfolds(this);
      HeaderIs(seqno, ops);
      SeqnoReplaced(rep, seqno, ops, n);
      rep := Digits(n, 8) + rep[8..];
      seqno := n;
      ValidFolds(this);
    }

    /** Count one more, append the operation's bytes. */
    method Add(op: BatchOp)
      requires Valid()
      modifies this
      ensures Valid() && seqno == old(seqno) && ops == old(ops) + [op]
    {
      hide *;
      ValidUnfolds(this);
      HeaderIs(seqno, ops);
      CountIs(this);
      var n := Count();
      SetCount(n + 1);
      rep := rep + OpBytes(op);
      OneOp(op);
      OneMore(|ops|, n);
      Appended(old(rep), seqno, ops, [op], n + 1, OpsBytes([op]), rep);
      ops := ops + [op];
      ValidFolds(this);
    }

    /** Add the counts, append the other batch's operations. */
    method Append(source: Batch)
      requires Valid() && source.Valid()
      modifies this
      ensures Valid() && seqno == old(seqno) && ops == old(ops) + old(source.ops)
    {
      hide *;
      ValidUnfolds(this);
      ValidUnfolds(source);
      HeaderIs(seqno, ops);
      HeaderIs(source.seqno, source.ops);
      CountIs(this);
      CountIs(source);
      var more := source.rep[HEADER..];
      var n := Count() + source.Count();
      SetCount(n);
      rep := rep + more;
      SameCount(|ops|, |old(source.ops)|, n);
      Appended(old(rep), seqno, ops, old(source.ops), n, more, rep);
      ops := ops + old(source.ops);
      ValidFolds(this);
    }
  }

  lemma EmptyEncoding(rep: Bytes)
    requires rep == seq(HEADER, _ => 0)
    ensures rep == Encoding(0, [])
  {
    assert Digits(0, 0) == [] && Digits(0, 1) == [0] && Digits(0, 2) == [0, 0] && Digits(0, 4) == [0, 0, 0, 0];
    assert Digits(0, 8) == [0, 0, 0, 0, 0, 0, 0, 0] && EncodeFixed32(0) == [0, 0, 0, 0];
  }

  lemma ValidUnfolds(b: Batch)
    requires b.Valid()
    ensures b.seqno < TWO_64 && b.rep == Encoding(b.seqno, b.ops)
  {
    hide Encoding;
  }

  lemma ValidFolds(b: Batch)
    requires b.seqno < TWO_64 && b.rep == Encoding(b.seqno, b.ops)
    ensures b.Valid()
  {
    hide Encoding;
  }

  lemma CountIs(b: Batch)
    requires b.Valid() && |b.rep| >= HEADER
    ensures b.Count() == |b.ops| % TWO_32
  {
    hide Encoding, DecodeFixed32;
    HeaderIs(b.seqno, b.ops);
  }

  lemma SeqnoReplaced(rep: Bytes, seqno: nat, ops: seq<BatchOp>, n: nat)
    requires seqno < TWO_64 && |rep| >= HEADER && rep == Encoding(seqno, ops)
    ensures Digits(n, 8) + rep[8..] == Encoding(n, ops)
  {
    hide Digits, EncodeFixed32, OpsBytes, Encoding;
    HeaderIs(seqno, ops);
    var rep' := Digits(n, 8) + rep[8..];
    assert rep'[..8] == Digits(n, 8) && rep'[8..HEADER] == rep[8..HEADER] && rep'[HEADER..] == rep[HEADER..];
    WithHeader(rep', n, ops);
  }

  lemma SameCount(a: nat, b: nat, n: nat)
    requires n == a % TWO_32 + b % TWO_32
    ensures n % TWO_32 == (a + b) % TWO_32
  {
  }

  lemma OneMore(a: nat, n: nat)
    requires n == a % TWO_32
    ensures (n + 1) % TWO_32 == (a + 1) % TWO_32
  {
  }

  lemma Appended(rep: Bytes, seqno: nat, ops: seq<BatchOp>, more: seq<BatchOp>, n: nat, bytes: Bytes, rep': Bytes)
    requires seqno < TWO_64 && |rep| >= HEADER && rep == Encoding(seqno, ops) && n % TWO_32 == |ops + more| % TWO_32 && bytes == OpsBytes(more)
    requires rep' == rep[..8] + EncodeFixed32(n % TWO_32) + rep[HEADER..] + bytes
    ensures rep' == Encoding(seqno, ops + more)
  {
    hide Digits, EncodeFixed32, OpsBytes, Encoding;
    HeaderIs(seqno, ops);
    OpsBytesConcat(ops, more);
    assert rep'[..8] == rep[..8] && rep'[8..HEADER] == EncodeFixed32(n % TWO_32) && rep'[HEADER..] == rep[HEADER..] + bytes;
    WithHeader(rep', seqno, ops + more);
  }

  // -------------------------------------------------------------------------------- reading

  ghost predicate Good(input: Bytes, op: BatchOp, rest: Bytes) {
    op.Fits() && input == OpBytes(op) + rest
  }

  /** One operation: its tag, its key, and a value unless it deletes. */
  method ReadOp(input: Bytes, ghost op: BatchOp, ghost rest: Bytes) returns (r: Option<BatchOp>, left: Bytes)
    requires input != []
    ensures r.Some? ==> |left| < |input| && r.value.Fits() && input[0] == if r.value.Put? then 1 else 0
    ensures input[0] > 1 ==> r == None
    ensures Good(input, op, rest) ==> r == Some(op) && left == rest
  {
    hide Varint, EditCodec.Prefixed, OpBytes;
    var tag, body := input[0], input[1..];
    ghost var value: Bytes := if op.Put? then op.value else [];
    ghost var afterKey := if op.Put? then EditCodec.Prefixed(value) + rest else rest;
    if Good(input, op, rest) {
      OpSplits(op, rest, input);
    }
    left := input;
    if tag > 1 {
      return None, left;
    }
    var ok, key, after := EditCodec.GetPrefixed(body, op.key, afterKey);
    if !ok {
      return None, left;
    }
    if tag == 0 {
      return Some(Delete(key)), after;
    }
    var ok', v, after' := EditCodec.GetPrefixed(after, value, rest);
    if !ok' {
      return None, left;
    }
    return Some(BatchOp.Put(key, v)), after';
  }

  lemma OpSplits(op: BatchOp, rest: Bytes, input: Bytes)
    requires op.Fits() && input == OpBytes(op) + rest
    ensures input != [] && input[0] == (if op.Put? then 1 else 0)
    ensures op.Put? ==> input[1..] == EditCodec.Prefixed(op.key) + (EditCodec.Prefixed(op.value) + rest)
    ensures op.Delete? ==> input[1..] == EditCodec.Prefixed(op.key) + rest
  {
    SizedIs(op.key);
    if op.Put? {
      SizedIs(op.value);
      hide Sized, EditCodec.Prefixed;
      AfterTag(1, EditCodec.Prefixed(op.key), EditCodec.Prefixed(op.value), rest);
    } else {
      hide Sized, EditCodec.Prefixed;
      AfterTag(0, EditCodec.Prefixed(op.key), [], rest);
      assert [0] + EditCodec.Prefixed(op.key) + [] == [0] + EditCodec.Prefixed(op.key) && [] + rest == rest;
    }
  }

  lemma SizedIs(b: Bytes)
    ensures |b| < TWO_32 ==> Sized(b) == EditCodec.Prefixed(b)
  {
    hide Varint;
  }

  lemma AfterTag(tag: byte, a: Bytes, b: Bytes, rest: Bytes)
    ensures ([tag] + a + b + rest)[0] == tag && ([tag] + a + b + rest)[1..] == a + (b + rest)
  {
    assert [tag] + a + b + rest == [tag] + (a + (b + rest));
  }

  /** The stored count, as a signed number. */
  function SignedCount(rep: Bytes): int
    requires |rep| >= HEADER
  {
    ToSigned(DecodeFixed32(rep[8..]), TWO_32)
  }

  /** Hand every operation to the caller, in order; at the end their number must be the stored one. */
  method Iterate(rep: Bytes, ghost seqno: nat, ghost ops: seq<BatchOp>) returns (ok: bool, out: seq<BatchOp>)
    ensures ok ==> |rep| >= HEADER && |out| == SignedCount(rep) && AllFit(out)
    ensures seqno < TWO_64 && rep == Encoding(seqno, ops) && AllFit(ops) && |ops| < TWO_31 ==> ok && out == ops
  {
    hide *;
    out := [];
    ghost var good := seqno < TWO_64 && rep == Encoding(seqno, ops) && AllFit(ops) && |ops| < TWO_31;
    NoneFit();
    if good {
      HeaderIs(seqno, ops);
      CountFits(rep, |ops|);
      OpsLeft(ops, 0);
      assert ops[..0] == [] && ops[0..] == ops;
    }
    HeaderSize();
    if |rep| < HEADER {
      return false, out;
    }
    var input := rep[HEADER..];
    while input != []
      invariant AllFit(out)
      invariant good ==> |out| <= |ops| && out == ops[..|out|] && input == OpsBytes(ops[|out|..])
      decreases |input|
    {
      ghost var op, rest: Bytes := Delete([]), [];
      if good {
        OpsLeft(ops, |out|);
        op, rest := ops[|out|], OpsBytes(ops[|out| + 1..]);
        NextIsGood(ops, |out|, input);
      }
      var r, left := ReadOp(input, op, rest);
      if r.None? {
        return false, out;
      }
      OneMoreFits(out, r.value);
      if good {
        assert ops[..|out| + 1] == ops[..|out|] + [op];
      }
      out, input := out + [r.value], left;
    }
    if good {
      OpsLeft(ops, |out|);
      assert |out| == |ops| ==> ops[..|out|] == ops;
    }
    ok := |out| == SignedCount(rep);
  }

  lemma HeaderSize()
    ensures HEADER == 12
  {
  }

  lemma NoneFit()
    ensures AllFit([])
  {
  }

  lemma OneMoreFits(out: seq<BatchOp>, op: BatchOp)
    requires AllFit(out) && op.Fits()
    ensures AllFit(out + [op])
  {
  }

  lemma CountFits(rep: Bytes, n: nat)
    requires |rep| >= HEADER && DecodeFixed32(rep[8..]) == n % TWO_32 && n < TWO_31
    ensures SignedCount(rep) == n
  {
    hide DecodeFixed32;
  }

  lemma OpsLeft(ops: seq<BatchOp>, n: nat)
    requires n <= |ops|
    ensures OpsBytes(ops[n..]) != [] <==> n < |ops|
    ensures n < |ops| ==> OpsBytes(ops[n..]) == OpBytes(ops[n]) + OpsBytes(ops[n + 1..])
  {
    if n < |ops| {
      assert ops[n..] == [ops[n]] + ops[n + 1..];
      OpsBytesConcat([ops[n]], ops[n + 1..]);
      OneOp(ops[n]);
      assert OpBytes(ops[n]) != [];
      hide OpBytes, OpsBytes;
    }
  }

  lemma NextIsGood(ops: seq<BatchOp>, n: nat, input: Bytes)
    requires AllFit(ops) && n < |ops| && input == OpBytes(ops[n]) + OpsBytes(ops[n + 1..])
    ensures Good(input, ops[n], OpsBytes(ops[n + 1..]))
  {
    hide OpBytes, OpsBytes, BatchOp.Fits;
  }

  // ---------------------------------------------------------------------- batches in a log

  /** What is written for one group of writers. */
  datatype Written = Written(seqno: nat, ops: seq<BatchOp>) {
    ghost predicate Fits() {
      seqno < TWO_64 && AllFit(ops) && |ops| < TWO_31
    }
  }

  function Meanings(ops: seq<BatchOp>): seq<Op> {
    seq(|ops|, i requires 0 <= i < |ops| => ops[i].Meaning())
  }

  function Record(w: Written): LogRecord {
    LogRecord(w.seqno, Meanings(w.ops))
  }

  /** The bytes of a batch built one operation at a time. */
  method BuildRecord(w: Written) returns (rep: Bytes)
    requires w.seqno < TWO_64
    ensures rep == Encoding(w.seqno, w.ops)
  {
    hide Encoding;
    var b := new Batch();
    for i := 0 to |w.ops|
      invariant b.Valid() && b.ops == w.ops[..i]
    {
      b.Add(w.ops[i]);
    }
    assert w.ops[..|w.ops|] == w.ops;
    b.SetSequence(w.seqno);
    rep := b.rep;
  }

  /** The records that recovery makes of the bytes it reads; a record too small or not in order is skipped. */
  method ReadRecords(bytes: seq<Bytes>, ghost writes: seq<Written>) returns (records: seq<LogRecord>)
    requires |bytes| <= |writes| && forall i :: 0 <= i < |bytes| ==> writes[i].Fits() && bytes[i] == Encoding(writes[i].seqno, writes[i].ops)
    ensures |records| == |bytes| && forall i :: 0 <= i < |bytes| ==> records[i] == Record(writes[i])
  {
    hide Encoding, Digits, Undigits, AllFit, Record, Meanings;
    records := [];
    for n := 0 to |bytes|
      invariant |records| == n && forall i :: 0 <= i < n ==> records[i] == Record(writes[i])
    {
      HeaderIs(writes[n].seqno, writes[n].ops);
      RecordIs(writes[n]);
      if |bytes[n]| >= HEADER {
        var ok, ops := Iterate(bytes[n], writes[n].seqno, writes[n].ops);
        if ok {
          records := records + [LogRecord(Undigits(bytes[n][..8]), Meanings(ops))];
        }
      }
    }
  }

  lemma RecordIs(w: Written)
    ensures Record(w) == LogRecord(w.seqno, Meanings(w.ops))
  {
  }

  /** Any batches, written to a log that is then cut anywhere: recovery gets exactly the batches whose records end
      inside the cut, each whole, with their sequence numbers and operations. */
  method WriteThenRecover(writes: seq<Written>, size: nat)
    returns (records: seq<LogRecord>, file: Bytes, ghost ps: seq<Log.Physical>, ghost marks: seq<nat>, ghost ends: seq<nat>, ghost bytes: seq<Bytes>)
    requires forall i :: 0 <= i < |writes| ==> writes[i].Fits()
    ensures |bytes| == |writes| && forall i :: 0 <= i < |writes| ==> bytes[i] == Encoding(writes[i].seqno, writes[i].ops)
    ensures file == Log.Layout(ps) && Log.WellLaid(ps) && Log.ParseAll(ps) == Log.Parse(bytes, None, true) && Log.MarksOk(ps, bytes, marks, ends)
    ensures LogReader.WholeRecords(ends, size, |records|) && |records| <= |writes| && (size >= |file| ==> |records| == |writes|)
    ensures forall i :: 0 <= i < |records| ==> records[i] == Record(writes[i])
  {
    hide Encoding, Record, AllFit, Log.Layout, Log.WellLaid, Log.ParseAll, Log.MarksOk, LogReader.WholeRecords;
    var written: seq<Bytes> := [];
    for n := 0 to |writes|
      invariant |written| == n && forall i :: 0 <= i < n ==> written[i] == Encoding(writes[i].seqno, writes[i].ops)
    {
      var rep := BuildRecord(writes[n]);
      written := written + [rep];
    }
    bytes := written;
    var out, drops;
    out, drops, file, ps, marks, ends := LogReader.TornTailRoundTrip(written, size);
    records := ReadRecords(out, writes);
  }
}
