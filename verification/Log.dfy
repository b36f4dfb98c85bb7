/** The write-ahead log as bytes: records cut into physical records that never cross a block, and a
    reader that recovers exactly the whole records from any prefix of the file. */
module Log {
  import opened DbFormat
  import opened Crc

  const BLOCK_SIZE: nat := 32768
  const HEADER_SIZE: nat := 7

  const FULL: byte := 1
  const FIRST: byte := 2
  const MIDDLE: byte := 3
  const LAST: byte := 4

  /** What the reader's lower half returns besides a record kind. */
  const EOF: int := 5
  const BAD_RECORD: int := 6

  datatype Physical = Physical(kind: byte, payload: Bytes)

  function Checksum(p: Physical): Uint32 {
    ToNat(Extend(Value([p.kind]), p.payload))
  }

  /** Masked checksum, two length bytes, kind. */
  function Header(p: Physical): (r: Bytes)
    ensures |r| == HEADER_SIZE
  {
    EncodeFixed32(Mask(Checksum(p))) + [(|p.payload| % 256) as byte, (|p.payload| / 256 % 256) as byte, p.kind]
  }

  function Encoded(p: Physical): (r: Bytes)
    ensures |r| == HEADER_SIZE + |p.payload|
  {
    Header(p) + p.payload
  }

  /** Zeros up to the end of the block when no header fits any more. */
  function Trailer(n: nat): (r: Bytes)
    ensures |r| == if BLOCK_SIZE - n % BLOCK_SIZE < HEADER_SIZE then BLOCK_SIZE - n % BLOCK_SIZE else 0
    ensures (n + |r|) % BLOCK_SIZE <= BLOCK_SIZE - HEADER_SIZE
    ensures r != [] ==> (n + |r|) % BLOCK_SIZE == 0
  {
    var leftover := BLOCK_SIZE - n % BLOCK_SIZE;
    if leftover < HEADER_SIZE then seq(leftover, _ => 0) else []
  }

  // ------------------------------------------------------------------------- file contents

  /** The file after writing a sequence of physical records. */
  ghost function Layout(ps: seq<Physical>): Bytes {
    if ps == [] then []
    else
      var file := Layout(ps[..|ps| - 1]);
      file + Trailer(|file|) + Encoded(ps[|ps| - 1])
  }

  /** Where the next physical record goes. */
  function Start(n: nat): nat {
    n + |Trailer(n)|
  }

  ghost function Appended(file: Bytes, p: Physical): Bytes {
    file + Trailer(|file|) + Encoded(p)
  }

  ghost function NextOffset(n: nat, p: Physical): nat {
    Start(n) % BLOCK_SIZE + HEADER_SIZE + |p.payload|
  }

  /** Inside its block; a record is split only where a block ends, and never with nothing left to write. */
  ghost predicate Fits(n: nat, p: Physical) {
    && FULL <= p.kind <= LAST && NextOffset(n, p) <= BLOCK_SIZE
    && (p.kind == FIRST || p.kind == MIDDLE ==> NextOffset(n, p) == BLOCK_SIZE)
    && (p.kind == MIDDLE || p.kind == LAST ==> p.payload != [])
  }

  /** No physical record crosses a block. */
  ghost predicate WellLaid(ps: seq<Physical>) {
    forall i :: 0 <= i < |ps| ==> Fits(|Layout(ps[..i])|, ps[i])
  }

  lemma LayoutStep(ps: seq<Physical>, i: nat)
    requires i < |ps|
    ensures Layout(ps[..i + 1]) == Layout(ps[..i]) + Trailer(|Layout(ps[..i])|) + Encoded(ps[i])
    ensures |Layout(ps[..i + 1])| == Start(|Layout(ps[..i])|) + HEADER_SIZE + |ps[i].payload|
  {
    assert ps[..i + 1][..i] == ps[..i] && ps[..i + 1][i] == ps[i];
    hide Encoded, Trailer;
  }

  lemma {:induction false} LayoutPrefix(ps: seq<Physical>, i: nat, j: nat)
    requires i <= j <= |ps|
    ensures Layout(ps[..i]) <= Layout(ps[..j])
    ensures |Layout(ps[..j])| >= |Layout(ps[..i])| + (j - i) * HEADER_SIZE
    decreases j - i
  {
    if i < j {
      hide *;
      LayoutStep(ps, i);
      LayoutPrefix(ps, i + 1, j);
      StartBeyond(|Layout(ps[..i])|);
      PrefixOfSum(Layout(ps[..i]), Trailer(|Layout(ps[..i])|), Encoded(ps[i]));
    }
  }

  lemma StartBeyond(n: nat)
    ensures Start(n) >= n
  {
  }

  lemma PrefixOfSum(a: Bytes, b: Bytes, c: Bytes)
    ensures a <= a + b + c
  {
  }

  lemma WellLaidSnoc(ps: seq<Physical>, p: Physical)
    requires WellLaid(ps) && Fits(|Layout(ps)|, p)
    ensures WellLaid(ps + [p]) && Layout(ps + [p]) == Layout(ps) + Trailer(|Layout(ps)|) + Encoded(p)
  {
    hide *;
    LayoutSnoc(ps, p);
    LaidSnoc(ps, p);
  }

  lemma LayoutSnoc(ps: seq<Physical>, p: Physical)
    ensures Layout(ps + [p]) == Layout(ps) + Trailer(|Layout(ps)|) + Encoded(p)
  {
    hide *;
    var more := ps + [p];
    LayoutStep(more, |ps|);
    assert more[..|ps|] == ps && more[|ps|] == p;
    assert more[..|ps| + 1] == more;
  }

  lemma LaidSnoc(ps: seq<Physical>, p: Physical)
    requires WellLaid(ps) && Fits(|Layout(ps)|, p)
    ensures WellLaid(ps + [p])
  {
    hide Fits, Layout;
    forall i | 0 <= i < |ps + [p]| ensures Fits(|Layout((ps + [p])[..i])|, (ps + [p])[i]) {
      FitsKept(ps, p, i);
    }
  }

  lemma FitsKept(ps: seq<Physical>, p: Physical, i: nat)
    requires WellLaid(ps) && Fits(|Layout(ps)|, p) && i <= |ps|
    ensures Fits(|Layout((ps + [p])[..i])|, (ps + [p])[i])
  {
    hide Fits, Layout;
    assert (ps + [p])[..i] == ps[..i];
    assert ps[..|ps|] == ps;
  }

  // ----------------------------------------------------------------- assembling fragments

  /** The records completed so far, and the one being assembled. */
  datatype Parse = Parse(done: seq<Bytes>, open: Option<Bytes>, ok: bool)

  function Feed(st: Parse, p: Physical): Parse {
    if p.kind == FULL then Parse(st.done + [p.payload], None, st.ok && st.open.None?)
    else if p.kind == FIRST then Parse(st.done, Some(p.payload), st.ok && st.open.None?)
    else if st.open.None? then Parse(st.done, None, false)
    else if p.kind == MIDDLE then Parse(st.done, Some(st.open.value + p.payload), st.ok)
    else Parse(st.done + [st.open.value + p.payload], None, st.ok)
  }

  ghost function ParseAll(ps: seq<Physical>): Parse {
    if ps == [] then Parse([], None, true) else Feed(ParseAll(ps[..|ps| - 1]), ps[|ps| - 1])
  }

  lemma ParseStep(ps: seq<Physical>, i: nat)
    requires i < |ps|
    ensures ParseAll(ps[..i + 1]) == Feed(ParseAll(ps[..i]), ps[i])
  {
    assert ps[..i + 1][..i] == ps[..i] && ps[..i + 1][i] == ps[i];
  }

  lemma {:induction false} ParsePrefix(ps: seq<Physical>, i: nat, j: nat)
    requires i <= j <= |ps|
    ensures ParseAll(ps[..i]).done <= ParseAll(ps[..j]).done
    ensures ParseAll(ps[..j]).ok ==> ParseAll(ps[..i]).ok
    decreases j - i
  {
    if i < j {
      ParseStep(ps, i);
      ParsePrefix(ps, i + 1, j);
      hide ParseAll;
    }
  }

  // -------------------------------------------------------------------------------- Writer

  /** `marks[i]` physical records end with record `i`, and `ends[i]` is the file length then. */
  ghost predicate MarksOk(ps: seq<Physical>, records: seq<Bytes>, marks: seq<nat>, ends: seq<nat>) {
    && |marks| == |ends| == |records|
    && forall i :: 0 <= i < |records| ==> MarkOk(ps, i, marks[i], ends[i])
  }

  ghost predicate MarkOk(ps: seq<Physical>, i: nat, mark: nat, end: nat) {
    && 1 <= mark <= |ps| && end == |Layout(ps[..mark])|
    && |ParseAll(ps[..mark]).done| == i + 1 && |ParseAll(ps[..mark - 1]).done| == i
  }

  lemma MarkKept(ps: seq<Physical>, more: seq<Physical>, i: nat, mark: nat, end: nat)
    requires MarkOk(ps, i, mark, end)
    ensures MarkOk(ps + more, i, mark, end)
  {
    assert (ps + more)[..mark] == ps[..mark] && (ps + more)[..mark - 1] == ps[..mark - 1];
  }

  lemma MarksGrow(ps: seq<Physical>, more: seq<Physical>, records: seq<Bytes>, marks: seq<nat>, ends: seq<nat>)
    requires MarksOk(ps, records, marks, ends)
    ensures MarksOk(ps + more, records, marks, ends)
  {
    forall i | 0 <= i < |records| ensures MarkOk(ps + more, i, marks[i], ends[i]) {
      MarkKept(ps, more, i, marks[i], ends[i]);
    }
  }

  lemma ParseSnoc(ps: seq<Physical>, p: Physical)
    ensures ParseAll(ps + [p]) == Feed(ParseAll(ps), p)
  {
    assert (ps + [p])[..|ps|] == ps;
  }

  /** The physical record that completes a logical one. */
  lemma MarkAdded(ps: seq<Physical>, p: Physical, records: seq<Bytes>, marks: seq<nat>, ends: seq<nat>, record: Bytes)
    requires MarksOk(ps, records, marks, ends)
    requires ParseAll(ps).done == records && ParseAll(ps + [p]).done == records + [record]
    ensures MarksOk(ps + [p], records + [record], marks + [|ps| + 1], ends + [|Layout(ps + [p])|])
  {
    hide ParseAll, Layout, MarkOk;
    MarksGrow(ps, [p], records, marks, ends);
    LastMark(ps, p, records, record);
  }

  lemma LastMark(ps: seq<Physical>, p: Physical, records: seq<Bytes>, record: Bytes)
    requires ParseAll(ps).done == records && ParseAll(ps + [p]).done == records + [record]
    ensures MarkOk(ps + [p], |records|, |ps| + 1, |Layout(ps + [p])|)
  {
    hide ParseAll, Layout;
    var more := ps + [p];
    assert more[..|ps| + 1] == more && more[..|ps|] == ps;
  }

  ghost predicate WriterOk(dest: Bytes, blockOffset: nat, ps: seq<Physical>, records: seq<Bytes>, open: Option<Bytes>,
                           marks: seq<nat>, ends: seq<nat>)
  {
    && dest == Layout(ps) && WellLaid(ps) && ParseAll(ps) == Parse(records, open, true)
    && blockOffset <= BLOCK_SIZE && blockOffset % BLOCK_SIZE == |dest| % BLOCK_SIZE
    && MarksOk(ps, records, marks, ends)
  }

  lemma OffsetKnown(dest: Bytes, blockOffset: nat, ps: seq<Physical>, records: seq<Bytes>, open: Option<Bytes>,
                    marks: seq<nat>, ends: seq<nat>)
    requires WriterOk(dest, blockOffset, ps, records, open, marks, ends)
    ensures blockOffset <= BLOCK_SIZE && blockOffset % BLOCK_SIZE == |dest| % BLOCK_SIZE
  {
    hide Layout, WellLaid, ParseAll, MarksOk;
  }

  /** What a fragment turns the open part of a record into. */
  function Extended(open: Option<Bytes>, payload: Bytes): Bytes {
    (if open.Some? then open.value else []) + payload
  }

  function KindOf(begin: bool, end: bool): byte {
    if begin && end then FULL else if begin then FIRST else if end then LAST else MIDDLE
  }

  lemma FragmentParsed(ps: seq<Physical>, p: Physical, records: seq<Bytes>, open: Option<Bytes>, end: bool)
    requires ParseAll(ps) == Parse(records, open, true) && p.kind == KindOf(open.None?, end)
    ensures ParseAll(ps + [p]) == if end then Parse(records + [Extended(open, p.payload)], None, true)
                                  else Parse(records, Some(Extended(open, p.payload)), true)
  {
    hide ParseAll;
    ParseSnoc(ps, p);
    assert [] + p.payload == p.payload;
  }

  /** The writer's state after a fragment: the record is complete, or longer by the payload. */
  ghost predicate FragmentDone(dest': Bytes, offset': nat, ps: seq<Physical>, records: seq<Bytes>, open: Option<Bytes>,
                               marks: seq<nat>, ends: seq<nat>, p: Physical, end: bool)
  {
    if end then WriterOk(dest', offset', ps + [p], records + [Extended(open, p.payload)], None, marks + [|ps| + 1], ends + [|dest'|])
    else WriterOk(dest', offset', ps + [p], records, Some(Extended(open, p.payload)), marks, ends)
  }

  /** A fragment that fits has been written. */
  lemma FragmentWritten(dest: Bytes, blockOffset: nat, ps: seq<Physical>, records: seq<Bytes>, open: Option<Bytes>,
                        marks: seq<nat>, ends: seq<nat>, p: Physical, end: bool, dest': Bytes, offset': nat)
    requires WriterOk(dest, blockOffset, ps, records, open, marks, ends)
    requires Fits(|dest|, p) && p.kind == KindOf(open.None?, end)
    requires dest' == Appended(dest, p) && offset' == NextOffset(|dest|, p)
    ensures FragmentDone(dest', offset', ps, records, open, marks, ends, p, end)
  {
    hide Layout, WellLaid, ParseAll, MarksOk, Encoded, Trailer, Extended, KindOf;
    WellLaidSnoc(ps, p);
    FragmentParsed(ps, p, records, open, end);
    OffsetAfter(|dest|, |p.payload|, offset');
    if end {
      MarkAdded(ps, p, records, marks, ends, Extended(open, p.payload));
    } else {
      MarksGrow(ps, [p], records, marks, ends);
    }
  }

  lemma OffsetAfter(n: nat, length: nat, offset: nat)
    requires offset == Start(n) % BLOCK_SIZE + HEADER_SIZE + length <= BLOCK_SIZE
    ensures offset % BLOCK_SIZE == (Start(n) + HEADER_SIZE + length) % BLOCK_SIZE
  {
    hide Trailer, Start;
  }

  class Writer {
    var dest: Bytes
    var blockOffset: nat

    ghost var ps: seq<Physical>
    ghost var records: seq<Bytes>
    ghost var marks: seq<nat>
    ghost var ends: seq<nat>

    /** Part-way through a record, `open` is what has been written of it. */
    ghost predicate Writing(open: Option<Bytes>)
      reads this
    {
      WriterOk(dest, blockOffset, ps, records, open, marks, ends)
    }

    ghost predicate Valid()
      reads this
    {
      Writing(None)
    }

    constructor ()
      ensures Valid() && dest == [] && records == [] && ends == []
    {
      dest, blockOffset := [], 0;
      ps, records, marks, ends := [], [], [], [];
    }

    /** Switch to a new block when no header fits. */
    method FillTrailer()
      requires blockOffset <= BLOCK_SIZE && blockOffset % BLOCK_SIZE == |dest| % BLOCK_SIZE
      modifies this`dest, this`blockOffset
      ensures dest == old(dest) + Trailer(|old(dest)|)
      ensures blockOffset == Start(|old(dest)|) % BLOCK_SIZE <= BLOCK_SIZE - HEADER_SIZE
    {
      var leftover := BLOCK_SIZE - blockOffset;
      if leftover < HEADER_SIZE {
        if leftover > 0 {
          dest := dest + seq(leftover, _ => 0);
        }
        blockOffset := 0;
      }
    }

    method EmitPhysicalRecord(kind: byte, payload: Bytes)
      requires blockOffset + HEADER_SIZE + |payload| <= BLOCK_SIZE
      modifies this`dest, this`blockOffset
      ensures dest == old(dest) + Encoded(Physical(kind, payload))
      ensures blockOffset == old(blockOffset) + HEADER_SIZE + |payload|
    {
      var crc := Mask(ToNat(Extend(Value([kind]), payload)));
      var length := |payload|;
      var header := EncodeFixed32(crc) + [(length % 256) as byte, (length / 256 % 256) as byte, kind];
      dest := dest + header;
      dest := dest + payload;
      blockOffset := blockOffset + HEADER_SIZE + length;
    }

    /** One turn of the fragmenting loop: as much of the record as the block has room for. */
    method AppendFragment(begin: bool, slice: Bytes, pos: nat) returns (n: nat)
      requires pos <= |slice| && (begin ==> pos == 0) && Writing(if begin then None else Some(slice[..pos]))
      requires !begin ==> pos < |slice| && blockOffset == BLOCK_SIZE
      modifies this
      ensures old(dest) <= dest && pos + n <= |slice|
      ensures pos + n == |slice| ==> Valid() && records == old(records) + [slice] && ends == old(ends) + [|dest|]
      ensures pos + n < |slice| ==> Writing(Some(slice[..pos + n])) && records == old(records) && ends == old(ends)
      ensures pos + n < |slice| ==> blockOffset == BLOCK_SIZE && (n == 0 ==> old(blockOffset) != BLOCK_SIZE)
    {
      hide WriterOk, Encoded, Trailer, Layout;
      ghost var open := if begin then None else Some(slice[..pos]);
      OffsetKnown(dest, blockOffset, ps, records, open, marks, ends);
      FillTrailer();
      var avail := BLOCK_SIZE - blockOffset - HEADER_SIZE;
      n := if |slice| - pos < avail then |slice| - pos else avail;
      var end := n == |slice| - pos;
      var payload := slice[pos..pos + n];
      EmitPhysicalRecord(KindOf(begin, end), payload);
      ghost var p := Physical(KindOf(begin, end), payload);
      FragmentWritten(old(dest), old(blockOffset), ps, records, open, marks, ends, p, end, dest, blockOffset);
      assert Extended(open, payload) == slice[..pos + n];
      if end {
        assert slice[..pos + n] == slice;
        records, marks, ends := records + [slice], marks + [|ps| + 1], ends + [|dest|];
      }
      ps := ps + [p];
    }

    /** Append one record, possibly empty, as one or more physical records. */
    method AddRecord(slice: Bytes)
      requires Valid()
      modifies this
      ensures Valid() && records == old(records) + [slice] && ends == old(ends) + [|dest|] && old(dest) <= dest
    {
      hide WriterOk;
      var pos := 0;
      var begin := true;
      while true
        invariant 0 <= pos <= |slice| && (begin ==> pos == 0)
        invariant Writing(if begin then None else Some(slice[..pos]))
        invariant !begin ==> pos < |slice| && blockOffset == BLOCK_SIZE
        invariant records == old(records) && ends == old(ends) && old(dest) <= dest
        decreases |slice| - pos, if blockOffset == BLOCK_SIZE then 0 else 1
      {
        var n := AppendFragment(begin, slice, pos);
        pos, begin := pos + n, false;
        if pos == |slice| {
          break;
        }
      }
    }
  }
}
