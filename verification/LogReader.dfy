/** Reading a log back from any prefix of its file. */
module LogReader {
  import opened DbFormat
  import opened Crc
  import opened Log

  /** The physical records wholly inside a file prefix have been read up to number `m`; the buffer is
      the unread rest of the current block. */
  ghost predicate ReaderOk(data: Bytes, ps: seq<Physical>, m: nat, filePos: nat, buffer: Bytes, eof: bool) {
    && m <= |ps| && data <= Layout(ps) && WellLaid(ps) && |Layout(ps[..m])| <= |data|
    && |buffer| <= filePos <= |data| && buffer == data[filePos - |buffer|..filePos]
    && PositionOk(|Layout(ps[..m])|, filePos - |buffer|, filePos, |data|, eof)
  }

  /** The read position `at` is the end of the last record read, or the next block after its trailer;
      buffered bytes lie in one block. */
  ghost predicate PositionOk(end: nat, at: nat, filePos: nat, size: nat, eof: bool) {
    && (at == end || at == Start(end)) && at <= filePos <= at / BLOCK_SIZE * BLOCK_SIZE + BLOCK_SIZE
    && (if eof then filePos == size else filePos % BLOCK_SIZE == 0)
  }

  /** With too little buffered for a header, the next block starts where the next record does. */
  lemma NextBlock(end: nat, at: nat, filePos: nat, size: nat, filePos': nat)
    requires PositionOk(end, at, filePos, size, false) && filePos - at < HEADER_SIZE && filePos <= size
    requires filePos' == if size - filePos < BLOCK_SIZE then size else filePos + BLOCK_SIZE
    ensures PositionOk(end, filePos, filePos', size, size - filePos < BLOCK_SIZE)
  {
  }

  /** With a header buffered, the read position is where the next record starts, and unless the file
      ends early the whole record is buffered. */
  lemma HeaderBuffered(end: nat, at: nat, filePos: nat, size: nat, eof: bool, length: nat)
    requires PositionOk(end, at, filePos, size, eof) && filePos - at >= HEADER_SIZE
    requires Start(end) % BLOCK_SIZE + HEADER_SIZE + length <= BLOCK_SIZE
    ensures at == Start(end)
    ensures !eof ==> filePos - at >= HEADER_SIZE + length
    ensures filePos - at >= HEADER_SIZE + length ==> PositionOk(at + HEADER_SIZE + length, at + HEADER_SIZE + length, filePos, size, eof)
  {
  }

  // ------------------------------------------------------------------------------- headers

  function LengthIn(header: Bytes): nat
    requires |header| >= HEADER_SIZE
  {
    header[4] as nat + header[5] as nat * 256
  }

  lemma HeaderDecodes(p: Physical, header: Bytes)
    requires |p.payload| < 0x1_0000 && header == Header(p)
    ensures LengthIn(header) == |p.payload| && header[6] == p.kind
    ensures Unmask(DecodeFixed32(header)) == ToNat(Value([p.kind] + p.payload))
  {
    hide EncodeFixed32, DecodeFixed32, Mask, Unmask, Checksum, Crc.Value;
    var crc := Checksum(p);
    var tail := [(|p.payload| % 256) as byte, (|p.payload| / 256 % 256) as byte, p.kind];
    assert header == EncodeFixed32(Mask(crc)) + tail;
    assert LengthIn(header) == |p.payload| && header[6] == p.kind;
    hide *;
    Fixed32RoundTrip(Mask(crc), tail);
    MaskRoundTrip(crc);
    ExtendConcat([p.kind], p.payload);
    ChecksumIs(p);
  }

  lemma ChecksumIs(p: Physical)
    ensures Checksum(p) == ToNat(Extend(Value([p.kind]), p.payload))
  {
    hide Extend, Value;
  }

  // ------------------------------------------------------------------- bytes of the prefix

  lemma SharedPrefix(data: Bytes, part: Bytes, whole: Bytes, a: nat, b: nat)
    requires data <= whole && part <= whole && a <= b <= |data| && b <= |part|
    ensures data[a..b] == part[a..b]
  {
  }

  lemma MoreToRead(data: Bytes, ps: seq<Physical>, m: nat)
    requires m <= |ps| && data <= Layout(ps) && |Layout(ps[..m])| < |data|
    ensures m < |ps|
  {
    assert ps[..|ps|] == ps;
  }

  /** The buffered bytes of the next physical record, as far as the prefix has them. */
  lemma RecordBytes(data: Bytes, ps: seq<Physical>, m: nat, start: nat, buffer: Bytes, n: nat)
    requires m < |ps| && data <= Layout(ps) && start == Start(|Layout(ps[..m])|)
    requires start + |buffer| <= |data| && buffer == data[start..start + |buffer|]
    requires n <= |buffer| && n <= HEADER_SIZE + |ps[m].payload|
    ensures buffer[..n] == Encoded(ps[m])[..n]
  {
    hide Layout, Encoded, Trailer;
    var before, after := Layout(ps[..m]), Layout(ps[..m + 1]);
    LayoutStep(ps, m);
    LayoutPrefix(ps, m + 1, |ps|);
    assert ps[..|ps|] == ps;
    SharedPrefix(data, after, Layout(ps), start, start + n);
    assert after[start..start + n] == Encoded(ps[m])[..n];
    assert buffer[..n] == data[start..start + n];
  }

  lemma EncodedParts(p: Physical)
    ensures Encoded(p)[..HEADER_SIZE] == Header(p)
    ensures Encoded(p)[HEADER_SIZE..] == p.payload && Encoded(p)[..HEADER_SIZE + |p.payload|] == Encoded(p)
  {
  }

  /** The next physical record does not fit into the prefix. */
  ghost predicate AtTear(data: Bytes, ps: seq<Physical>, m: nat) {
    && m <= |ps| && |Layout(ps[..m])| <= |data|
    && (m < |ps| ==> |Layout(ps[..m + 1])| > |data|)
  }

  lemma NoHeaderLeft(data: Bytes, ps: seq<Physical>, m: nat, filePos: nat, buffer: Bytes)
    requires ReaderOk(data, ps, m, filePos, buffer, true) && |buffer| < HEADER_SIZE
    ensures AtTear(data, ps, m)
  {
    if m < |ps| {
      LayoutStep(ps, m);
    }
  }

  lemma BlockRead(data: Bytes, ps: seq<Physical>, m: nat, filePos: nat, buffer: Bytes, filePos': nat, buffer': Bytes)
    requires ReaderOk(data, ps, m, filePos, buffer, false) && |buffer| < HEADER_SIZE
    requires filePos' == if |data| - filePos < BLOCK_SIZE then |data| else filePos + BLOCK_SIZE
    requires buffer' == data[filePos..filePos']
    ensures ReaderOk(data, ps, m, filePos', buffer', |buffer'| < BLOCK_SIZE)
  {
    hide Layout, WellLaid, PositionOk;
    NextBlock(|Layout(ps[..m])|, filePos - |buffer|, filePos, |data|, filePos');
  }

  ghost predicate NextInBuffer(data: Bytes, ps: seq<Physical>, m: nat, filePos: nat, buffer: Bytes, eof: bool) {
    && m < |ps| && |ps[m].payload| < 0x1_0000 && FULL <= ps[m].kind <= LAST
    && |buffer| >= HEADER_SIZE && buffer[..HEADER_SIZE] == Header(ps[m])
    && (|buffer| < HEADER_SIZE + |ps[m].payload| ==> eof && AtTear(data, ps, m))
    && (|buffer| >= HEADER_SIZE + |ps[m].payload| ==>
          && buffer[HEADER_SIZE..HEADER_SIZE + |ps[m].payload|] == ps[m].payload
          && ReaderOk(data, ps, m + 1, filePos, buffer[HEADER_SIZE + |ps[m].payload|..], eof))
  }

  lemma NextFits(data: Bytes, ps: seq<Physical>, m: nat, filePos: nat, buffer: Bytes, eof: bool)
    requires ReaderOk(data, ps, m, filePos, buffer, eof) && |buffer| >= HEADER_SIZE
    ensures m < |ps| && Fits(|Layout(ps[..m])|, ps[m]) && data <= Layout(ps)
    ensures filePos - |buffer| == Start(|Layout(ps[..m])|) && |buffer| <= filePos <= |data| && buffer == data[filePos - |buffer|..filePos]
    ensures |Layout(ps[..m + 1])| == filePos - |buffer| + HEADER_SIZE + |ps[m].payload|
    ensures !eof ==> |buffer| >= HEADER_SIZE + |ps[m].payload|
    ensures eof ==> filePos == |data|
    ensures |buffer| >= HEADER_SIZE + |ps[m].payload| ==>
              PositionOk(|Layout(ps[..m + 1])|, filePos - |buffer| + HEADER_SIZE + |ps[m].payload|, filePos, |data|, eof)
  {
    hide *;
    ReaderFacts(data, ps, m, filePos, buffer, eof);
    PositionFacts(|Layout(ps[..m])|, filePos - |buffer|, filePos, |data|, eof);
    MoreToRead(data, ps, m);
    LayoutStep(ps, m);
    FitsAt(ps, m);
    FitsRoom(|Layout(ps[..m])|, ps[m]);
    HeaderBuffered(|Layout(ps[..m])|, filePos - |buffer|, filePos, |data|, eof, |ps[m].payload|);
  }

  lemma ReaderFacts(data: Bytes, ps: seq<Physical>, m: nat, filePos: nat, buffer: Bytes, eof: bool)
    requires ReaderOk(data, ps, m, filePos, buffer, eof)
    ensures m <= |ps| && data <= Layout(ps) && WellLaid(ps) && |buffer| <= filePos <= |data| && buffer == data[filePos - |buffer|..filePos]
    ensures PositionOk(|Layout(ps[..m])|, filePos - |buffer|, filePos, |data|, eof)
    ensures |buffer| >= HEADER_SIZE ==> filePos - |buffer| < |data|
  {
    hide Layout, WellLaid, PositionOk;
  }

  lemma FitsAt(ps: seq<Physical>, m: nat)
    requires WellLaid(ps) && m < |ps|
    ensures Fits(|Layout(ps[..m])|, ps[m])
  {
    hide Fits, Layout;
  }

  lemma PositionFacts(end: nat, at: nat, filePos: nat, size: nat, eof: bool)
    requires PositionOk(end, at, filePos, size, eof)
    ensures end <= at && (eof ==> filePos == size)
  {
  }

  lemma FitsRoom(n: nat, p: Physical)
    requires Fits(n, p)
    ensures Start(n) % BLOCK_SIZE + HEADER_SIZE + |p.payload| <= BLOCK_SIZE
  {
    hide Start;
  }

  lemma FitsFacts(n: nat, p: Physical)
    requires Fits(n, p)
    ensures |p.payload| < 0x1_0000 && FULL <= p.kind <= LAST
  {
    hide Start;
  }

  lemma PayloadPart(buffer: Bytes, encoded: Bytes, h: nat, n: nat)
    requires h <= n <= |buffer| && n == |encoded| && buffer[..n] == encoded[..n]
    ensures buffer[h..n] == encoded[h..]
  {
    assert buffer[h..n] == buffer[..n][h..];
    assert encoded[..n] == encoded;
  }

  lemma Advanced(data: Bytes, ps: seq<Physical>, m: nat, filePos: nat, buffer: Bytes, eof: bool)
    requires ReaderOk(data, ps, m, filePos, buffer, eof) && |buffer| >= HEADER_SIZE && m < |ps|
    requires |buffer| >= HEADER_SIZE + |ps[m].payload|
    ensures ReaderOk(data, ps, m + 1, filePos, buffer[HEADER_SIZE + |ps[m].payload|..], eof)
  {
    hide Layout, WellLaid, PositionOk;
    NextFits(data, ps, m, filePos, buffer, eof);
    var n := HEADER_SIZE + |ps[m].payload|;
    var rest := buffer[n..];
    assert rest == data[filePos - |rest|..filePos];
  }

  lemma Torn(data: Bytes, ps: seq<Physical>, m: nat, filePos: nat, buffer: Bytes, eof: bool)
    requires ReaderOk(data, ps, m, filePos, buffer, eof) && |buffer| >= HEADER_SIZE && m < |ps|
    requires |buffer| < HEADER_SIZE + |ps[m].payload|
    ensures eof && AtTear(data, ps, m)
  {
    hide Layout, WellLaid, PositionOk;
    NextFits(data, ps, m, filePos, buffer, eof);
  }

  lemma FoldNext(data: Bytes, ps: seq<Physical>, m: nat, filePos: nat, buffer: Bytes, eof: bool)
    requires m < |ps| && |ps[m].payload| < 0x1_0000 && FULL <= ps[m].kind <= LAST
    requires |buffer| >= HEADER_SIZE && buffer[..HEADER_SIZE] == Header(ps[m])
    requires |buffer| < HEADER_SIZE + |ps[m].payload| ==> eof && AtTear(data, ps, m)
    requires |buffer| >= HEADER_SIZE + |ps[m].payload| ==>
               && buffer[HEADER_SIZE..HEADER_SIZE + |ps[m].payload|] == ps[m].payload
               && ReaderOk(data, ps, m + 1, filePos, buffer[HEADER_SIZE + |ps[m].payload|..], eof)
    ensures NextInBuffer(data, ps, m, filePos, buffer, eof)
  {
    hide ReaderOk, AtTear, Header;
  }

  lemma NextIsInBuffer(data: Bytes, ps: seq<Physical>, m: nat, filePos: nat, buffer: Bytes, eof: bool)
    requires ReaderOk(data, ps, m, filePos, buffer, eof) && |buffer| >= HEADER_SIZE
    ensures NextInBuffer(data, ps, m, filePos, buffer, eof)
  {
    hide *;
    NextFits(data, ps, m, filePos, buffer, eof);
    FitsFacts(|Layout(ps[..m])|, ps[m]);
    var p, start := ps[m], filePos - |buffer|;
    EncodedParts(p);
    RecordBytes(data, ps, m, start, buffer, HEADER_SIZE);
    if |buffer| >= HEADER_SIZE + |p.payload| {
      RecordBytes(data, ps, m, start, buffer, HEADER_SIZE + |p.payload|);
      Advanced(data, ps, m, filePos, buffer, eof);
      PayloadPart(buffer, Encoded(p), HEADER_SIZE, HEADER_SIZE + |p.payload|);
    } else {
      Torn(data, ps, m, filePos, buffer, eof);
    }
    FoldNext(data, ps, m, filePos, buffer, eof);
  }

  // -------------------------------------------------------------------------------- Reader

  lemma AtStart(data: Bytes, ps: seq<Physical>)
    requires data <= Layout(ps) && WellLaid(ps)
    ensures ReaderOk(data, ps, 0, 0, [], false)
  {
    hide WellLaid;
    assert ps[..0] == [];
    assert data[0..0] == [];
  }

  lemma FoldReader(r: Reader)
    requires ReaderOk(r.file, r.ps, r.m, r.filePos, r.buffer, r.eof)
    ensures r.Valid()
  {
    hide ReaderOk;
  }

  class Reader {
    const file: Bytes
    var filePos: nat
    var buffer: Bytes
    var eof: bool

    /** Corruptions reported. */
    var drops: nat

    /** The physical records the file is a prefix of, and how many have been read. */
    ghost const ps: seq<Physical>
    ghost var m: nat

    ghost predicate Valid()
      reads this
    {
      ReaderOk(file, ps, m, filePos, buffer, eof)
    }

    constructor (file: Bytes, ghost ps: seq<Physical>)
      requires file <= Layout(ps) && WellLaid(ps)
      ensures Valid() && this.file == file && this.ps == ps && m == 0 && drops == 0
    {
      hide *;
      this.file, this.ps := file, ps;
      filePos, buffer, eof, drops, m := 0, [], false, 0, 0;
      new;
      AtStart(file, ps);
      FoldReader(this);
    }

    /** Read the next whole block, or what is left of the file. */
    method ReadBlock()
      requires Valid() && |buffer| < HEADER_SIZE && !eof
      modifies this`filePos, this`buffer, this`eof
      ensures Valid() && (eof || |buffer| >= HEADER_SIZE)
    {
      hide ReaderOk;
      PositionInFile(file, ps, m, filePos, buffer, eof);
      var filePos' := if |file| - filePos < BLOCK_SIZE then |file| else filePos + BLOCK_SIZE;
      var buffer' := file[filePos..filePos'];
      BlockRead(file, ps, m, filePos, buffer, filePos', buffer');
      filePos, buffer := filePos', buffer';
      eof := |buffer| < BLOCK_SIZE;
    }

    /** The next physical record, or the end of the file; on a prefix of a written log nothing is ever
        reported as corrupt. */
    method ReadPhysicalRecord() returns (kind: int, fragment: Bytes)
      requires Valid()
      modifies this`filePos, this`buffer, this`eof, this`m, this`drops
      ensures kind == EOF ==> AtTear(file, ps, old(m)) && m == old(m)
      ensures kind != EOF ==> Valid() && m == old(m) + 1 <= |ps| && kind == ps[m - 1].kind as int && fragment == ps[m - 1].payload
      ensures kind != EOF ==> FULL as int <= kind <= LAST as int
      ensures drops == old(drops)
    {
      hide *;
      if |buffer| < HEADER_SIZE && !eof {
        ReadBlock();
      }
      var outcome := ParseBuffer(buffer, eof);
      ParsedNext(this);
      kind, fragment := outcome.kind, outcome.fragment;
      buffer, drops := outcome.rest, drops + outcome.reported;
      if kind != EOF {
        m := m + 1;
      }
      Refold(this);
    }

    /** The next logical record, assembled from its fragments.  False at the end of the file, where a
        record without its last fragment is dropped silently. */
    method ReadRecord() returns (found: bool, record: Bytes)
      requires Valid() && ParseAll(ps).ok && ParseAll(ps[..m]).open.None?
      modifies this`filePos, this`buffer, this`eof, this`m, this`drops
      ensures old(m) <= m <= |ps| && drops == old(drops)
      ensures found ==> Valid() && ParseAll(ps[..m]) == Parse(ParseAll(ps[..old(m)]).done + [record], None, true)
      ensures !found ==> AtTear(file, ps, m) && ParseAll(ps[..m]).done == ParseAll(ps[..old(m)]).done
    {
      hide *;
      var scratch: Bytes, inFragmented := [], false;
      RecordsRead(this);
      ghost var done := ParseAll(ps[..m]).done;
      while true
        invariant Valid() && old(m) <= m <= |ps| && drops == old(drops) && ParseAll(ps).ok
        invariant ParseAll(ps[..m]) == Parse(done, if inFragmented then Some(scratch) else None, true)
        decreases |ps| - m
      {
        var kind, fragment := ReadPhysicalRecord();
        var action := Accept(inFragmented, scratch, kind, fragment);
        AcceptsNext(ps, m, done, inFragmented, scratch, kind, fragment);
        scratch, inFragmented, drops := action.scratch, action.inFragmented, drops + action.reported;
        if action.finished {
          return action.found, action.record;
        }
      }
    }
  }

  /** What the first bytes of the buffer are: the kind returned, the payload, the rest of the buffer, and
      how many corruptions to report. */
  datatype Outcome = Outcome(kind: int, fragment: Bytes, rest: Bytes, reported: nat)

  function ParseBuffer(buffer: Bytes, eof: bool): Outcome {
    if |buffer| < HEADER_SIZE then Outcome(EOF, [], [], 0)
    else
      var header := buffer[..HEADER_SIZE];
      var length, recordType := LengthIn(header), header[6];
      if HEADER_SIZE + length > |buffer| then
        if !eof then Outcome(BAD_RECORD, [], [], 1) else Outcome(EOF, [], [], 0)
      else if recordType == 0 && length == 0 then Outcome(BAD_RECORD, [], [], 0)
      else
        var payload := buffer[HEADER_SIZE..HEADER_SIZE + length];
        if ToNat(Crc.Value([recordType] + payload)) != Unmask(DecodeFixed32(header)) then Outcome(BAD_RECORD, [], [], 1)
        else Outcome(recordType as int, payload, buffer[HEADER_SIZE + length..], 0)
  }

  lemma ParsedNext(r: Reader)
    requires r.Valid() && (r.eof || |r.buffer| >= HEADER_SIZE)
    ensures var o := ParseBuffer(r.buffer, r.eof);
            && o.reported == 0
            && (o.kind == EOF ==> AtTear(r.file, r.ps, r.m))
            && (o.kind != EOF ==>
                  && r.m < |r.ps| && o.kind == r.ps[r.m].kind as int && FULL as int <= o.kind <= LAST as int
                  && o.fragment == r.ps[r.m].payload && ReaderOk(r.file, r.ps, r.m + 1, r.filePos, o.rest, r.eof))
  {
    hide ReaderOk, AtTear, Header, Crc.Value, Unmask, Layout, ToNat, DecodeFixed32, LengthIn;
    if |r.buffer| < HEADER_SIZE {
      NoHeaderLeft(r.file, r.ps, r.m, r.filePos, r.buffer);
    } else {
      NextIsInBuffer(r.file, r.ps, r.m, r.filePos, r.buffer, r.eof);
      HeaderDecodes(r.ps[r.m], r.buffer[..HEADER_SIZE]);
    }
  }

  lemma Refold(r: Reader)
    ensures ReaderOk(r.file, r.ps, r.m, r.filePos, r.buffer, r.eof) ==> r.Valid()
  {
    hide ReaderOk;
  }

  /** What the assembling loop does with one physical record. */
  datatype Action = Action(finished: bool, found: bool, record: Bytes, inFragmented: bool, scratch: Bytes, reported: nat)

  function Accept(inFragmented: bool, scratch: Bytes, kind: int, fragment: Bytes): Action {
    var broken := if inFragmented && scratch != [] then 1 else 0;
    if kind == FULL as int then Action(true, true, fragment, inFragmented, [], broken)
    else if kind == FIRST as int then Action(false, false, [], true, fragment, broken)
    else if kind == MIDDLE as int then
      if !inFragmented then Action(false, false, [], false, scratch, 1)
      else Action(false, false, [], true, scratch + fragment, 0)
    else if kind == LAST as int then
      if !inFragmented then Action(false, false, [], false, scratch, 1)
      else Action(true, true, scratch + fragment, true, scratch + fragment, 0)
    else if kind == EOF then Action(true, false, [], inFragmented, if inFragmented then [] else scratch, 0)
    else if kind == BAD_RECORD then Action(false, false, [], false, if inFragmented then [] else scratch, if inFragmented then 1 else 0)
    else Action(false, false, [], false, [], 1)
  }

  /** On well-formed input the loop follows the parse exactly and reports nothing. */
  lemma AcceptsNext(ps: seq<Physical>, m: nat, done: seq<Bytes>, inFragmented: bool, scratch: Bytes, kind: int, fragment: Bytes)
    requires m <= |ps| && ParseAll(ps).ok
    requires kind == EOF || (FULL as int <= kind <= LAST as int && 1 <= m && kind == ps[m - 1].kind as int && fragment == ps[m - 1].payload)
    requires ParseAll(ps[..if kind == EOF then m else m - 1]) == Parse(done, if inFragmented then Some(scratch) else None, true)
    ensures var a := Accept(inFragmented, scratch, kind, fragment);
            && a.reported == 0
            && (kind == EOF ==> a.finished && !a.found)
            && (kind != EOF ==> (a.finished <==> a.found))
            && (a.found ==> ParseAll(ps[..m]) == Parse(done + [a.record], None, true))
            && (!a.finished ==> ParseAll(ps[..m]) == Parse(done, if a.inFragmented then Some(a.scratch) else None, true))
  {
    hide ParseAll, Accept, Feed;
    if kind != EOF {
      ParseStep(ps, m - 1);
      ParsePrefix(ps, m, |ps|);
      assert ps[..|ps|] == ps;
      AcceptsFed(Parse(done, if inFragmented then Some(scratch) else None, true), ps[m - 1], inFragmented, scratch);
    } else {
      AcceptsEnd(inFragmented, scratch, fragment);
    }
  }

  lemma AcceptsEnd(inFragmented: bool, scratch: Bytes, fragment: Bytes)
    ensures var a := Accept(inFragmented, scratch, EOF, fragment); a.reported == 0 && a.finished && !a.found
  {
  }

  /** One fragment that the parse takes is taken by the loop in the same way. */
  lemma AcceptsFed(st: Parse, p: Physical, inFragmented: bool, scratch: Bytes)
    requires FULL <= p.kind <= LAST && st.open == (if inFragmented then Some(scratch) else None) && Feed(st, p).ok
    ensures var a := Accept(inFragmented, scratch, p.kind as int, p.payload);
            && a.reported == 0 && (a.finished <==> a.found)
            && (a.found ==> Feed(st, p) == Parse(st.done + [a.record], None, true))
            && (!a.finished ==> Feed(st, p) == Parse(st.done, if a.inFragmented then Some(a.scratch) else None, true))
  {
  }

  lemma RecordsRead(r: Reader)
    requires r.Valid() && ParseAll(r.ps).ok
    ensures r.m <= |r.ps| && ParseAll(r.ps[..r.m]).ok
  {
    hide ParseAll, Layout, WellLaid, PositionOk;
    ParsePrefix(r.ps, r.m, |r.ps|);
    assert r.ps[..|r.ps|] == r.ps;
  }

  lemma PositionInFile(data: Bytes, ps: seq<Physical>, m: nat, filePos: nat, buffer: Bytes, eof: bool)
    requires ReaderOk(data, ps, m, filePos, buffer, eof)
    ensures filePos <= |data|
  {
  }

  // ---------------------------------------------------------------- assembling any fragments

  /** What the lower half delivered. */
  datatype Event = Event(kind: int, fragment: Bytes)

  /** The loop's variables after any events; a record that was returned leaves them cleared for the next call. */
  ghost function Assembling(events: seq<Event>): (bool, Bytes) {
    if events == [] then (false, [])
    else
      var (inFragmented, scratch) := Assembling(events[..|events| - 1]);
      var e := events[|events| - 1];
      var a := Accept(inFragmented, scratch, e.kind, e.fragment);
      if a.finished then (false, []) else (a.inFragmented, a.scratch)
  }

  /** The events from `start` on are a first fragment and middle ones, with nothing else among them. */
  ghost predicate OpenRun(events: seq<Event>, start: nat) {
    && start < |events| && events[start].kind == FIRST as int
    && forall i :: start < i < |events| ==> events[i].kind == MIDDLE as int
  }

  ghost function Joined(events: seq<Event>, start: nat): Bytes
    requires start <= |events|
  {
    if start == |events| then [] else Joined(events[..|events| - 1], start) + events[|events| - 1].fragment
  }

  lemma OpenRunUnique(events: seq<Event>, a: nat, b: nat)
    requires OpenRun(events, a) && OpenRun(events, b)
    ensures a == b
  {
  }

  lemma OpenRunBefore(events: seq<Event>, start: nat)
    requires events != [] && start < |events| - 1
    ensures OpenRun(events, start) <==> OpenRun(events[..|events| - 1], start) && events[|events| - 1].kind == MIDDLE as int
  {
    var init := events[..|events| - 1];
    assert forall i :: 0 <= i < |init| ==> init[i] == events[i];
  }

  /** Whatever came before, a fragment is being assembled exactly if the last events are an unbroken run from a first
      fragment on, and then it is all of that run: nothing is ever stitched together across a gap. */
  lemma {:induction false} AssemblingIs(events: seq<Event>)
    ensures Assembling(events).0 <==> exists start :: OpenRun(events, start)
    ensures forall start :: OpenRun(events, start) ==> Assembling(events).1 == Joined(events, start)
    ensures !Assembling(events).0 ==> Assembling(events).1 == []
    decreases |events|
  {
    if events != [] {
      var n := |events| - 1;
      var init, e := events[..n], events[n];
      AssemblingIs(init);
      var (inFragmented, scratch) := Assembling(init);
      AfterEvent(init, e, inFragmented, scratch);
      assert init + [e] == events;
      hide Accept, OpenRun, Joined;
    }
  }

  lemma AfterEvent(init: seq<Event>, e: Event, inFragmented: bool, scratch: Bytes)
    requires inFragmented <==> exists start :: OpenRun(init, start)
    requires forall start :: OpenRun(init, start) ==> scratch == Joined(init, start)
    requires !inFragmented ==> scratch == []
    ensures var a := Accept(inFragmented, scratch, e.kind, e.fragment);
            var events := init + [e];
            && (!a.finished && a.inFragmented <==> exists start :: OpenRun(events, start))
            && (!a.finished ==> forall start :: OpenRun(events, start) ==> a.scratch == Joined(events, start))
            && (!a.finished && !a.inFragmented ==> a.scratch == [])
  {
    var events := init + [e];
    assert events[..|init|] == init;
    forall start: nat | start < |init| ensures OpenRun(events, start) <==> OpenRun(init, start) && e.kind == MIDDLE as int {
      OpenRunBefore(events, start);
    }
    assert OpenRun(events, |init|) <==> e.kind == FIRST as int;
    if e.kind == FIRST as int {
      assert Joined(events, |init|) == [] + e.fragment;
    }
    if e.kind == MIDDLE as int && inFragmented {
      var start :| OpenRun(init, start);
      assert OpenRun(events, start);
    }
    forall start | OpenRun(events, start) && e.kind == MIDDLE as int ensures Joined(events, start) == Joined(init, start) + e.fragment {
    }
  }

  /** What the next event does after any others: a record is returned exactly for a full one, or for a last fragment that
      ends an unbroken run, and it is that run; every fragment out of place, every broken run and every unknown kind is
      reported, and nothing else. */
  lemma AcceptsExactly(events: seq<Event>, e: Event)
    ensures var (inFragmented, scratch) := Assembling(events);
            var a := Accept(inFragmented, scratch, e.kind, e.fragment);
            && (a.found <==> e.kind == FULL as int || (e.kind == LAST as int && exists start :: OpenRun(events, start)))
            && (e.kind == FULL as int ==> a.record == e.fragment)
            && (e.kind == LAST as int ==> forall start :: OpenRun(events, start) ==> a.record == Joined(events, start) + e.fragment)
            && a.reported == Reports(events, e)
  {
    AssemblingIs(events);
    hide Assembling, Joined;
  }

  ghost function Reports(events: seq<Event>, e: Event): nat {
    var open := exists start :: OpenRun(events, start);
    if e.kind == FULL as int || e.kind == FIRST as int then (if exists start :: OpenRun(events, start) && Joined(events, start) != [] then 1 else 0)
    else if e.kind == MIDDLE as int || e.kind == LAST as int then (if open then 0 else 1)
    else if e.kind == EOF then 0
    else if e.kind == BAD_RECORD then (if open then 1 else 0)
    else 1
  }

  // ------------------------------------------------------------------------ corruption

  /** A written record with other bytes in the place of its kind and payload. */
  function Stored(p: Physical, kind: byte, payload: Bytes): Bytes {
    Header(p)[..HEADER_SIZE - 1] + [kind] + payload
  }

  /** The strings are equal but for a window of one to four bytes. */
  ghost predicate Burst(x: Bytes, y: Bytes) {
    exists a: Bytes, w: Bytes, v: Bytes, c: Bytes :: |w| == |v| <= 4 && w != v && x == a + w + c && y == a + v + c
  }

  lemma BurstChecksum(x: Bytes, y: Bytes)
    requires Burst(x, y)
    ensures ToNat(Crc.Value(x)) != ToNat(Crc.Value(y))
  {
    hide Crc.Value, ToNat;
    var a, w, v, c :| |w| == |v| <= 4 && w != v && x == a + w + c && y == a + v + c;
    BurstDetected(a, w, v, c);
    if ToNat(Crc.Value(x)) == ToNat(Crc.Value(y)) {
      ToNatInjective(Crc.Value(x), Crc.Value(y));
    }
  }

  lemma StoredHeader(p: Physical, kind: byte, payload: Bytes, rest: Bytes, header: Bytes)
    requires |p.payload| == |payload| < 0x1_0000 && header == (Stored(p, kind, payload) + rest)[..HEADER_SIZE]
    ensures LengthIn(header) == |payload| && header[6] == kind && Unmask(DecodeFixed32(header)) == ToNat(Crc.Value([p.kind] + p.payload))
    ensures (Stored(p, kind, payload) + rest)[HEADER_SIZE..HEADER_SIZE + |payload|] == payload
    ensures |Stored(p, kind, payload) + rest| == HEADER_SIZE + |payload| + |rest|
  {
    hide Header, Unmask, DecodeFixed32, Crc.Value, ToNat;
    var whole := Header(p);
    HeaderDecodes(p, whole);
    assert header == whole[..6] + [kind];
    SameFixed32(header, whole);
    assert Stored(p, kind, payload) + rest == (whole[..6] + [kind]) + (payload + rest);
  }

  lemma SameFixed32(a: Bytes, b: Bytes)
    requires |a| == |b| == HEADER_SIZE && a[..6] == b[..6]
    ensures DecodeFixed32(a) == DecodeFixed32(b) && LengthIn(a) == LengthIn(b)
  {
    assert forall i :: 0 <= i < 6 ==> a[i] == a[..6][i] && b[i] == b[..6][i];
  }

  /** Up to four neighbouring bytes of kind and payload changed: the record is refused and reported once, but for an
      empty record whose kind became zero, which is taken for preallocated space and passed over silently. */
  lemma CorruptionDetected(p: Physical, kind: byte, payload: Bytes, rest: Bytes, eof: bool)
    requires |p.payload| == |payload| < 0x1_0000 && Burst([p.kind] + p.payload, [kind] + payload)
    ensures ParseBuffer(Stored(p, kind, payload) + rest, eof) == Outcome(BAD_RECORD, [], [], if kind == 0 && payload == [] then 0 else 1)
  {
    hide Stored, Unmask, DecodeFixed32, Crc.Value, ToNat, Burst;
    var buffer := Stored(p, kind, payload) + rest;
    StoredLength(p, kind, payload);
    StoredHeader(p, kind, payload, rest, buffer[..HEADER_SIZE]);
    BurstChecksum([p.kind] + p.payload, [kind] + payload);
  }

  lemma StoredLength(p: Physical, kind: byte, payload: Bytes)
    ensures |Stored(p, kind, payload)| == HEADER_SIZE + |payload|
  {
    hide Header;
  }

  /** One byte changed is a burst. */
  lemma OneByteIsBurst(x: Bytes, i: nat, b: byte)
    requires i < |x| && x[i] != b
    ensures Burst(x, x[i := b])
  {
    var a, w, v, c := x[..i], [x[i]], [b], x[i + 1..];
    assert x == a + w + c && x[i := b] == a + v + c;
  }

  /** Any other four bytes in the place of the stored checksum: the record is refused and reported. */
  lemma ChecksumChanged(p: Physical, crc: Uint32, rest: Bytes, eof: bool)
    requires |p.payload| < 0x1_0000 && crc != Mask(Checksum(p)) && FULL <= p.kind <= LAST
    ensures ParseBuffer(EncodeFixed32(crc) + Encoded(p)[4..] + rest, eof) == Outcome(BAD_RECORD, [], [], 1)
  {
    hide Unmask, DecodeFixed32, EncodeFixed32, Crc.Value, ToNat, Mask, Checksum;
    var tail := [(|p.payload| % 256) as byte, (|p.payload| / 256 % 256) as byte, p.kind];
    assert Encoded(p)[4..] == tail + p.payload;
    var buffer := EncodeFixed32(crc) + Encoded(p)[4..] + rest;
    assert buffer == (EncodeFixed32(crc) + tail) + (p.payload + rest);
    var header := buffer[..HEADER_SIZE];
    assert header == EncodeFixed32(crc) + tail;
    assert buffer[HEADER_SIZE..HEADER_SIZE + |p.payload|] == p.payload;
    assert LengthIn(header) == |p.payload|;
    Fixed32RoundTrip(crc, tail);
    ChecksumIs(p);
    ExtendConcat([p.kind], p.payload);
    if Unmask(crc) == Checksum(p) {
      UnmaskInjective(crc, Checksum(p));
    }
  }

  lemma UnmaskInjective(masked: Uint32, crc: Uint32)
    requires Unmask(masked) == crc
    ensures masked == Mask(crc)
  {
    var rot: nat := (masked + 0x1_0000_0000 - MASK_DELTA) % 0x1_0000_0000;
    var hi, lo := rot / 0x2_0000, rot % 0x2_0000;
    assert crc == hi + lo * 0x8000;
    assert crc / 0x8000 == lo && crc % 0x8000 == hi;
    assert hi * 0x2_0000 + lo == rot;
  }

  // ------------------------------------------------------------------------ torn tails

  /** Exactly the first `j` records end inside the first `size` bytes. */
  ghost predicate WholeRecords(ends: seq<nat>, size: nat, j: nat) {
    && j <= |ends|
    && (forall i :: 0 <= i < j ==> ends[i] <= size)
    && (forall i :: j <= i < |ends| ==> ends[i] > size)
  }

  lemma MarkBeforeTear(data: Bytes, ps: seq<Physical>, m: nat, i: nat, mark: nat, end: nat)
    requires AtTear(data, ps, m) && MarkOk(ps, i, mark, end)
    ensures i < |ParseAll(ps[..m]).done| <==> end <= |data|
  {
    hide Layout, ParseAll;
    if mark <= m {
      ParsePrefix(ps, mark, m);
      LayoutPrefix(ps, mark, m);
    } else {
      ParsePrefix(ps, m, mark - 1);
      LayoutPrefix(ps, m + 1, mark);
    }
  }

  lemma TearAfterWholeRecords(data: Bytes, ps: seq<Physical>, m: nat, records: seq<Bytes>, marks: seq<nat>, ends: seq<nat>)
    requires AtTear(data, ps, m) && MarksOk(ps, records, marks, ends) && ParseAll(ps).done == records
    ensures var done := ParseAll(ps[..m]).done; done <= records && WholeRecords(ends, |data|, |done|)
  {
    hide MarkOk, ParseAll, AtTear;
    TearInside(data, ps, m);
    ParsePrefix(ps, m, |ps|);
    assert ps[..|ps|] == ps;
    forall i | 0 <= i < |records| ensures i < |ParseAll(ps[..m]).done| <==> ends[i] <= |data| {
      assert MarkOk(ps, i, marks[i], ends[i]);
      MarkBeforeTear(data, ps, m, i, marks[i], ends[i]);
    }
  }

  lemma TearInside(data: Bytes, ps: seq<Physical>, m: nat)
    requires AtTear(data, ps, m)
    ensures m <= |ps|
  {
  }

  /** Read a log file to its end. */
  method ReadAll(file: Bytes, ghost ps: seq<Physical>) returns (out: seq<Bytes>, drops: nat, ghost m: nat)
    requires file <= Layout(ps) && WellLaid(ps) && ParseAll(ps).ok
    ensures AtTear(file, ps, m) && m <= |ps| && out == ParseAll(ps[..m]).done && drops == 0
  {
    hide *;
    var reader := new Reader(file, ps);
    out := [];
    NothingRead(ps);
    while true
      invariant reader.Valid() && reader.file == file && reader.ps == ps && reader.m <= |ps| && reader.drops == 0
      invariant ParseAll(ps[..reader.m]).open.None? && out == ParseAll(ps[..reader.m]).done
      decreases |ps| - reader.m
    {
      ghost var before := reader.m;
      var found, record := reader.ReadRecord();
      if !found {
        break;
      }
      MoreRead(ps, before, reader.m, out, record);
      out := out + [record];
    }
    drops, m := reader.drops, reader.m;
  }

  lemma NothingRead(ps: seq<Physical>)
    ensures ParseAll(ps[..0]) == Parse([], None, true)
  {
  }

  lemma MoreRead(ps: seq<Physical>, a: nat, b: nat, out: seq<Bytes>, record: Bytes)
    requires a <= b <= |ps| && out == ParseAll(ps[..a]).done && ParseAll(ps[..b]).done == out + [record]
    ensures a < b
  {
    hide ParseAll;
    assert |out + [record]| == |out| + 1;
  }

  /** Write any records, cut the file anywhere, read it back: exactly the records that end inside the
      cut come back, in order, and no corruption is reported.  The file written is a log of exactly the
      records, and `ends[i]` is where record `i` ends in it. */
  method TornTailRoundTrip(records: seq<Bytes>, size: nat)
    returns (out: seq<Bytes>, drops: nat, file: Bytes, ghost ps: seq<Physical>, ghost marks: seq<nat>, ghost ends: seq<nat>)
    ensures file == Layout(ps) && WellLaid(ps) && ParseAll(ps) == Parse(records, None, true) && MarksOk(ps, records, marks, ends)
    ensures |ends| == |records| && (records != [] ==> ends[|ends| - 1] == |file|)
    ensures WholeRecords(ends, size, |out|) && out <= records && drops == 0
    ensures size >= |file| ==> out == records
  {
    hide *;
    var writer := new Writer();
    for i := 0 to |records|
      invariant writer.Valid() && writer.records == records[..i] && |writer.ends| == i
      invariant i > 0 ==> writer.ends[i - 1] == |writer.dest|
    {
      writer.AddRecord(records[i]);
    }
    assert records[..|records|] == records;
    file, ends, ps, marks := writer.dest, writer.ends, writer.ps, writer.marks;
    WrittenFacts(writer);
    var prefix := if size < |file| then file[..size] else file;
    ghost var m;
    out, drops, m := ReadAll(prefix, ps);
    TearAfterWholeRecords(prefix, ps, m, records, marks, ends);
    EndsInside(ps, records, marks, ends, |file|);
    CutAt(ends, size, |file|, |prefix|, |out|);
  }

  lemma WrittenFacts(w: Writer)
    requires w.Valid()
    ensures w.dest == Layout(w.ps) && WellLaid(w.ps) && ParseAll(w.ps) == Parse(w.records, None, true)
    ensures MarksOk(w.ps, w.records, w.marks, w.ends)
  {
    hide Layout, WellLaid, ParseAll, MarksOk;
  }

  lemma EndsInside(ps: seq<Physical>, records: seq<Bytes>, marks: seq<nat>, ends: seq<nat>, size: nat)
    requires MarksOk(ps, records, marks, ends) && size == |Layout(ps)|
    ensures forall i :: 0 <= i < |ends| ==> ends[i] <= size
  {
    hide Layout, ParseAll;
    forall i | 0 <= i < |ends| ensures ends[i] <= size {
      assert MarkOk(ps, i, marks[i], ends[i]);
      LayoutPrefix(ps, marks[i], |ps|);
      assert ps[..|ps|] == ps;
    }
  }

  lemma CutAt(ends: seq<nat>, size: nat, length: nat, cut: nat, j: nat)
    requires WholeRecords(ends, cut, j) && cut == (if size < length then size else length)
    requires forall i :: 0 <= i < |ends| ==> ends[i] <= length
    ensures WholeRecords(ends, size, j) && (size >= length ==> j == |ends|)
  {
    assert j < |ends| ==> ends[j] > cut;
  }
}
