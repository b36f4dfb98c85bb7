/** The encoder.  A sizing stream only counts; a nested message or packed array is encoded twice, first
    to learn its length and then to write it. */
module PbEncode {
  import opened DbFormat
  import opened PbVarint
  import opened Coding
  import opened PbMessage

  /** An output stream; a sizing stream has no buffer and never fills up. */
  datatype OStream = OStream(sizing: bool, out: Bytes, written: nat, maxSize: nat)

  const SIZING := OStream(true, [], 0, 0)

  predicate HasRoom(s: OStream, n: nat) {
    s.sizing || s.written + n <= s.maxSize
  }

  ghost function After(s: OStream, w: Bytes): OStream {
    s.(out := if s.sizing then s.out else s.out + w, written := s.written + |w|)
  }

  /** The outcome of writing `w`: success exactly when there is room, with every byte counted, and
      stored unless the stream is only sizing. */
  ghost predicate Wrote(s: OStream, s': OStream, ok: bool, w: Bytes) {
    && (ok <==> HasRoom(s, |w|))
    && (ok ==> s' == After(s, w))
  }

  predicate ValidStream(s: OStream) {
    HasRoom(s, 0)
  }

  lemma WroteThen(s: OStream, s1: OStream, s2: OStream, ok2: bool, w1: Bytes, w2: Bytes)
    requires Wrote(s, s1, true, w1) && Wrote(s1, s2, ok2, w2)
    ensures Wrote(s, s2, ok2, w1 + w2)
  {
    assert s.out + w1 + w2 == s.out + (w1 + w2);
  }

  lemma WroteFails(s: OStream, s1: OStream, w1: Bytes, w2: Bytes)
    requires Wrote(s, s1, false, w1)
    ensures Wrote(s, s1, false, w1 + w2)
  {
  }

  lemma WroteNothing(s: OStream)
    requires ValidStream(s)
    ensures Wrote(s, s, true, [])
  {
  }

  lemma WroteValid(s: OStream, s': OStream, w: Bytes)
    requires Wrote(s, s', true, w)
    ensures ValidStream(s')
  {
  }

  method PbWrite(s: OStream, buf: Bytes) returns (ok: bool, s': OStream)
    requires ValidStream(s)
    ensures Wrote(s, s', ok, buf)
  {
    s' := s;
    if |buf| > 0 && !s.sizing {
      if s.written + |buf| > s.maxSize {
        return false, s;
      }
      s' := s'.(out := s'.out + buf);
    }
    s' := s'.(written := s'.written + |buf|);
    return true, s';
  }

  method WriteVarint(s: OStream, v: nat) returns (ok: bool, s': OStream)
    requires ValidStream(s)
    ensures Wrote(s, s', ok, Varint(v))
  {
    var buffer := EncodeVarint(v);
    ok, s' := PbWrite(s, buffer);
  }

  method WriteTag(s: OStream, wireType: nat, tag: nat) returns (ok: bool, s': OStream)
    requires ValidStream(s)
    ensures Wrote(s, s', ok, Tag(wireType, tag))
  {
    ok, s' := WriteVarint(s, tag * 8 + wireType);
  }

  method WriteString(s: OStream, b: Bytes) returns (ok: bool, s': OStream)
    requires ValidStream(s)
    ensures Wrote(s, s', ok, Delimited(b))
  {
    hide Wrote, ValidStream, Varint;
    ok, s' := WriteVarint(s, |b|);
    if !ok {
      WroteFails(s, s', Varint(|b|), b);
      return;
    }
    WroteValid(s, s', Varint(|b|));
    var s1 := s';
    ok, s' := PbWrite(s1, b);
    WroteThen(s, s1, s', ok, Varint(|b|), b);
  }

  // --------------------------------------------------------------------------- what encodes

  /** Nothing exceeds the capacity its descriptor gives it. */
  ghost predicate ItemBounded(t: LType, v: Value)
    decreases t
  {
    match t
    case Blobs(max) => |v.AsBytes()| <= max
    case Submessage(d) => Bounded(d, v)
    case _ => true
  }

  ghost predicate FieldBounded(f: Field, items: seq<Value>)
    decreases f
  {
    if f.htype.Repeated? then |items| <= f.htype.arraySize && forall j :: 0 <= j < |items| ==> ItemBounded(f.ltype, items[j])
    else items != [] ==> ItemBounded(f.ltype, items[0])
  }

  ghost predicate Bounded(d: Descriptor, v: Value)
    decreases d
  {
    forall i :: 0 <= i < |d.fields| ==> FieldBounded(d.fields[i], v.Items(i))
  }

  /** What an encoder call returns for bytes `w`: an error if the data is not within bounds. */
  ghost predicate Outcome(s: OStream, s': OStream, ok: bool, w: Bytes, bounded: bool) {
    if bounded then Wrote(s, s', ok, w) else !ok
  }

  lemma OutcomeThen(s: OStream, s1: OStream, s2: OStream, ok2: bool, w1: Bytes, w2: Bytes, b1: bool, b2: bool)
    requires Outcome(s, s1, true, w1, b1) && Outcome(s1, s2, ok2, w2, b2)
    ensures b1 && Outcome(s, s2, ok2, w1 + w2, b1 && b2)
  {
    if b2 {
      WroteThen(s, s1, s2, ok2, w1, w2);
    }
  }

  lemma OutcomeFails(s: OStream, s1: OStream, w1: Bytes, w2: Bytes, b1: bool, b2: bool)
    requires Outcome(s, s1, false, w1, b1)
    ensures Outcome(s, s1, false, w1 + w2, b1 && b2)
  {
  }

  lemma OutcomeValid(s: OStream, s': OStream, w: Bytes, b: bool)
    requires Outcome(s, s', true, w, b)
    ensures ValidStream(s')
  {
  }

  lemma WroteIsOutcome(s: OStream, s': OStream, ok: bool, w: Bytes)
    ensures Wrote(s, s', ok, w) <==> Outcome(s, s', ok, w, true)
  {
  }

  // ------------------------------------------------------------------------------ encoders

  method EncodeItem(s: OStream, t: LType, v: Value) returns (ok: bool, s': OStream)
    requires ValidStream(s)
    ensures Outcome(s, s', ok, ItemWire(t, v), ItemBounded(t, v))
    decreases t, 0
  {
    hide ValidStream, Wrote, Varint, Delimited, Digits, Wire, Bounded;
    match t
    case Bool =>
      ok, s' := WriteVarint(s, if v.AsInt() != 0 then 1 else 0);
    case Signed(_) =>
      ok, s' := WriteVarint(s, ToUnsigned(v.AsInt()));
    case Unsigned(_) =>
      ok, s' := WriteVarint(s, ToUnsigned(v.AsInt()));
    case ZigZagged(_) =>
      ok, s' := WriteVarint(s, ToUnsigned(ZigZag(v.AsInt())));
    case Fixed32 =>
      ok, s' := PbWrite(s, Digits(v.AsInt() % TWO_32, 4));
    case Fixed64 =>
      ok, s' := PbWrite(s, Digits(v.AsInt() % TWO_64, 8));
    case Blobs(max) =>
      if |v.AsBytes()| > max {
        return false, s;
      }
      ok, s' := WriteString(s, v.AsBytes());
    case Text(_) =>
      ok, s' := WriteString(s, v.AsBytes());
    case FixedBlob(_) =>
      ok, s' := WriteString(s, v.AsBytes());
    case Submessage(d) =>
      ok, s' := EncodeSubmessage(s, d, v);
  }

  /** Encode into a sizing stream to learn the length, write the length, then encode into a substream
      that admits exactly that many bytes. */
  method EncodeSubmessage(s: OStream, d: Descriptor, v: Value) returns (ok: bool, s': OStream)
    requires ValidStream(s)
    ensures Outcome(s, s', ok, Delimited(Wire(d, v)), Bounded(d, v))
    decreases d, 2
  {
    hide *;
    ghost var w := Wire(d, v);
    ghost var b := Bounded(d, v);
    SizingIsValid();
    var sub: OStream;
    ok, sub := Encode(SIZING, d, v);
    SizedExactly(sub, ok, w, b);
    if !ok {
      UnboundedFails(s, s, Delimited(w));
      return false, s;
    }
    var size := sub.written;
    var s1: OStream;
    ok, s1 := WriteVarint(s, size);
    WroteIsOutcome(s, s1, ok, Varint(size));
    UnfoldDelimited(w);
    if !ok {
      OutcomeFails(s, s1, Varint(size), w, true, true);
      return false, s1;
    }
    OutcomeValid(s, s1, Varint(size), true);
    if s1.sizing {
      s' := s1.(written := s1.written + size);
      CountedOnly(s1, s', w);
      OutcomeThen(s, s1, s', true, Varint(size), w, true, true);
      return true, s';
    }
    if s1.written + size > s1.maxSize {
      TooLong(s1, w);
      OutcomeThen(s, s1, s1, false, Varint(size), w, true, true);
      return false, s1;
    }
    SubstreamValid(s1.out, size);
    ok, sub := Encode(OStream(false, s1.out, 0, size), d, v);
    SubstreamExact(s1, sub, ok, w);
    s' := s1.(out := sub.out, written := s1.written + sub.written);
    ok := ok && sub.written == size;
    OutcomeThen(s, s1, s', ok, Varint(size), w, true, true);
  }

  lemma SizingIsValid()
    ensures ValidStream(SIZING)
  {
  }

  lemma SizedExactly(sub: OStream, ok: bool, w: Bytes, b: bool)
    requires Outcome(SIZING, sub, ok, w, b)
    ensures ok <==> b
    ensures ok ==> sub.written == |w|
  {
  }

  lemma UnboundedFails(s: OStream, s': OStream, w: Bytes)
    ensures Outcome(s, s', false, w, false)
  {
  }

  lemma UnfoldDelimited(w: Bytes)
    ensures Delimited(w) == Varint(|w|) + w
  {
  }

  lemma CountedOnly(s: OStream, s': OStream, w: Bytes)
    requires s.sizing && s' == s.(written := s.written + |w|)
    ensures Outcome(s, s', true, w, true)
  {
  }

  lemma TooLong(s: OStream, w: Bytes)
    requires !s.sizing && s.written + |w| > s.maxSize
    ensures Outcome(s, s, false, w, true)
  {
  }

  lemma SubstreamValid(out: Bytes, size: nat)
    ensures ValidStream(OStream(false, out, 0, size))
  {
  }

  lemma SubstreamExact(s1: OStream, sub: OStream, ok: bool, w: Bytes)
    requires !s1.sizing && s1.written + |w| <= s1.maxSize
    requires Outcome(OStream(false, s1.out, 0, |w|), sub, ok, w, true)
    ensures ok && sub.written == |w|
    ensures Outcome(s1, s1.(out := sub.out, written := s1.written + sub.written), true, w, true)
  {
  }

  /** A key and one item. */
  method EncodeTagged(s: OStream, f: Field, v: Value) returns (ok: bool, s': OStream)
    requires ValidStream(s) && !f.Packed()
    ensures Outcome(s, s', ok, ChunkWire(f, [v]), ItemBounded(f.ltype, v))
    decreases f, 0
  {
    hide *;
    var s1: OStream;
    ok, s1 := WriteTag(s, f.ltype.WireType(), f.tag);
    ghost var w1, w2, b := Tag(f.ltype.WireType(), f.tag), ItemWire(f.ltype, v), ItemBounded(f.ltype, v);
    TaggedIs(f, v);
    WroteIsOutcome(s, s1, ok, w1);
    if !ok {
      OutcomeFails(s, s1, w1, w2, true, b);
      return false, s1;
    }
    OutcomeValid(s, s1, w1, true);
    ok, s' := EncodeItem(s1, f.ltype, v);
    OutcomeThen(s, s1, s', ok, w1, w2, true, b);
  }

  lemma TaggedIs(f: Field, v: Value)
    requires !f.Packed()
    ensures ChunkWire(f, [v]) == Tag(f.ltype.WireType(), f.tag) + ItemWire(f.ltype, v)
  {
    hide ItemWire, Tag;
  }

  ghost predicate AllBounded(t: LType, items: seq<Value>) {
    forall j :: 0 <= j < |items| ==> ItemBounded(t, items[j])
  }

  lemma AllBoundedStep(t: LType, items: seq<Value>, j: nat)
    requires j < |items|
    ensures AllBounded(t, items[..j + 1]) <==> AllBounded(t, items[..j]) && ItemBounded(t, items[j])
    ensures AllBounded(t, items) ==> AllBounded(t, items[..j + 1])
  {
    hide ItemBounded;
    if AllBounded(t, items[..j + 1]) {
      assert items[..j + 1][j] == items[j];
      forall x | 0 <= x < j ensures ItemBounded(t, items[..j][x]) {
        assert items[..j][x] == items[..j + 1][x];
      }
    }
  }

  lemma NoItems(t: LType, f: Field, items: seq<Value>)
    ensures items[..0] == [] && ItemsWire(t, items[..0]) == [] && TaggedItems(f, items[..0]) == [] && AllBounded(t, items[..0])
  {
  }

  /** The items of an array one after the other. */
  method EncodeItems(s: OStream, t: LType, items: seq<Value>) returns (ok: bool, s': OStream)
    requires ValidStream(s)
    ensures Outcome(s, s', ok, ItemsWire(t, items), AllBounded(t, items))
    decreases t, 1
  {
    hide *;
    s' := s;
    NoItems(t, Field(0, t, Required), items);
    WroteNothing(s);
    WroteIsOutcome(s, s', true, []);
    for j := 0 to |items|
      invariant ValidStream(s')
      invariant Outcome(s, s', true, ItemsWire(t, items[..j]), AllBounded(t, items[..j]))
    {
      var s1 := s';
      ItemsWireStep(t, items, j);
      AllBoundedStep(t, items, j);
      ok, s' := EncodeItem(s1, t, items[j]);
      OutcomeThen(s, s1, s', ok, ItemsWire(t, items[..j]), ItemWire(t, items[j]), AllBounded(t, items[..j]), ItemBounded(t, items[j]));
      if !ok {
        RestFails(s, s', t, items, j);
        return false, s';
      }
      OutcomeValid(s, s', ItemsWire(t, items[..j + 1]), AllBounded(t, items[..j + 1]));
    }
    assert items[..|items|] == items;
    ok := true;
  }

  lemma RestFails(s: OStream, s': OStream, t: LType, items: seq<Value>, j: nat)
    requires j < |items| && Outcome(s, s', false, ItemsWire(t, items[..j + 1]), AllBounded(t, items[..j + 1]))
    ensures Outcome(s, s', false, ItemsWire(t, items), AllBounded(t, items))
  {
    hide ItemsWire, AllBounded;
    AllBoundedStep(t, items, j);
    ItemsWireConcat(t, items[..j + 1], items[j + 1..]);
    assert items[..j + 1] + items[j + 1..] == items;
  }

  lemma PackableBounded(f: Field, items: seq<Value>)
    requires f.Packed()
    ensures AllBounded(f.ltype, items)
    ensures |items| <= f.htype.arraySize ==> FieldBounded(f, items)
    ensures items != [] ==> FieldWire(f, items) == Tag(2, f.tag) + (Varint(|ItemsWire(f.ltype, items)|) + ItemsWire(f.ltype, items))
  {
    hide ItemsWire, Tag, Varint;
  }

  /** The length of a packed array's data: known for fixed-width items, otherwise found by sizing. */
  method PackedSize(t: LType, items: seq<Value>) returns (size: nat)
    requires t.Packable() && AllBounded(t, items)
    ensures size == |ItemsWire(t, items)|
    decreases t, 2
  {
    hide ItemsWire, AllBounded, Outcome, ValidStream;
    FixedItemsWire(t, items);
    if t.Fixed32? {
      size := 4 * |items|;
    } else if t.Fixed64? {
      size := 8 * |items|;
    } else {
      SizingIsValid();
      var ok, sub := EncodeItems(SIZING, t, items);
      SizedExactly(sub, ok, ItemsWire(t, items), true);
      size := sub.written;
    }
  }

  method EncodePacked(s: OStream, f: Field, items: seq<Value>) returns (ok: bool, s': OStream)
    requires ValidStream(s) && f.Packed() && items != [] && |items| <= f.htype.arraySize
    ensures Outcome(s, s', ok, FieldWire(f, items), FieldBounded(f, items))
    decreases f, 0
  {
    hide *;
    PackableBounded(f, items);
    PackedIsPackable(f);
    ghost var w := ItemsWire(f.ltype, items);
    var s1: OStream;
    ok, s1 := WriteTag(s, 2, f.tag);
    WroteIsOutcome(s, s1, ok, Tag(2, f.tag));
    if !ok {
      OutcomeFails(s, s1, Tag(2, f.tag), Varint(|w|) + w, true, true);
      return false, s1;
    }
    OutcomeValid(s, s1, Tag(2, f.tag), true);
    var size := PackedSize(f.ltype, items);
    var s2: OStream;
    ok, s2 := WriteVarint(s1, size);
    WroteIsOutcome(s1, s2, ok, Varint(|w|));
    if !ok {
      OutcomeFails(s1, s2, Varint(|w|), w, true, true);
      OutcomeThen(s, s1, s2, false, Tag(2, f.tag), Varint(|w|) + w, true, true);
      return false, s2;
    }
    OutcomeValid(s1, s2, Varint(|w|), true);
    if s2.sizing {
      ok, s' := true, s2.(written := s2.written + size);
      CountedOnly(s2, s', w);
    } else {
      ok, s' := EncodeItems(s2, f.ltype, items);
    }
    OutcomeThen(s1, s2, s', ok, Varint(|w|), w, true, true);
    OutcomeThen(s, s1, s', ok, Tag(2, f.tag), Varint(|w|) + w, true, true);
  }

  lemma PackedIsPackable(f: Field)
    ensures f.Packed() <==> f.htype.Repeated? && f.ltype.Packable()
  {
  }

  /** An array of strings, bytes or messages: every item with its own key. */
  method EncodeUnpacked(s: OStream, f: Field, items: seq<Value>) returns (ok: bool, s': OStream)
    requires ValidStream(s) && !f.Packed()
    ensures Outcome(s, s', ok, TaggedItems(f, items), AllBounded(f.ltype, items))
    decreases f, 1
  {
    hide *;
    s' := s;
    NoItems(f.ltype, f, items);
    WroteNothing(s);
    WroteIsOutcome(s, s', true, []);
    for j := 0 to |items|
      invariant ValidStream(s')
      invariant Outcome(s, s', true, TaggedItems(f, items[..j]), AllBounded(f.ltype, items[..j]))
    {
      var s1 := s';
      TaggedItemsStep(f, items, j);
      AllBoundedStep(f.ltype, items, j);
      ok, s' := EncodeTagged(s1, f, items[j]);
      OutcomeThen(s, s1, s', ok, TaggedItems(f, items[..j]), ChunkWire(f, [items[j]]), AllBounded(f.ltype, items[..j]), ItemBounded(f.ltype, items[j]));
      if !ok {
        RestOfArrayFails(s, s', f, items, j);
        return false, s';
      }
      OutcomeValid(s, s', TaggedItems(f, items[..j + 1]), AllBounded(f.ltype, items[..j + 1]));
    }
    assert items[..|items|] == items;
    ok := true;
  }

  lemma {:induction false} TaggedItemsConcat(f: Field, a: seq<Value>, b: seq<Value>)
    ensures TaggedItems(f, a + b) == TaggedItems(f, a) + TaggedItems(f, b)
    decreases |a|
  {
    hide ChunkWire;
    if a == [] {
      assert a + b == b;
    } else {
      assert (a + b)[1..] == a[1..] + b;
      TaggedItemsConcat(f, a[1..], b);
    }
  }

  lemma RestOfArrayFails(s: OStream, s': OStream, f: Field, items: seq<Value>, j: nat)
    requires j < |items| && Outcome(s, s', false, TaggedItems(f, items[..j + 1]), AllBounded(f.ltype, items[..j + 1]))
    ensures Outcome(s, s', false, TaggedItems(f, items), AllBounded(f.ltype, items))
  {
    hide TaggedItems, AllBounded;
    AllBoundedStep(f.ltype, items, j);
    TaggedItemsConcat(f, items[..j + 1], items[j + 1..]);
    assert items[..j + 1] + items[j + 1..] == items;
  }

  method EncodeArray(s: OStream, f: Field, items: seq<Value>) returns (ok: bool, s': OStream)
    requires ValidStream(s) && f.htype.Repeated?
    ensures Outcome(s, s', ok, FieldWire(f, items), FieldBounded(f, items))
    decreases f, 2
  {
    hide Outcome, ValidStream, ItemBounded, TaggedItems, ChunkWire, Wrote;
    if items == [] {
      WroteNothing(s);
      WroteIsOutcome(s, s, true, []);
      return true, s;
    }
    if |items| > f.htype.arraySize {
      UnboundedFails(s, s, FieldWire(f, items));
      return false, s;
    }
    if f.ltype.Packable() {
      ok, s' := EncodePacked(s, f, items);
    } else {
      ok, s' := EncodeUnpacked(s, f, items);
      assert AllBounded(f.ltype, items) <==> FieldBounded(f, items);
    }
  }

  /** A field by its rule: present once, present if set, the chosen member of a union, or an array. */
  method EncodeField(s: OStream, f: Field, items: seq<Value>) returns (ok: bool, s': OStream)
    requires ValidStream(s)
    ensures Outcome(s, s', ok, FieldWire(f, items), FieldBounded(f, items))
    decreases f, 3
  {
    hide Outcome, ValidStream, ItemBounded, TaggedItems, ChunkWire, Wrote;
    if f.htype.Repeated? {
      ok, s' := EncodeArray(s, f, items);
    } else if items == [] {
      WroteNothing(s);
      WroteIsOutcome(s, s, true, []);
      return true, s;
    } else {
      ok, s' := EncodeTagged(s, f, items[0]);
    }
  }

  // ----------------------------------------------------------------------------- pb_encode

  ghost predicate BoundedUpTo(d: Descriptor, v: Value, n: nat)
    requires n <= |d.fields|
  {
    forall i :: 0 <= i < n ==> FieldBounded(d.fields[i], v.Items(i))
  }

  lemma BoundedStep(d: Descriptor, v: Value, n: nat)
    requires n < |d.fields|
    ensures BoundedUpTo(d, v, n + 1) <==> BoundedUpTo(d, v, n) && FieldBounded(d.fields[n], v.Items(n))
    ensures Bounded(d, v) ==> BoundedUpTo(d, v, n + 1)
  {
    hide FieldBounded;
  }

  lemma EncodeStarts(d: Descriptor, v: Value)
    ensures ChunksWire(d, Chunks(d, v, 0)) == [] && BoundedUpTo(d, v, 0)
    ensures BoundedUpTo(d, v, |d.fields|) <==> Bounded(d, v)
    ensures ChunksWire(d, Chunks(d, v, |d.fields|)) == Wire(d, v)
  {
    hide FieldBounded;
  }

  lemma {:induction false} RestOfMessage(d: Descriptor, v: Value, n: nat) returns (rest: Bytes)
    requires n <= |d.fields|
    ensures Wire(d, v) == ChunksWire(d, Chunks(d, v, n)) + rest
    decreases |d.fields| - n
  {
    hide ChunksWire, FieldWire;
    if n == |d.fields| {
      rest := [];
    } else {
      var more := RestOfMessage(d, v, n + 1);
      WireStep(d, v, n);
      var w := FieldWire(d.fields[n], v.Items(n));
      assert ChunksWire(d, Chunks(d, v, n)) + w + more == ChunksWire(d, Chunks(d, v, n)) + (w + more);
      rest := w + more;
    }
  }

  lemma RestOfMessageFails(s: OStream, s': OStream, d: Descriptor, v: Value, n: nat)
    requires n < |d.fields| && Outcome(s, s', false, ChunksWire(d, Chunks(d, v, n + 1)), BoundedUpTo(d, v, n + 1))
    ensures Outcome(s, s', false, Wire(d, v), Bounded(d, v))
  {
    hide ChunksWire, Wire, BoundedUpTo, Bounded;
    BoundedStep(d, v, n);
    var rest := RestOfMessage(d, v, n + 1);
  }

  /** Encode a message: success exactly when everything is within bounds and there is room, and then the
      stream has grown by the message's wire form.  On a sizing stream this counts exactly the bytes
      that a writing stream would receive. */
  method Encode(s: OStream, d: Descriptor, v: Value) returns (ok: bool, s': OStream)
    requires ValidStream(s)
    ensures Outcome(s, s', ok, Wire(d, v), Bounded(d, v))
    decreases d, 0
  {
    hide *;
    s' := s;
    EncodeStarts(d, v);
    WroteNothing(s);
    WroteIsOutcome(s, s', true, []);
    for n := 0 to |d.fields|
      invariant ValidStream(s')
      invariant Outcome(s, s', true, ChunksWire(d, Chunks(d, v, n)), BoundedUpTo(d, v, n))
    {
      var s1 := s';
      var f, items := d.fields[n], v.Items(n);
      WireStep(d, v, n);
      BoundedStep(d, v, n);
      ok, s' := EncodeField(s1, f, items);
      OutcomeThen(s, s1, s', ok, ChunksWire(d, Chunks(d, v, n)), FieldWire(f, items), BoundedUpTo(d, v, n), FieldBounded(f, items));
      if !ok {
        RestOfMessageFails(s, s', d, v, n);
        return false, s';
      }
      OutcomeValid(s, s', ChunksWire(d, Chunks(d, v, n + 1)), BoundedUpTo(d, v, n + 1));
    }
    ok := true;
  }
}
