/** Protocol Buffers messages: descriptors, values, and the bytes a message stands for. */
module PbMessage {
  import opened DbFormat
  import opened PbVarint
  import opened Coding

  // ---------------------------------------------------------------------------- descriptors

  /** How a field's data is stored and coded; integer sizes are in bytes. */
  datatype LType =
    | Bool
    | Signed(size: nat)
    | Unsigned(size: nat)
    | ZigZagged(size: nat)
    | Fixed32
    | Fixed64
    | Blobs(max: nat)
    | Text(max: nat)
    | FixedBlob(size: nat)
    | Submessage(desc: Descriptor)
  {
    predicate Packable() {
      Bool? || Signed? || Unsigned? || ZigZagged? || Fixed32? || Fixed64?
    }

    function WireType(): nat {
      if Bool? || Signed? || Unsigned? || ZigZagged? then 0
      else if Fixed64? then 1
      else if Fixed32? then 5
      else 2
    }
  }

  datatype HType = Required | Optional | Repeated(arraySize: nat) | Oneof(group: nat)

  datatype Field = Field(tag: nat, ltype: LType, htype: HType) {
    /** Arrays of scalars are always packed. */
    predicate Packed() {
      htype.Repeated? && ltype.Packable()
    }
  }

  datatype Descriptor = Descriptor(fields: seq<Field>)

  /** What the generator guarantees of a descriptor. */
  ghost predicate WellFormed(d: Descriptor)
    decreases d
  {
    && (forall i, j :: 0 <= i < j < |d.fields| ==> d.fields[i].tag != d.fields[j].tag)
    && (forall i :: 0 <= i < |d.fields| ==> 0 < d.fields[i].tag < 0x2000_0000)
    && (forall i :: 0 <= i < |d.fields| && d.fields[i].ltype.Submessage? ==> WellFormed(d.fields[i].ltype.desc))
  }

  // --------------------------------------------------------------------------------- values

  /** Data of one field: the elements of an array, or at most one value. */
  datatype Slot = Slot(items: seq<Value>)

  datatype Value = Int(i: int) | Blob(bytes: Bytes) | Message(slots: seq<Slot>) {
    function AsInt(): int {
      if Int? then i else 0
    }

    function AsBytes(): Bytes {
      if Blob? then bytes else []
    }

    function Items(n: nat): seq<Value> {
      if Message? && n < |slots| then slots[n].items else []
    }
  }

  predicate IntegerSize(size: nat) {
    size == 1 || size == 2 || size == 4 || size == 8
  }

  /** 2^(8 * size - 1) for the integer sizes. */
  function Half(size: nat): int {
    if size == 1 then 0x80 else if size == 2 then 0x8000 else if size == 4 then TWO_31 else TWO_63
  }

  /** The C type of a field admits the value. */
  ghost predicate ItemTyped(t: LType, v: Value)
    decreases t
  {
    match t
    case Bool => v.Int? && 0 <= v.i <= 1
    case Signed(size) => IntegerSize(size) && v.Int? && -Half(size) <= v.i < Half(size)
    case Unsigned(size) => IntegerSize(size) && v.Int? && 0 <= v.i < 2 * Half(size)
    case ZigZagged(size) => IntegerSize(size) && v.Int? && -Half(size) <= v.i < Half(size)
    case Fixed32 => v.Int? && 0 <= v.i < TWO_32
    case Fixed64 => v.Int? && 0 <= v.i < TWO_64
    case Blobs(max) => v.Blob? && |v.bytes| <= max
    case Text(max) => v.Blob? && |v.bytes| <= max && (0 as byte) !in v.bytes
    case FixedBlob(size) => v.Blob? && |v.bytes| == size
    case Submessage(d) => MessageTyped(d, v)
  }

  ghost predicate MessageTyped(d: Descriptor, v: Value)
    decreases d
  {
    && v.Message? && |v.slots| == |d.fields|
    && (forall i :: 0 <= i < |d.fields| ==> CountOk(d.fields[i].htype, |v.slots[i].items|))
    && (forall i, j :: 0 <= i < |d.fields| && 0 <= j < |v.slots[i].items| ==> ItemTyped(d.fields[i].ltype, v.slots[i].items[j]))
    && OneofsOk(d, v)
  }

  predicate CountOk(htype: HType, n: nat) {
    match htype
    case Required => n == 1
    case Optional => n <= 1
    case Repeated(arraySize) => n <= arraySize
    case Oneof(_) => n <= 1
  }

  /** A union holds at most one of its members. */
  ghost predicate OneofsOk(d: Descriptor, v: Value) {
    forall i, j :: 0 <= i < j < |d.fields| && SameOneof(d.fields[i], d.fields[j]) ==> v.Items(i) == [] || v.Items(j) == []
  }

  predicate SameOneof(f: Field, g: Field) {
    f.htype.Oneof? && g.htype.Oneof? && f.htype.group == g.htype.group
  }

  // ----------------------------------------------------------------------------------- wire

  function Tag(wireType: nat, tag: nat): Bytes {
    Varint(tag * 8 + wireType)
  }

  function Delimited(b: Bytes): Bytes {
    Varint(|b|) + b
  }

  function ItemWire(t: LType, v: Value): Bytes
    decreases t, 0
  {
    match t
    case Bool => Varint(if v.AsInt() != 0 then 1 else 0)
    case Signed(_) => Varint(ToUnsigned(v.AsInt()))
    case Unsigned(_) => Varint(ToUnsigned(v.AsInt()))
    case ZigZagged(_) => Varint(ToUnsigned(ZigZag(v.AsInt())))
    case Fixed32 => Digits(v.AsInt() % TWO_32, 4)
    case Fixed64 => Digits(v.AsInt() % TWO_64, 8)
    case Blobs(_) => Delimited(v.AsBytes())
    case Text(_) => Delimited(v.AsBytes())
    case FixedBlob(_) => Delimited(v.AsBytes())
    case Submessage(d) => Delimited(Wire(d, v))
  }

  function ItemsWire(t: LType, items: seq<Value>): Bytes
    decreases t, 1, |items|
  {
    if items == [] then [] else ItemWire(t, items[0]) + ItemsWire(t, items[1..])
  }

  /** One key and its data on the wire: a packed array or a single item. */
  datatype Chunk = Chunk(field: nat, items: seq<Value>)

  function ChunkWire(f: Field, items: seq<Value>): Bytes
    decreases f
  {
    if f.Packed() then Tag(2, f.tag) + Delimited(ItemsWire(f.ltype, items))
    else if items == [] then []
    else Tag(f.ltype.WireType(), f.tag) + ItemWire(f.ltype, items[0])
  }

  /** The chunks of one field. */
  function FieldChunks(n: nat, f: Field, items: seq<Value>): seq<Chunk> {
    if items == [] then []
    else if f.Packed() then [Chunk(n, items)]
    else if f.htype.Repeated? then seq(|items|, j requires 0 <= j < |items| => Chunk(n, [items[j]]))
    else [Chunk(n, [items[0]])]
  }

  /** The chunks of the first `n` fields. */
  function Chunks(d: Descriptor, v: Value, n: nat): seq<Chunk>
    requires n <= |d.fields|
  {
    if n == 0 then [] else Chunks(d, v, n - 1) + FieldChunks(n - 1, d.fields[n - 1], v.Items(n - 1))
  }

  function ChunksWire(d: Descriptor, chunks: seq<Chunk>): Bytes
    decreases d, 0, |chunks|
  {
    if chunks == [] then []
    else
      var c := chunks[0];
      (if c.field < |d.fields| then ChunkWire(d.fields[c.field], c.items) else []) + ChunksWire(d, chunks[1..])
  }

  /** The encoding of a message: its fields in descriptor order. */
  function Wire(d: Descriptor, v: Value): Bytes
    decreases d, 1
  {
    ChunksWire(d, Chunks(d, v, |d.fields|))
  }

  lemma {:induction false} ChunksWireConcat(d: Descriptor, a: seq<Chunk>, b: seq<Chunk>)
    ensures ChunksWire(d, a + b) == ChunksWire(d, a) + ChunksWire(d, b)
    decreases |a|
  {
    hide ChunkWire;
    if a == [] {
      assert a + b == b;
    } else {
      assert (a + b)[1..] == a[1..] + b;
      ChunksWireConcat(d, a[1..], b);
    }
  }

  lemma {:induction false} ItemsWireConcat(t: LType, a: seq<Value>, b: seq<Value>)
    ensures ItemsWire(t, a + b) == ItemsWire(t, a) + ItemsWire(t, b)
    decreases |a|
  {
    hide ItemWire;
    if a == [] {
      assert a + b == b;
    } else {
      assert (a + b)[1..] == a[1..] + b;
      ItemsWireConcat(t, a[1..], b);
    }
  }

  // ------------------------------------------------------------------- fields as encoded

  /** Items of an unpacked array, each with its own key. */
  function TaggedItems(f: Field, items: seq<Value>): Bytes {
    if items == [] then [] else ChunkWire(f, [items[0]]) + TaggedItems(f, items[1..])
  }

  function FieldWire(f: Field, items: seq<Value>): Bytes {
    if items == [] then []
    else if f.Packed() then ChunkWire(f, items)
    else if f.htype.Repeated? then TaggedItems(f, items)
    else ChunkWire(f, [items[0]])
  }

  lemma {:induction false} TaggedItemsChunks(d: Descriptor, n: nat, items: seq<Value>, chunks: seq<Chunk>)
    requires n < |d.fields| && |chunks| == |items| && forall j :: 0 <= j < |items| ==> chunks[j] == Chunk(n, [items[j]])
    ensures ChunksWire(d, chunks) == TaggedItems(d.fields[n], items)
    decreases |items|
  {
    hide ChunkWire;
    if items != [] {
      TaggedItemsChunks(d, n, items[1..], chunks[1..]);
    }
  }

  lemma OneChunk(d: Descriptor, c: Chunk)
    requires c.field < |d.fields|
    ensures ChunksWire(d, [c]) == ChunkWire(d.fields[c.field], c.items)
  {
    hide ChunkWire;
    assert [c][1..] == [];
  }

  lemma FieldChunksWire(d: Descriptor, n: nat, items: seq<Value>)
    requires n < |d.fields|
    ensures ChunksWire(d, FieldChunks(n, d.fields[n], items)) == FieldWire(d.fields[n], items)
  {
    hide ChunkWire, ChunksWire, TaggedItems;
    var f := d.fields[n];
    if items == [] {
      NoChunks(d);
    } else if f.Packed() {
      OneChunk(d, Chunk(n, items));
    } else if f.htype.Repeated? {
      TaggedItemsChunks(d, n, items, FieldChunks(n, f, items));
    } else {
      OneChunk(d, Chunk(n, [items[0]]));
    }
  }

  lemma NoChunks(d: Descriptor)
    ensures ChunksWire(d, []) == []
  {
  }

  /** One more field. */
  lemma WireStep(d: Descriptor, v: Value, n: nat)
    requires n < |d.fields|
    ensures ChunksWire(d, Chunks(d, v, n + 1)) == ChunksWire(d, Chunks(d, v, n)) + FieldWire(d.fields[n], v.Items(n))
  {
    hide ChunksWire, FieldWire;
    ChunksWireConcat(d, Chunks(d, v, n), FieldChunks(n, d.fields[n], v.Items(n)));
    FieldChunksWire(d, n, v.Items(n));
  }

  lemma {:induction false} FixedItemsWire(t: LType, items: seq<Value>)
    ensures t.Fixed32? ==> |ItemsWire(t, items)| == 4 * |items|
    ensures t.Fixed64? ==> |ItemsWire(t, items)| == 8 * |items|
    decreases |items|
  {
    if items != [] {
      FixedItemsWire(t, items[1..]);
    }
  }

  lemma ItemsWireStep(t: LType, items: seq<Value>, j: nat)
    requires j < |items|
    ensures ItemsWire(t, items[..j + 1]) == ItemsWire(t, items[..j]) + ItemWire(t, items[j])
  {
    hide ItemWire;
    assert items[..j + 1] == items[..j] + [items[j]];
    ItemsWireConcat(t, items[..j], [items[j]]);
    assert [items[j]][1..] == [];
    assert ItemsWire(t, [items[j]]) == ItemWire(t, items[j]) + [];
  }

  lemma {:induction false} TaggedItemsStep(f: Field, items: seq<Value>, j: nat)
    requires j < |items|
    ensures TaggedItems(f, items[..j + 1]) == TaggedItems(f, items[..j]) + ChunkWire(f, [items[j]])
    decreases j
  {
    hide ChunkWire;
    if j == 0 {
      assert items[..1][1..] == [] && items[..0] == [];
    } else {
      assert items[..j + 1][1..] == items[1..][..j] && items[..j][1..] == items[1..][..j - 1];
      TaggedItemsStep(f, items[1..], j - 1);
    }
  }
}
