/** Byte strings given by the format descriptions, as fixed points of the encodings: an encoder and a decoder that agree
    with each other on another format would not give these. */
module KnownBytes {
  import opened DbFormat
  import opened PbVarint
  import opened Coding
  import opened PbMessage
  import Crc
  import Log
  import Block
  import Bloom
  import EditCodec
  import WriteBatch

  lemma Varints()
    ensures Varint(0) == [0x00] && Varint(1) == [0x01] && Varint(150) == [0x96, 0x01] && Varint(300) == [0xAC, 0x02]
    ensures Varint(270) == [0x8E, 0x02] && Varint(86942) == [0x9E, 0xA7, 0x05]
  {
    assert Varint(1) == [0x01] && Varint(2) == [0x02] && Varint(5) == [0x05];
    assert Varint(679) == [0xA7] + Varint(5);
  }

  // ---------------------------------------------------------------------- Protocol Buffers

  /** The examples of the Protocol Buffers encoding description: an integer, a string, a nested message, a packed array. */
  lemma ProtocolBuffers()
    ensures ChunkWire(Field(1, Signed(4), Optional), [Int(150)]) == [0x08, 0x96, 0x01]
    ensures ChunkWire(Field(2, Text(10), Optional), [Blob([0x74, 0x65, 0x73, 0x74, 0x69, 0x6E, 0x67])])
         == [0x12, 0x07, 0x74, 0x65, 0x73, 0x74, 0x69, 0x6E, 0x67]
    ensures ChunkWire(Field(4, Signed(4), Repeated(3)), [Int(3), Int(270), Int(86942)]) == [0x22, 0x06, 0x03, 0x8E, 0x02, 0x9E, 0xA7, 0x05]
  {
    Varints();
    Tags();
    hide Tag;
    assert ToUnsigned(150) == 150;
    PackedItems();
    assert Varint(7) == [0x07] && Varint(6) == [0x06];
    hide Varint, ItemsWire;
    assert ItemWire(Signed(4), Int(150)) == Varint(150);
    assert ChunkWire(Field(1, Signed(4), Optional), [Int(150)]) == Tag(0, 1) + ItemWire(Signed(4), Int(150));
  }

  lemma Tags()
    ensures Tag(0, 1) == [0x08] && Tag(2, 2) == [0x12] && Tag(2, 3) == [0x1A] && Tag(2, 4) == [0x22]
    ensures Tag(1, 1) == [0x09] && Tag(5, 1) == [0x0D]
  {
  }

  lemma PackedItems()
    ensures ItemsWire(Signed(4), [Int(3), Int(270), Int(86942)]) == [0x03, 0x8E, 0x02, 0x9E, 0xA7, 0x05]
  {
    Varints();
    var items := [Int(3), Int(270), Int(86942)];
    assert items[1..] == [Int(270), Int(86942)] && items[1..][1..] == [Int(86942)] && items[1..][1..][1..] == [];
    assert Varint(3) == [0x03];
    assert ItemWire(Signed(4), Int(3)) == Varint(3) && ItemWire(Signed(4), Int(270)) == Varint(270);
    assert ItemWire(Signed(4), Int(86942)) == Varint(86942);
    hide Varint, ItemWire;
  }

  /** Little-endian fixed-width numbers and zigzag integers. */
  lemma FixedWidth()
    ensures ChunkWire(Field(1, Fixed32, Optional), [Int(1)]) == [0x0D, 0x01, 0x00, 0x00, 0x00]
    ensures ChunkWire(Field(1, ZigZagged(4), Optional), [Int(-1)]) == [0x08, 0x01]
    ensures ChunkWire(Field(1, ZigZagged(4), Optional), [Int(1)]) == [0x08, 0x02]
  {
    Tags();
    hide Tag;
    assert Digits(0, 0) == [] && Digits(0, 1) == [0] && Digits(0, 2) == [0, 0] && Digits(0, 3) == [0, 0, 0];
    assert Digits(1, 4) == [1] + Digits(0, 3);
    assert Varint(1) == [1] && Varint(2) == [2];
    assert ZigZag(-1) == 1 && ZigZag(1) == 2;
  }

  /** Every scalar array is packed, fixed-width ones too. */
  lemma PackedFixed64()
    ensures ChunkWire(Field(4, Fixed64, Repeated(1)), [Int(1)]) == [0x22, 0x08, 1, 0, 0, 0, 0, 0, 0, 0]
  {
    Tags();
    EightDigits();
    assert Varint(8) == [0x08];
    hide Tag, Varint, Digits;
    assert [Int(1)][1..] == [];
    assert ItemWire(Fixed64, Int(1)) == Digits(1, 8);
    assert ItemsWire(Fixed64, [Int(1)]) == Digits(1, 8) + [];
  }

  lemma EightDigits()
    ensures Digits(1, 8) == [1, 0, 0, 0, 0, 0, 0, 0]
  {
    assert Digits(0, 0) == [] && Digits(0, 1) == [0] && Digits(0, 2) == [0, 0] && Digits(0, 3) == [0, 0, 0] && Digits(0, 4) == [0, 0, 0, 0];
    assert Digits(0, 5) == [0, 0, 0, 0, 0] && Digits(0, 7) == [0, 0, 0, 0, 0, 0, 0];
    assert Digits(1, 8) == [1] + Digits(0, 7);
  }

  /** A message with one integer, inside another: field 3 of the encoding description's third example. */
  lemma NestedMessage(inner: Descriptor, v: Value)
    requires inner == Descriptor([Field(1, Signed(4), Optional)]) && v == Message([Slot([Int(150)])])
    ensures ChunkWire(Field(3, Submessage(inner), Optional), [v]) == [0x1A, 0x03, 0x08, 0x96, 0x01]
  {
    ProtocolBuffers();
    Tags();
    assert Varint(3) == [0x03];
    InnerWire(inner, v);
    hide Tag, Varint, Wire;
    assert ItemWire(Submessage(inner), v) == Delimited(Wire(inner, v));
  }

  lemma InnerWire(inner: Descriptor, v: Value)
    requires inner == Descriptor([Field(1, Signed(4), Optional)]) && v == Message([Slot([Int(150)])])
    ensures Wire(inner, v) == [0x08, 0x96, 0x01]
  {
    ProtocolBuffers();
    var chunk := Chunk(0, [Int(150)]);
    assert v.Items(0) == [Int(150)];
    assert FieldChunks(0, inner.fields[0], v.Items(0)) == [chunk];
    assert Chunks(inner, v, 0) == [] && Chunks(inner, v, 1) == [] + [chunk] == [chunk];
    OneChunk(inner, chunk);
    hide ChunkWire, ChunksWire, Chunks;
  }

  // ------------------------------------------------------------------------------ LevelDB

  /** The checksum of 32 zero bytes as it is stored, and a probe of a Bloom filter: the hash plus three times the hash
      rotated right by 17 bits. */
  lemma MaskedAndProbed()
    ensures Crc.Mask(0) == 0xa282_ead8 && Crc.Mask(0x8a91_36aa) == 0x0fd7fffa
    ensures Bloom.Delta(0xbc9f1d34) == 0x8e9a5e4f && Bloom.Probe(0xbc9f1d34, 3, 64) == 33
  {
  }

  /** The tags of a version edit and the order of an item's parts. */
  lemma VersionEdits()
    ensures EditCodec.ItemBytes(EditCodec.Comparator([0x78])) == [1, 1, 0x78]
    ensures EditCodec.ItemBytes(EditCodec.LogNumber(300)) == [2, 0xAC, 0x02]
    ensures EditCodec.ItemBytes(EditCodec.NextFileNumber(7)) == [3, 7]
    ensures EditCodec.ItemBytes(EditCodec.LastSequence(5)) == [4, 5]
    ensures EditCodec.ItemBytes(EditCodec.CompactPointer(1, [0x61])) == [5, 1, 1, 0x61]
    ensures EditCodec.ItemBytes(EditCodec.DeletedFile(1, 9)) == [6, 1, 9]
    ensures EditCodec.ItemBytes(EditCodec.NewFile(2, EditCodec.FileMeta(3, 4, [0x61], [0x62]))) == [7, 2, 3, 4, 1, 0x61, 1, 0x62]
    ensures EditCodec.ItemBytes(EditCodec.PrevLogNumber(0)) == [9, 0]
  {
    Varints();
    assert Varint(2) == [2] && Varint(3) == [3] && Varint(4) == [4] && Varint(5) == [5] && Varint(6) == [6] && Varint(7) == [7] && Varint(9) == [9];
    hide Varint;
  }

  /** A put and a delete in a write batch. */
  lemma WriteBatches()
    ensures WriteBatch.OpBytes(WriteBatch.BatchOp.Put([0x6B], [0x76])) == [1, 1, 0x6B, 1, 0x76]
    ensures WriteBatch.OpBytes(WriteBatch.Delete([0x6B])) == [0, 1, 0x6B]
  {
    Varints();
    hide Varint;
  }

  /** An entry of a block: shared, unshared and value lengths, then the unshared key bytes and the value. */
  lemma BlockEntries()
    ensures Block.EntryBytes(Block.BlockEntry([0x61, 0x62, 0x63], [0x31], 2)) == [2, 1, 1, 0x63, 0x31]
    ensures Block.RestartArray([0, 0x0102]) == [0, 0, 0, 0, 2, 1, 0, 0]
  {
    assert Varint(2) == [2] && Varint(1) == [1];
    hide Varint;
    assert [0, 0x0102][..1] == [0] && [0][..0] == [];
    assert Crc.EncodeFixed32(0) == [0, 0, 0, 0] && Crc.EncodeFixed32(0x0102) == [2, 1, 0, 0];
    hide Crc.EncodeFixed32;
    assert Block.RestartArray([0]) == [] + Crc.EncodeFixed32(0 % 0x1_0000_0000);
  }

  /** After the checksum, a log record's header has two length bytes, low one first, and the kind; the kinds are numbered
      full, first, middle, last. */
  lemma LogHeaders(payload: Bytes)
    requires |payload| == 300
    ensures Log.Header(Log.Physical(Log.FULL, payload))[4..] == [44, 1, 1] && Log.Header(Log.Physical(Log.FIRST, payload))[4..] == [44, 1, 2]
    ensures Log.Header(Log.Physical(Log.MIDDLE, payload))[4..] == [44, 1, 3] && Log.Header(Log.Physical(Log.LAST, payload))[4..] == [44, 1, 4]
  {
    hide Log.Checksum, Crc.Mask, Crc.EncodeFixed32;
  }
}
