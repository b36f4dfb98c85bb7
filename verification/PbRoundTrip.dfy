/** Encoding a message and decoding the bytes gives the message back. */
module PbRoundTrip {
  import opened DbFormat
  import opened PbVarint
  import opened PbMessage
  import opened PbEncode
  import opened PbDecode

  /** A message that its C structure can hold is within every bound the encoder checks. */
  lemma {:induction false} TypedIsBounded(d: Descriptor, v: Value)
    requires MessageTyped(d, v)
    ensures Bounded(d, v)
    decreases d
  {
    forall i | 0 <= i < |d.fields| ensures FieldBounded(d.fields[i], v.Items(i)) {
      var f, items := d.fields[i], v.Items(i);
      assert items == v.slots[i].items && CountOk(f.htype, |items|);
      forall j | 0 <= j < |items| ensures ItemBounded(f.ltype, items[j]) {
        assert ItemTyped(f.ltype, items[j]);
        if f.ltype.Submessage? {
          TypedIsBounded(f.ltype.desc, items[j]);
        }
      }
    }
  }

  /** The size computed in advance. */
  method GetEncodedSize(d: Descriptor, v: Value) returns (ok: bool, size: nat)
    ensures ok <==> Bounded(d, v)
    ensures ok ==> size == |Wire(d, v)|
  {
    hide Wire, Bounded, Outcome, ValidStream;
    SizingIsValid();
    var s;
    ok, s := Encode(SIZING, d, v);
    SizedExactly(s, ok, Wire(d, v), Bounded(d, v));
    size := s.written;
  }

  /** Encode into a buffer: succeeds exactly when the size computed in advance fits. */
  method EncodeToBuffer(d: Descriptor, v: Value, bufsize: nat) returns (ok: bool, out: Bytes)
    requires MessageTyped(d, v)
    ensures ok <==> |Wire(d, v)| <= bufsize
    ensures ok ==> out == Wire(d, v)
  {
    TypedIsBounded(d, v);
    hide Wire, Bounded, MessageTyped;
    var s;
    ok, s := Encode(OStream(false, [], 0, bufsize), d, v);
    out := s.out;
  }

  /** Decode any bytes into a new message: whatever they are, every value written fits its field and no array is
      overrun; and an encoding gives its message back. */
  method Decode(d: Descriptor, input: Bytes, ghost v: Value) returns (ok: bool, value: Value, left: Bytes)
    ensures WellFormed(d) && MessageTyped(d, v) && Short(d, v) && input == Wire(d, v) ==> ok && value == v && left == []
    ensures value.Message? && SlotsSafe(d, value.slots)
  {
    hide *;
    var slots;
    SlotsPerField(d);
    DefaultsSafe(d);
    ghost var w := View(d, d, v, Everything(|d.fields|));
    ok, slots, left := DecodeMessage(input, d, DefaultSlots(d), w);
    value := Message(slots);
    if WellFormed(d) && MessageTyped(d, v) && Short(d, v) && input == Wire(d, v) {
      WholeView(d, v);
      IsMessage(d, v);
      WholeProjected(d, v, slots);
    }
  }

  lemma WholeView(d: Descriptor, v: Value)
    requires WellFormed(d) && MessageTyped(d, v) && Short(d, v)
    ensures ViewOk(View(d, d, v, Everything(|d.fields|)))
  {
    WholeIsPart(d);
    hide WellFormed, MessageTyped, Short, Part;
  }

  lemma SlotsPerField(d: Descriptor)
    ensures |DefaultSlots(d)| == |d.fields|
  {
  }

  /** For every well-formed descriptor, every message of its type and any buffer: it is encoded exactly when it fits, and
      the bytes decode to it, all of them, if the lengths they announce are 32-bit numbers, as every length in a
      message below 2^32 bytes is. */
  method RoundTrip(d: Descriptor, v: Value, bufsize: nat) returns (encoded: bool, out: Bytes, decoded: bool, value: Value, left: Bytes)
    requires WellFormed(d) && MessageTyped(d, v)
    ensures encoded <==> |Wire(d, v)| <= bufsize
    ensures encoded ==> out == Wire(d, v)
    ensures encoded && Short(d, v) ==> decoded && value == v && left == []
    ensures |Wire(d, v)| < TWO_32 ==> Short(d, v)
  {
    SmallMessage(d, v);
    hide Wire, MessageTyped, WellFormed, Short;
    decoded, value, left := false, v, [];
    encoded, out := EncodeToBuffer(d, v, bufsize);
    if encoded {
      decoded, value, left := Decode(d, out, v);
    }
  }

  lemma SmallMessage(d: Descriptor, v: Value)
    ensures |Wire(d, v)| < TWO_32 ==> Short(d, v)
  {
    hide Wire, ShortChunk, FieldChunks;
  }

  /** Encode with one descriptor, decode with another that has some of its fields, such as an older version: exactly the
      slots of those fields come back, and all the bytes are consumed. */
  method DecodePart(full: Descriptor, v: Value, d: Descriptor, pos: seq<nat>, bufsize: nat)
    returns (encoded: bool, out: Bytes, decoded: bool, slots: seq<Slot>, left: Bytes)
    requires WellFormed(full) && MessageTyped(full, v) && Part(d, full, pos)
    ensures encoded <==> |Wire(full, v)| <= bufsize
    ensures encoded ==> out == Wire(full, v)
    ensures encoded && Short(full, v) ==> decoded && left == [] && Projected(View(d, full, v, pos), slots)
  {
    hide Wire, MessageTyped, WellFormed, Short, Part, Projected;
    SlotsPerField(d);
    decoded, slots, left := false, [], [];
    encoded, out := EncodeToBuffer(full, v, bufsize);
    if encoded {
      decoded, slots, left := DecodeMessage(out, d, DefaultSlots(d), View(d, full, v, pos));
    }
  }
}
