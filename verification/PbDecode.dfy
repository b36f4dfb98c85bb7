/** The decoder, and the round trip through it. */
module PbDecode {
  import opened DbFormat
  import opened PbVarint
  import opened Coding
  import opened PbMessage

  const MAX_REQUIRED_FIELDS: nat := 64

  // -------------------------------------------------------------------------- field iterator

  /** Position in a descriptor, and how many required fields come before it. */
  datatype FieldIter = FieldIter(pos: nat, required: nat)

  function RequiredBefore(fields: seq<Field>, n: nat): (r: nat)
    requires n <= |fields|
    ensures r <= n
  {
    if n == 0 then 0 else RequiredBefore(fields, n - 1) + if fields[n - 1].htype.Required? then 1 else 0
  }

  ghost predicate IterOk(fields: seq<Field>, it: FieldIter) {
    (it.pos == 0 && it.required == 0) || (it.pos < |fields| && it.required == RequiredBefore(fields, it.pos))
  }

  /** Step to the next field; false when the step wraps around to the first. */
  method IterNext(fields: seq<Field>, it: FieldIter) returns (more: bool, it': FieldIter)
    requires IterOk(fields, it)
    ensures IterOk(fields, it')
    ensures more <==> it.pos + 1 < |fields|
    ensures it'.pos == if more then it.pos + 1 else 0
  {
    if fields == [] {
      return false, it;
    }
    if it.pos + 1 == |fields| {
      return false, FieldIter(0, 0);
    }
    return true, FieldIter(it.pos + 1, it.required + if fields[it.pos].htype.Required? then 1 else 0);
  }

  /** Search from any position, wrapping around: finds a field with the tag whenever there is one. */
  method IterFind(fields: seq<Field>, it: FieldIter, tag: nat) returns (found: bool, it': FieldIter)
    requires IterOk(fields, it)
    ensures IterOk(fields, it')
    ensures found <==> exists i :: 0 <= i < |fields| && fields[i].tag == tag
    ensures found ==> it'.pos < |fields| && fields[it'.pos].tag == tag
  {
    it' := it;
    if fields == [] {
      return false, it;
    }
    ghost var wrapped := false;
    while true
      invariant IterOk(fields, it') && it'.pos < |fields|
      invariant if wrapped then it'.pos < it.pos else it.pos <= it'.pos
      invariant forall i :: 0 <= i < |fields| && fields[i].tag == tag ==>
                  if wrapped then it'.pos <= i < it.pos else i < it.pos || it'.pos <= i
      decreases if wrapped then 0 else 1, |fields| - it'.pos
    {
      if fields[it'.pos].tag == tag {
        return true, it';
      }
      var more;
      more, it' := IterNext(fields, it');
      if it'.pos == it.pos {
        return false, it';
      }
      wrapped := wrapped || !more;
    }
  }

  /** Walk to the end from any position: the number of required fields in the descriptor. */
  method CountRequired(fields: seq<Field>, it: FieldIter) returns (count: nat)
    requires IterOk(fields, it)
    ensures count == RequiredBefore(fields, |fields|)
  {
    if fields == [] {
      return 0;
    }
    var cur := it;
    while true
      invariant IterOk(fields, cur) && cur.pos < |fields|
      decreases |fields| - cur.pos
    {
      count := cur.required;
      var last := fields[cur.pos];
      var more, next := IterNext(fields, cur);
      if !more {
        if last.htype.Required? {
          count := count + 1;
        }
        return;
      }
      cur := next;
    }
  }

  lemma {:induction false} RequiredMonotone(fields: seq<Field>, i: nat, n: nat)
    requires i <= n <= |fields|
    ensures RequiredBefore(fields, i) <= RequiredBefore(fields, n)
  {
    if i < n {
      RequiredMonotone(fields, i, n - 1);
    }
  }

  /** Every index below the count belongs to a required field. */
  lemma {:induction false} RequiredAt(fields: seq<Field>, n: nat, r: nat) returns (i: nat)
    requires n <= |fields| && r < RequiredBefore(fields, n)
    ensures i < n && fields[i].htype.Required? && RequiredBefore(fields, i) == r
  {
    if r < RequiredBefore(fields, n - 1) {
      i := RequiredAt(fields, n - 1, r);
    } else {
      i := n - 1;
    }
  }

  // -------------------------------------------------------------------------------- defaults

  function DefaultItem(t: LType): Value
    decreases t
  {
    match t
    case Blobs(_) => Blob([])
    case Text(_) => Blob([])
    case FixedBlob(size) => Blob(seq(size, _ => 0))
    case Submessage(d) => Message(DefaultSlots(d))
    case _ => Int(0)
  }

  function DefaultItems(f: Field): seq<Value>
    decreases f
  {
    if f.htype.Required? then [DefaultItem(f.ltype)] else []
  }

  function DefaultSlots(d: Descriptor): (r: seq<Slot>)
    ensures |r| == |d.fields|
    decreases d
  {
    seq(|d.fields|, i requires 0 <= i < |d.fields| => Slot(DefaultItems(d.fields[i])))
  }

  // ------------------------------------------------------------------------------- safety

  /** The value fits into the field's C type, whatever its origin. */
  ghost predicate ItemSafe(t: LType, v: Value)
    decreases t
  {
    match t
    case Bool => v.Int? && 0 <= v.i <= 1
    case Signed(size) => v.Int? && -Half(size) <= v.i < Half(size)
    case Unsigned(size) => v.Int? && 0 <= v.i < 2 * Half(size)
    case ZigZagged(size) => v.Int? && -Half(size) <= v.i < Half(size)
    case Fixed32 => v.Int? && 0 <= v.i < TWO_32
    case Fixed64 => v.Int? && 0 <= v.i < TWO_64
    case Blobs(max) => v.Blob? && |v.bytes| <= max
    case Text(max) => v.Blob? && |v.bytes| <= max
    case FixedBlob(size) => v.Blob? && |v.bytes| == size
    case Submessage(d) => v.Message? && SlotsSafe(d, v.slots)
  }

  /** No array holds more than its C array can, no other field more than one value. */
  predicate CountSafe(htype: HType, n: nat) {
    if htype.Repeated? then n <= htype.arraySize else n <= 1
  }

  ghost predicate ItemsSafe(f: Field, items: seq<Value>)
    decreases f
  {
    CountSafe(f.htype, |items|) && forall x :: 0 <= x < |items| ==> ItemSafe(f.ltype, items[x])
  }

  /** The message fits into its C structure. */
  ghost predicate SlotsSafe(d: Descriptor, slots: seq<Slot>)
    decreases d
  {
    |slots| == |d.fields| && forall i :: 0 <= i < |slots| ==> ItemsSafe(d.fields[i], slots[i].items)
  }

  lemma {:induction false} DefaultsSafe(d: Descriptor)
    ensures SlotsSafe(d, DefaultSlots(d))
    decreases d, 0
  {
    forall i | 0 <= i < |d.fields| ensures ItemsSafe(d.fields[i], DefaultItems(d.fields[i])) {
      DefaultSafe(d.fields[i].ltype);
    }
  }

  lemma {:induction false} DefaultSafe(t: LType)
    ensures ItemSafe(t, DefaultItem(t))
    decreases t, 1
  {
    if t.Submessage? {
      DefaultsSafe(t.desc);
    }
  }

  lemma SubmessageSafe(d: Descriptor, v: Value)
    ensures ItemSafe(Submessage(d), v) <==> v.Message? && SlotsSafe(d, v.slots)
    ensures SlotsSafe(d, if v.Message? then v.slots else []) ==> |if v.Message? then v.slots else []| == |d.fields|
  {
    hide ItemsSafe;
  }

  lemma UpdateSafe(d: Descriptor, slots: seq<Slot>, n: nat, items: seq<Value>)
    requires SlotsSafe(d, slots) && n < |d.fields| && ItemsSafe(d.fields[n], items)
    ensures SlotsSafe(d, Update(d, slots, n, items))
  {
    hide ItemSafe;
    assert forall f :: ItemsSafe(f, []);
  }

  lemma ItemAdded(f: Field, items: seq<Value>, item: Value)
    requires ItemsSafe(f, items) && ItemSafe(f.ltype, item) && (f.htype.Repeated? ==> |items| < f.htype.arraySize)
    ensures ItemsSafe(f, (if f.htype.Repeated? then items else []) + [item])
  {
    hide ItemSafe;
  }

  // --------------------------------------------------------------------- partly decoded state

  /** What the slot of one field holds after `j` of its chunks. */
  function PartialItems(f: Field, items: seq<Value>, j: nat): seq<Value> {
    if j == 0 then DefaultItems(f)
    else if f.htype.Repeated? && !f.Packed() && j <= |items| then items[..j]
    else items
  }

  /** Descriptor `d` has the fields of `full` at positions `pos`: an older or a partial view of the same message. */
  ghost predicate Part(d: Descriptor, full: Descriptor, pos: seq<nat>) {
    && |pos| == |d.fields|
    && (forall i :: 0 <= i < |pos| ==> pos[i] < |full.fields| && d.fields[i] == full.fields[pos[i]])
    && (forall i, j :: 0 <= i < j < |pos| ==> pos[i] != pos[j])
  }

  function Everything(n: nat): (pos: seq<nat>)
    ensures |pos| == n && forall i :: 0 <= i < n ==> pos[i] == i
  {
    seq(n, i => i)
  }

  lemma WholeIsPart(d: Descriptor)
    ensures Part(d, d, Everything(|d.fields|))
  {
  }

  /** What a slot of the view holds after every chunk of the first `n` fields of the message and `j` chunks of field `n`. */
  function PartialSlot(f: Field, items: seq<Value>, at: nat, n: nat, j: nat): Slot {
    if at < n then Slot(items) else Slot(PartialItems(f, items, if at == n then j else 0))
  }

  function Partial(d: Descriptor, v: Value, pos: seq<nat>, n: nat, j: nat): (r: seq<Slot>)
    requires |pos| == |d.fields|
    ensures |r| == |d.fields|
  {
    seq(|d.fields|, i requires 0 <= i < |d.fields| => PartialSlot(d.fields[i], v.Items(pos[i]), pos[i], n, j))
  }

  function ChunksFrom(d: Descriptor, v: Value, n: nat): seq<Chunk>
    requires n <= |d.fields|
    decreases |d.fields| - n
  {
    if n == |d.fields| then [] else FieldChunks(n, d.fields[n], v.Items(n)) + ChunksFrom(d, v, n + 1)
  }

  lemma {:induction false} ChunksSplit(d: Descriptor, v: Value, n: nat)
    requires n <= |d.fields|
    ensures Chunks(d, v, n) + ChunksFrom(d, v, n) == Chunks(d, v, |d.fields|)
    decreases |d.fields| - n
  {
    hide *;
    if n < |d.fields| {
      ChunksSplit(d, v, n + 1);
      ChunksSteps(d, v, n);
      var c := FieldChunks(n, d.fields[n], v.Items(n));
      assert (Chunks(d, v, n) + c) + ChunksFrom(d, v, n + 1) == Chunks(d, v, n) + (c + ChunksFrom(d, v, n + 1));
    } else {
      NoChunksFrom(d, v);
    }
  }

  lemma ChunksSteps(d: Descriptor, v: Value, n: nat)
    requires n < |d.fields|
    ensures Chunks(d, v, n + 1) == Chunks(d, v, n) + FieldChunks(n, d.fields[n], v.Items(n))
    ensures ChunksFrom(d, v, n) == FieldChunks(n, d.fields[n], v.Items(n)) + ChunksFrom(d, v, n + 1)
  {
    hide FieldChunks;
  }

  lemma NoChunksFrom(d: Descriptor, v: Value)
    ensures ChunksFrom(d, v, |d.fields|) == []
  {
  }

  /** Chunk `j` of field `n` onwards. */
  function RestChunks(d: Descriptor, v: Value, n: nat, j: nat): seq<Chunk>
    requires n <= |d.fields|
  {
    if n == |d.fields| then []
    else
      var c := FieldChunks(n, d.fields[n], v.Items(n));
      (if j <= |c| then c[j..] else []) + ChunksFrom(d, v, n + 1)
  }

  lemma RestStarts(d: Descriptor, v: Value)
    ensures RestChunks(d, v, 0, 0) == Chunks(d, v, |d.fields|)
  {
    ChunksSplit(d, v, 0);
    hide FieldChunks;
    if d.fields != [] {
      var c := FieldChunks(0, d.fields[0], v.Items(0));
      assert c[0..] == c;
    }
    assert [] + ChunksFrom(d, v, 0) == ChunksFrom(d, v, 0);
  }

  lemma PartialStarts(d: Descriptor, v: Value, pos: seq<nat>)
    requires |pos| == |d.fields|
    ensures Partial(d, v, pos, 0, 0) == DefaultSlots(d)
  {
    hide DefaultItems;
  }

  lemma RestNextField(full: Descriptor, v: Value, n: nat, j: nat)
    requires n < |full.fields| && j == |FieldChunks(n, full.fields[n], v.Items(n))|
    ensures RestChunks(full, v, n, j) == RestChunks(full, v, n + 1, 0)
  {
    var c := FieldChunks(n, full.fields[n], v.Items(n));
    assert c[j..] == [] && [] + ChunksFrom(full, v, n + 1) == ChunksFrom(full, v, n + 1);
    if n + 1 < |full.fields| {
      var c' := FieldChunks(n + 1, full.fields[n + 1], v.Items(n + 1));
      assert c'[0..] == c';
    }
  }

  lemma AllChunks(full: Descriptor, v: Value, n: nat, j: nat)
    requires n < |full.fields| && MessageTyped(full, v) && j == |FieldChunks(n, full.fields[n], v.Items(n))|
    ensures PartialItems(full.fields[n], v.Items(n), j) == v.Items(n)
  {
    assert CountOk(full.fields[n].htype, |v.slots[n].items|);
    hide ItemTyped, OneofsOk, DefaultItem;
  }

  lemma PartialNextField(d: Descriptor, full: Descriptor, v: Value, pos: seq<nat>, n: nat, j: nat)
    requires Part(d, full, pos) && n < |full.fields| && MessageTyped(full, v) && j == |FieldChunks(n, full.fields[n], v.Items(n))|
    ensures Partial(d, v, pos, n, j) == Partial(d, v, pos, n + 1, 0)
  {
    AllChunks(full, v, n, j);
    hide PartialItems, FieldChunks, MessageTyped;
  }

  /** Setting a member of a union unsets the others. */
  function ClearOthers(d: Descriptor, slots: seq<Slot>, n: nat): (r: seq<Slot>)
    requires |slots| == |d.fields| && n < |d.fields|
    ensures |r| == |d.fields|
  {
    seq(|d.fields|, i requires 0 <= i < |d.fields| =>
      if i != n && SameOneof(d.fields[i], d.fields[n]) then Slot([]) else slots[i])
  }

  function Update(d: Descriptor, slots: seq<Slot>, n: nat, items: seq<Value>): (r: seq<Slot>)
    requires |slots| == |d.fields| && n < |d.fields|
    ensures |r| == |d.fields|
  {
    ClearOthers(d, slots, n)[n := Slot(items)]
  }

  /** Decoding chunk `j` of field `n` moves the state on by one chunk. */
  lemma UpdateStep(d: Descriptor, full: Descriptor, v: Value, pos: seq<nat>, n: nat, j: nat, i: nat)
    requires Part(d, full, pos) && MessageTyped(full, v) && n < |full.fields| && j < |FieldChunks(n, full.fields[n], v.Items(n))|
    requires i < |d.fields| && pos[i] == n
    ensures Update(d, Partial(d, v, pos, n, j), i, PartialItems(d.fields[i], v.Items(n), j + 1)) == Partial(d, v, pos, n, j + 1)
  {
    assert v.Items(n) != [];
    var before, after := Partial(d, v, pos, n, j), Partial(d, v, pos, n, j + 1);
    forall x | 0 <= x < |d.fields| && x != i
      ensures (if SameOneof(d.fields[x], d.fields[i]) then Slot([]) else before[x]) == after[x]
    {
      assert pos[x] != n && d.fields[x] == full.fields[pos[x]];
      if SameOneof(d.fields[x], d.fields[i]) {
        OtherMember(full, v, pos[x], n);
      }
    }
    hide PartialItems, FieldChunks, MessageTyped, OneofsOk;
    assert Update(d, before, i, PartialItems(d.fields[i], v.Items(n), j + 1)) == after;
  }

  lemma OtherMember(full: Descriptor, v: Value, m: nat, n: nat)
    requires MessageTyped(full, v) && m < |full.fields| && n < |full.fields| && m != n && v.Items(n) != []
    requires SameOneof(full.fields[m], full.fields[n])
    ensures v.Items(m) == [] && PartialItems(full.fields[m], v.Items(m), 0) == []
  {
    hide ItemTyped;
  }

  /** A chunk of a field that the view does not have changes nothing. */
  lemma PartialSkips(d: Descriptor, v: Value, pos: seq<nat>, n: nat, j: nat)
    requires |pos| == |d.fields| && forall i :: 0 <= i < |pos| ==> pos[i] != n
    ensures Partial(d, v, pos, n, j + 1) == Partial(d, v, pos, n, j)
  {
    hide PartialItems;
  }

  /** What one chunk adds to its slot. */
  lemma ChunkItems(d: Descriptor, v: Value, n: nat, j: nat)
    requires MessageTyped(d, v) && n < |d.fields| && j < |FieldChunks(n, d.fields[n], v.Items(n))|
    ensures var f, items := d.fields[n], v.Items(n);
            var c := FieldChunks(n, f, items)[j];
            && c.field == n && c.items != [] && (!f.Packed() ==> |c.items| == 1)
            && PartialItems(f, items, j + 1) == (if f.htype.Repeated? then PartialItems(f, items, j) else []) + c.items
            && (!f.htype.Repeated? ==> PartialItems(f, items, j) == DefaultItems(f))
            && (f.htype.Repeated? ==> |PartialItems(f, items, j) + c.items| <= f.htype.arraySize)
            && (forall x :: 0 <= x < |c.items| ==> ItemTyped(f.ltype, c.items[x]))
  {
    var f, items := d.fields[n], v.Items(n);
    assert items == v.slots[n].items && CountOk(f.htype, |items|);
    assert forall x :: 0 <= x < |items| ==> ItemTyped(f.ltype, items[x]);
    hide ItemTyped, DefaultItem, OneofsOk, MessageTyped;
    if f.htype.Repeated? && !f.Packed() {
      assert items[..j + 1] == items[..j] + [items[j]];
    }
  }

  // --------------------------------------------------------------------------- reading items

  /** Read exactly `n` bytes. */
  function Split(input: Bytes, n: nat): (r: Option<(Bytes, Bytes)>)
    ensures r.Some? <==> n <= |input|
    ensures r.Some? ==> r.value.0 + r.value.1 == input && |r.value.0| == n
  {
    if n <= |input| then Some((input[..n], input[n..])) else None
  }

  /** Read a length and that many bytes. */
  method ReadDelimited(input: Bytes, ghost b: Bytes, ghost rest: Bytes) returns (ok: bool, data: Bytes, left: Bytes)
    ensures ok ==> |left| < |input|
    ensures |b| < TWO_32 && input == Delimited(b) + rest ==> ok && data == b && left == rest
  {
    hide Varint;
    ghost var good := |b| < TWO_32 && input == Delimited(b) + rest;
    assert good ==> input == Varint(|b|) + (b + rest);
    var sized, size, afterSize, _ := DecodeVarint32(input, |b|, b + rest);
    if !sized || |afterSize| < size {
      return false, [], input;
    }
    return true, afterSize[..size], afterSize[size..];
  }

  /** The item's length, if it has one on the wire, is a 32-bit number. */
  ghost predicate ShortItem(t: LType, v: Value) {
    match t
    case Submessage(d) => |Wire(d, v)| < TWO_32
    case Blobs(_) => |v.AsBytes()| < TWO_32
    case Text(_) => |v.AsBytes()| < TWO_32
    case FixedBlob(_) => |v.AsBytes()| < TWO_32
    case _ => true
  }

  /** Everything about an item that decoding needs. */
  ghost predicate ItemGood(t: LType, v: Value, initial: Value) {
    && ItemTyped(t, v) && ShortItem(t, v)
    && (t.Submessage? ==> WellFormed(t.desc) && initial == DefaultItem(t))
  }

  method DecodeItem(t: LType, input: Bytes, initial: Value, ghost v: Value, ghost rest: Bytes)
    returns (ok: bool, value: Value, left: Bytes)
    ensures ok ==> |left| < |input|
    ensures ItemGood(t, v, initial) && input == ItemWire(t, v) + rest ==> ok && value == v && left == rest
    ensures ok && (t.Submessage? ==> ItemSafe(t, initial)) ==> ItemSafe(t, value)
    decreases t, 0
  {
    match t
    case Submessage(d) =>
      ok, value, left := DecodeSubmessage(d, input, initial, v, rest);
    case Blobs(max) =>
      ok, value, left := DecodeBlob(t, max, input, v, rest);
    case Text(max) =>
      ok, value, left := DecodeBlob(t, max, input, v, rest);
    case FixedBlob(size) =>
      ok, value, left := DecodeFixedBlob(size, input, v, rest);
    case _ =>
      ok, value, left := DecodeScalar(t, input, v, rest);
  }

  /** Bytes and strings are refused when they do not fit the field. */
  method DecodeBlob(t: LType, max: nat, input: Bytes, ghost v: Value, ghost rest: Bytes)
    returns (ok: bool, value: Value, left: Bytes)
    requires t == Blobs(max) || t == Text(max)
    ensures ok ==> |left| < |input|
    ensures ItemTyped(t, v) && |v.AsBytes()| < TWO_32 && input == ItemWire(t, v) + rest ==> ok && value == v && left == rest
    ensures ok ==> ItemSafe(t, value)
  {
    var data;
    ok, data, left := ReadDelimited(input, v.AsBytes(), rest);
    value := Blob(data);
    ok := ok && |data| <= max;
  }

  lemma DelimitedLength(b: Bytes)
    ensures |Delimited(b)| > |b|
  {
  }

  method DecodeFixedBlob(size: nat, input: Bytes, ghost v: Value, ghost rest: Bytes)
    returns (ok: bool, value: Value, left: Bytes)
    ensures ok ==> |left| < |input|
    ensures ItemTyped(FixedBlob(size), v) && |v.AsBytes()| < TWO_32 && input == ItemWire(FixedBlob(size), v) + rest
            ==> ok && value == v && left == rest
    ensures ok ==> ItemSafe(FixedBlob(size), value)
  {
    var data;
    ok, data, left := ReadDelimited(input, v.AsBytes(), rest);
    if ok && |data| == 0 {
      value := Blob(seq(size, _ => 0));
      return;
    }
    value := Blob(data);
    ok := ok && |data| == size;
  }

  method DecodeScalar(t: LType, input: Bytes, ghost v: Value, ghost rest: Bytes)
    returns (ok: bool, value: Value, left: Bytes)
    requires t.Packable()
    ensures ok ==> |left| < |input|
    ensures ItemTyped(t, v) && input == ItemWire(t, v) + rest ==> ok && value == v && left == rest
    ensures ok ==> ItemSafe(t, value)
  {
    hide Varint, Digits, Half, ToUnsigned, ZigZag;
    FixedWidths();
    match t
    case Bool =>
      ok, value, left := DecodeBool(input, v, rest);
    case Fixed32 =>
      ok, value, left := DecodeFixed(input, 4, v, rest);
    case Fixed64 =>
      ok, value, left := DecodeFixed(input, 8, v, rest);
    case Signed(size) =>
      ok, value, left := DecodeSigned(size, input, v, rest);
    case Unsigned(size) =>
      ok, value, left := DecodeUnsigned(size, input, v, rest);
    case ZigZagged(size) =>
      ok, value, left := DecodeZigZagged(size, input, v, rest);
  }

  method DecodeBool(input: Bytes, ghost v: Value, ghost rest: Bytes) returns (ok: bool, value: Value, left: Bytes)
    ensures ok ==> |left| < |input|
    ensures ItemTyped(Bool, v) && input == ItemWire(Bool, v) + rest ==> ok && value == v && left == rest
    ensures ok ==> ItemSafe(Bool, value)
  {
    hide Varint;
    var done, u, after, _ := DecodeVarint32(input, if v.AsInt() != 0 then 1 else 0, rest);
    return done, Int(if u != 0 then 1 else 0), after;
  }

  method DecodeFixed(input: Bytes, n: nat, ghost v: Value, ghost rest: Bytes) returns (ok: bool, value: Value, left: Bytes)
    requires n == 4 || n == 8
    ensures ok ==> |left| < |input|
    ensures v.Int? && 0 <= v.i < Pow256(n) && input == Digits(v.i, n) + rest ==> ok && value == v && left == rest
    ensures ok ==> value.Int? && 0 <= value.i < Pow256(n)
  {
    if |input| < n {
      return false, Int(0), input;
    }
    if v.Int? && 0 <= v.i < Pow256(n) {
      DigitsRoundTrip(v.i, n);
    }
    UndigitsBelow(input[..n]);
    hide Pow256, Digits, Undigits;
    return true, Int(Undigits(input[..n])), input[n..];
  }

  /** Values of up to 32 bits are cut to 32 bits first, then must fit their size. */
  method DecodeSigned(size: nat, input: Bytes, ghost v: Value, ghost rest: Bytes) returns (ok: bool, value: Value, left: Bytes)
    ensures ok ==> |left| < |input|
    ensures ItemTyped(Signed(size), v) && input == ItemWire(Signed(size), v) + rest ==> ok && value == v && left == rest
    ensures ok ==> ItemSafe(Signed(size), value)
  {
    hide Varint;
    if -TWO_63 <= v.AsInt() < TWO_63 {
      SignedRoundTrip(v.AsInt());
    }
    var u;
    ok, u, left := DecodeVarint(input, ToUnsigned(v.AsInt()), rest);
    var i := ToSigned(u, if size == 8 then TWO_64 else TWO_32);
    value := Int(i);
    ok := ok && IntegerSize(size) && -Half(size) <= i < Half(size);
  }

  method DecodeUnsigned(size: nat, input: Bytes, ghost v: Value, ghost rest: Bytes) returns (ok: bool, value: Value, left: Bytes)
    ensures ok ==> |left| < |input|
    ensures ItemTyped(Unsigned(size), v) && input == ItemWire(Unsigned(size), v) + rest ==> ok && value == v && left == rest
    ensures ok ==> ItemSafe(Unsigned(size), value)
  {
    hide Varint;
    var u;
    ok, u, left := DecodeVarint(input, ToUnsigned(v.AsInt()), rest);
    value := Int(u);
    ok := ok && IntegerSize(size) && u < 2 * Half(size);
  }

  method DecodeZigZagged(size: nat, input: Bytes, ghost v: Value, ghost rest: Bytes) returns (ok: bool, value: Value, left: Bytes)
    ensures ok ==> |left| < |input|
    ensures ItemTyped(ZigZagged(size), v) && input == ItemWire(ZigZagged(size), v) + rest ==> ok && value == v && left == rest
    ensures ok ==> ItemSafe(ZigZagged(size), value)
  {
    hide Varint;
    if -TWO_63 <= v.AsInt() < TWO_63 {
      ZigZagRoundTrip(v.AsInt());
    }
    var u;
    ok, u, left := DecodeVarint(input, ToUnsigned(ZigZag(v.AsInt())), rest);
    var i := UnZigZag(u);
    value := Int(i);
    ok := ok && IntegerSize(size) && -Half(size) <= i < Half(size);
  }

  /** A nested message is decoded from a substream of its announced length; new array entries start from
      defaults, other submessages from what is already there. */
  method DecodeSubmessage(d: Descriptor, input: Bytes, initial: Value, ghost v: Value, ghost rest: Bytes)
    returns (ok: bool, value: Value, left: Bytes)
    ensures ok ==> |left| < |input|
    ensures ItemGood(Submessage(d), v, initial) && input == ItemWire(Submessage(d), v) + rest ==> ok && value == v && left == rest
    ensures ok && ItemSafe(Submessage(d), initial) ==> ItemSafe(Submessage(d), value)
    decreases d, 3
  {
    hide Wire, Delimited, DefaultSlots, WellFormed, MessageTyped, Projected, Part, ItemsSafe;
    var data;
    ok, data, left := ReadDelimited(input, Wire(d, v), rest);
    if !ok {
      return false, initial, input;
    }
    var slots := if initial.Message? && |initial.slots| == |d.fields| then initial.slots else DefaultSlots(d);
    var slots', unread;
    ghost var w := View(d, d, v, Everything(|d.fields|));
    ok, slots', unread := DecodeMessage(data, d, slots, w);
    value := Message(slots');
    SubmessageSafe(d, initial);
    SubmessageSafe(d, value);
    WholeIsPart(d);
    if MessageTyped(d, v) {
      IsMessage(d, v);
      if Projected(w, slots') {
        WholeProjected(d, v, slots');
      }
    }
  }

  lemma WholeProjected(d: Descriptor, v: Value, slots: seq<Slot>)
    requires v.Message? && |v.slots| == |d.fields| && Projected(View(d, d, v, Everything(|d.fields|)), slots)
    ensures slots == v.slots
  {
  }

  lemma IsMessage(d: Descriptor, v: Value)
    requires MessageTyped(d, v)
    ensures v.Message? && |v.slots| == |d.fields|
  {
  }

  // ---------------------------------------------------------------------------------- fields

  /** What follows the key of a chunk. */
  function Payload(f: Field, items: seq<Value>): Bytes {
    if f.Packed() then Delimited(ItemsWire(f.ltype, items))
    else if items == [] then []
    else ItemWire(f.ltype, items[0])
  }

  function KeyType(f: Field): nat {
    if f.Packed() then 2 else f.ltype.WireType()
  }

  /** The length that a chunk announces, if it does, is a 32-bit number. */
  ghost predicate ShortChunk(f: Field, c: seq<Value>) {
    if f.Packed() then |ItemsWire(f.ltype, c)| < TWO_32 else c != [] ==> ShortItem(f.ltype, c[0])
  }

  lemma SmallIsShort(f: Field, c: seq<Value>)
    requires |Payload(f, c)| < TWO_32
    ensures ShortChunk(f, c)
  {
    DelimitedLength(ItemsWire(f.ltype, c));
    if !f.Packed() && c != [] {
      DelimitedLength(c[0].AsBytes());
      if f.ltype.Submessage? {
        DelimitedLength(Wire(f.ltype.desc, c[0]));
      }
      hide Delimited, Wire;
    }
  }

  /** The encoding is below 2^32 bytes, or at least every length that it announces is; a nested message is then
      below 2^32 bytes. */
  ghost predicate Short(d: Descriptor, v: Value) {
    || |Wire(d, v)| < TWO_32
    || forall n, j :: 0 <= n < |d.fields| && 0 <= j < |FieldChunks(n, d.fields[n], v.Items(n))| ==>
         ShortChunk(d.fields[n], FieldChunks(n, d.fields[n], v.Items(n))[j].items)
  }

  /** A chunk that continues what the slot holds. */
  ghost predicate ChunkGood(f: Field, items: seq<Value>, c: seq<Value>) {
    && c != [] && (!f.Packed() ==> |c| == 1) && ShortChunk(f, c)
    && (forall x :: 0 <= x < |c| ==> ItemTyped(f.ltype, c[x]))
    && (f.ltype.Submessage? ==> WellFormed(f.ltype.desc))
    && (if f.htype.Repeated? then |items| + |c| <= f.htype.arraySize else items == DefaultItems(f))
  }

  /** The items of a packed array, as long as there is data and room for them. */
  method DecodePacked(f: Field, input: Bytes, items: seq<Value>, ghost c: seq<Value>, ghost rest: Bytes)
    returns (ok: bool, items': seq<Value>, left: Bytes)
    requires f.Packed()
    ensures ok ==> |left| < |input|
    ensures ChunkGood(f, items, c) && input == Payload(f, c) + rest ==> ok && items' == items + c && left == rest
    ensures ItemsSafe(f, items) ==> ItemsSafe(f, items')
    decreases f, 1
  {
    hide ItemWire, ItemTyped, ItemsWire, Delimited, WellFormed, DefaultItem, ItemSafe;
    ghost var t := f.ltype;
    ghost var good := ChunkGood(f, items, c) && input == Payload(f, c) + rest;
    var sub;
    ok, sub, left := ReadDelimited(input, ItemsWire(t, c), rest);
    if !ok {
      return false, items, input;
    }
    items' := items;
    ghost var x := 0;
    assert c[0..] == c && c[..0] == [];
    while sub != [] && |items'| < f.htype.arraySize
      invariant good ==> x <= |c| && sub == ItemsWire(t, c[x..]) && items' == items + c[..x]
      invariant ItemsSafe(f, items) ==> ItemsSafe(f, items')
      decreases |sub|
    {
      if good {
        PackedStep(t, c, x);
      }
      var decoded, item, after := DecodeItem(f.ltype, sub, DefaultItem(f.ltype),
                                             if x < |c| then c[x] else Int(0), if x < |c| then ItemsWire(t, c[x + 1..]) else []);
      if !decoded {
        return false, items', left;
      }
      items', sub := items' + [item], after;
      x := x + 1;
    }
    if good {
      PackedEnd(t, c, x, sub);
    }
    ok := sub == [];
  }

  lemma PackedStep(t: LType, c: seq<Value>, x: nat)
    requires t.Packable() && x <= |c| && (forall y :: 0 <= y < |c| ==> ItemTyped(t, c[y])) && ItemsWire(t, c[x..]) != []
    ensures x < |c| && ItemsWire(t, c[x..]) == ItemWire(t, c[x]) + ItemsWire(t, c[x + 1..])
    ensures ItemGood(t, c[x], DefaultItem(t)) && c[..x + 1] == c[..x] + [c[x]]
  {
    assert c[|c|..] == [];
    assert c[x..][0] == c[x] && c[x..][1..] == c[x + 1..];
    ScalarIsShort(t, c[x]);
  }

  lemma ScalarIsShort(t: LType, v: Value)
    requires t.Packable() && ItemTyped(t, v)
    ensures 0 < |ItemWire(t, v)| < TWO_32
  {
    VarintIsShort(if v.AsInt() != 0 then 1 else 0);
    VarintIsShort(ToUnsigned(v.AsInt()));
    VarintIsShort(ToUnsigned(ZigZag(v.AsInt())));
    hide Varint;
  }

  lemma {:induction false} VarintIsShort(v: nat)
    requires v < TWO_64
    ensures |Varint(v)| <= 10
  {
    VarintLength(v, 10);
    assert Pow128(5) == 34359738368;
    assert Pow128(10) == 128 * 128 * 128 * 128 * 128 * Pow128(5);
  }

  lemma PackedEnd(t: LType, c: seq<Value>, x: nat, sub: Bytes)
    requires x <= |c| && sub == ItemsWire(t, c[x..]) && t.Packable() && forall y :: 0 <= y < |c| ==> ItemTyped(t, c[y])
    ensures sub == [] ==> x == |c| && c[..x] == c
    ensures x == |c| ==> sub == []
  {
    if x < |c| {
      ScalarIsShort(t, c[x]);
      assert c[x..][0] == c[x];
    }
  }

  method DecodeField(f: Field, wireType: nat, input: Bytes, items: seq<Value>, ghost c: seq<Value>, ghost rest: Bytes)
    returns (ok: bool, items': seq<Value>, left: Bytes)
    ensures ok ==> |left| < |input|
    ensures ChunkGood(f, items, c) && wireType == KeyType(f) && input == Payload(f, c) + rest
            ==> ok && items' == (if f.htype.Repeated? then items else []) + c && left == rest
    ensures ok && ItemsSafe(f, items) ==> ItemsSafe(f, items')
    decreases f, 2
  {
    DefaultSafe(f.ltype);
    hide ItemWire, ItemTyped, ItemsWire, WellFormed, DefaultItem, ItemSafe;
    if f.htype.Repeated? && wireType == 2 && f.ltype.Packable() {
      ok, items', left := DecodePacked(f, input, items, c, rest);
      return;
    }
    if f.htype.Repeated? && |items| >= f.htype.arraySize {
      return false, items, input;
    }
    var initial := if !f.htype.Repeated? && items != [] then items[0] else DefaultItem(f.ltype);
    var item;
    ok, item, left := DecodeItem(f.ltype, input, initial, if c != [] then c[0] else Int(0), rest);
    items' := (if f.htype.Repeated? then items else []) + [item];
    if ok && ItemsSafe(f, items) {
      ItemAdded(f, items, item);
    }
    if ChunkGood(f, items, c) && wireType == KeyType(f) {
      NotPacked(f);
      assert c == [c[0]];
    }
  }

  lemma NotPacked(f: Field)
    ensures f.Packed() ==> KeyType(f) == 2
    ensures !f.Packed() && f.htype.Repeated? ==> !f.ltype.Packable()
  {
  }

  lemma {:induction false} VarintTail(u: nat, left: Bytes, rest: Bytes)
    requires left == Varint(u) + rest
    ensures left != [] && (left[0] < 128 <==> u < 128)
    ensures u < 128 ==> left[1..] == rest
    ensures u >= 128 ==> left[1..] == Varint(u / 128) + rest
  {
    if u >= 128 {
      assert left == [(u % 128 + 128) as byte] + (Varint(u / 128) + rest);
    }
  }

  /** Skip a varint of any length. */
  method SkipVarint(input: Bytes, ghost u: nat, ghost rest: Bytes) returns (ok: bool, left: Bytes)
    ensures ok ==> |left| < |input|
    ensures input == Varint(u) + rest ==> ok && left == rest
  {
    hide Varint;
    left := input;
    ghost var w := u;
    ghost var good := input == Varint(u) + rest;
    while true
      invariant |left| <= |input| && (good ==> left == Varint(w) + rest)
      decreases |left|
    {
      if good {
        VarintTail(w, left, rest);
      }
      if left == [] {
        return false, left;
      }
      var b := left[0];
      left := left[1..];
      if b < 128 {
        return true, left;
      }
      w := w / 128;
    }
  }

  /** The number that a varint item stands for on the wire, and the bytes of a delimited payload. */
  ghost function WireNumber(t: LType, v: Value): nat {
    match t
    case Bool => if v.AsInt() != 0 then 1 else 0
    case ZigZagged(_) => ToUnsigned(ZigZag(v.AsInt()))
    case _ => ToUnsigned(v.AsInt())
  }

  ghost function WireBytes(f: Field, c: seq<Value>): Bytes {
    if f.Packed() then ItemsWire(f.ltype, c)
    else if c == [] then []
    else if f.ltype.Submessage? then Wire(f.ltype.desc, c[0])
    else c[0].AsBytes()
  }

  /** What a payload looks like, by wire type. */
  lemma PayloadForm(f: Field, c: seq<Value>)
    requires c != []
    ensures KeyType(f) in {0, 1, 2, 5}
    ensures KeyType(f) == 0 ==> Payload(f, c) == Varint(WireNumber(f.ltype, c[0]))
    ensures KeyType(f) == 1 ==> |Payload(f, c)| == 8
    ensures KeyType(f) == 5 ==> |Payload(f, c)| == 4
    ensures KeyType(f) == 2 ==> Payload(f, c) == Delimited(WireBytes(f, c)) && (ShortChunk(f, c) ==> |WireBytes(f, c)| < TWO_32)
  {
    hide Varint, Delimited, ItemsWire, Wire, Digits, ToUnsigned, ZigZag;
  }

  /** Unknown fields are skipped by their wire type: exactly the payload of a chunk goes. */
  method SkipField(wireType: nat, input: Bytes, ghost f: Field, ghost c: seq<Value>, ghost rest: Bytes) returns (ok: bool, left: Bytes)
    ensures ok ==> |left| < |input|
    ensures c != [] && ShortChunk(f, c) && wireType == KeyType(f) && input == Payload(f, c) + rest ==> ok && left == rest
    ensures wireType !in {0, 1, 2, 5} ==> !ok
  {
    ghost var good := c != [] && ShortChunk(f, c) && wireType == KeyType(f) && input == Payload(f, c) + rest;
    if good {
      PayloadForm(f, c);
    }
    hide Payload, KeyType, ShortChunk, Varint, Delimited, WireNumber, WireBytes;
    if wireType == 0 {
      ok, left := SkipVarint(input, if good then WireNumber(f.ltype, c[0]) else 0, rest);
    } else if wireType == 1 || wireType == 5 {
      var n := if wireType == 1 then 8 else 4;
      if |input| < n {
        return false, input;
      }
      return true, input[n..];
    } else if wireType == 2 {
      var data;
      ok, data, left := ReadDelimited(input, if good then WireBytes(f, c) else [], rest);
    } else {
      return false, input;
    }
  }

  // -------------------------------------------------------------------------------- messages

  /** A message `v` of descriptor `full`, decoded with a descriptor `d` that has the fields at positions `pos`. */
  datatype View = View(d: Descriptor, full: Descriptor, v: Value, pos: seq<nat>)

  ghost predicate ViewOk(w: View) {
    Part(w.d, w.full, w.pos) && WellFormed(w.full) && MessageTyped(w.full, w.v) && Short(w.full, w.v)
  }

  predicate Met(at: nat, n: nat, j: nat) {
    at < n || (at == n && j > 0)
  }

  /** Every required field met so far is marked, as far as the bitmap reaches. */
  ghost predicate Marked(fields: seq<Field>, pos: seq<nat>, seen: set<nat>, n: nat, j: nat)
    requires |pos| == |fields|
  {
    forall i :: 0 <= i < |fields| && Met(pos[i], n, j) && fields[i].htype.Required? && RequiredBefore(fields, i) < MAX_REQUIRED_FIELDS
      ==> RequiredBefore(fields, i) in seen
  }

  /** The decoder stands before chunk `j` of field `n` of the encoding. */
  ghost predicate Ready(w: View, n: nat, j: nat, slots: seq<Slot>, rest: Bytes, seen: set<nat>) {
    && ViewOk(w)
    && n <= |w.full.fields| && (n < |w.full.fields| ==> j <= |FieldChunks(n, w.full.fields[n], w.v.Items(n))|)
    && slots == Partial(w.d, w.v, w.pos, n, j) && rest == ChunksWire(w.full, RestChunks(w.full, w.v, n, j))
    && (|rest| >= TWO_32 ==> |Wire(w.full, w.v)| >= TWO_32)
    && Marked(w.d.fields, w.pos, seen, n, j)
  }

  lemma ReadyFacts(w: View, n: nat, j: nat, slots: seq<Slot>, rest: Bytes, seen: set<nat>)
    requires Ready(w, n, j, slots, rest, seen)
    ensures Part(w.d, w.full, w.pos) && WellFormed(w.full) && MessageTyped(w.full, w.v) && Short(w.full, w.v) && |w.pos| == |w.d.fields|
    ensures n <= |w.full.fields| && (n < |w.full.fields| ==> j <= |FieldChunks(n, w.full.fields[n], w.v.Items(n))|)
    ensures slots == Partial(w.d, w.v, w.pos, n, j) && rest == ChunksWire(w.full, RestChunks(w.full, w.v, n, j))
    ensures |rest| >= TWO_32 ==> |Wire(w.full, w.v)| >= TWO_32
    ensures Marked(w.d.fields, w.pos, seen, n, j)
  {
    hide WellFormed, MessageTyped, Partial, ChunksWire, RestChunks, Marked, FieldChunks, Short, Wire;
  }

  lemma ReadyFolds(w: View, n: nat, j: nat, slots: seq<Slot>, rest: Bytes, seen: set<nat>)
    requires Part(w.d, w.full, w.pos) && WellFormed(w.full) && MessageTyped(w.full, w.v) && Short(w.full, w.v) && |w.pos| == |w.d.fields|
    requires n <= |w.full.fields| && (n < |w.full.fields| ==> j <= |FieldChunks(n, w.full.fields[n], w.v.Items(n))|)
    requires slots == Partial(w.d, w.v, w.pos, n, j) && rest == ChunksWire(w.full, RestChunks(w.full, w.v, n, j))
    requires |rest| >= TWO_32 ==> |Wire(w.full, w.v)| >= TWO_32
    requires Marked(w.d.fields, w.pos, seen, n, j)
    ensures Ready(w, n, j, slots, rest, seen)
  {
    hide WellFormed, MessageTyped, Partial, ChunksWire, RestChunks, Marked, FieldChunks, Short, Wire;
  }

  lemma ReadyStarts(w: View, slots: seq<Slot>, input: Bytes)
    requires ViewOk(w) && slots == DefaultSlots(w.d) && input == Wire(w.full, w.v)
    ensures Ready(w, 0, 0, slots, input, {})
  {
    hide WellFormed, MessageTyped, Partial, DefaultSlots, ChunksWire, RestChunks, Chunks, FieldChunks, Short;
    RestStarts(w.full, w.v);
    PartialStarts(w.d, w.v, w.pos);
  }

  lemma RequiredHasChunk(full: Descriptor, v: Value, n: nat)
    requires MessageTyped(full, v) && n < |full.fields| && full.fields[n].htype.Required?
    ensures |FieldChunks(n, full.fields[n], v.Items(n))| == 1
  {
    assert CountOk(full.fields[n].htype, |v.slots[n].items|);
    hide ItemTyped, OneofsOk;
  }

  lemma MarkedNextField(w: View, seen: set<nat>, n: nat, j: nat)
    requires Part(w.d, w.full, w.pos) && MessageTyped(w.full, w.v) && n < |w.full.fields|
    requires Marked(w.d.fields, w.pos, seen, n, j) && j == |FieldChunks(n, w.full.fields[n], w.v.Items(n))|
    ensures Marked(w.d.fields, w.pos, seen, n + 1, 0)
  {
    hide MessageTyped, FieldChunks, RequiredBefore;
    if w.full.fields[n].htype.Required? {
      RequiredHasChunk(w.full, w.v, n);
    }
  }

  /** Step over fields without chunks. */
  lemma {:induction false} Normalized(w: View, n: nat, j: nat, slots: seq<Slot>, rest: Bytes, seen: set<nat>)
    returns (n': nat, j': nat)
    requires Ready(w, n, j, slots, rest, seen)
    ensures Ready(w, n', j', slots, rest, seen)
    ensures n' <= |w.full.fields| && (n' < |w.full.fields| ==> j' < |FieldChunks(n', w.full.fields[n'], w.v.Items(n'))|)
    decreases |w.full.fields| - n
  {
    hide *;
    ReadyFacts(w, n, j, slots, rest, seen);
    if n < |w.full.fields| && j == |FieldChunks(n, w.full.fields[n], w.v.Items(n))| {
      RestNextField(w.full, w.v, n, j);
      PartialNextField(w.d, w.full, w.v, w.pos, n, j);
      MarkedNextField(w, seen, n, j);
      ReadyFolds(w, n + 1, 0, slots, rest, seen);
      n', j' := Normalized(w, n + 1, 0, slots, rest, seen);
    } else {
      n', j' := n, j;
    }
  }

  /** The slots of the view are those of the message. */
  ghost predicate Projected(w: View, slots: seq<Slot>) {
    w.v.Message? && |slots| == |w.pos| && forall i :: 0 <= i < |slots| ==> w.pos[i] < |w.v.slots| && slots[i] == w.v.slots[w.pos[i]]
  }

  lemma ReadyDone(w: View, n: nat, j: nat, slots: seq<Slot>, rest: Bytes, seen: set<nat>)
    requires Ready(w, n, j, slots, rest, seen) && n == |w.full.fields|
    ensures rest == [] && Projected(w, slots) && |w.pos| == |w.d.fields| && Marked(w.d.fields, w.pos, seen, |w.full.fields|, j)
  {
    ReadyFacts(w, n, j, slots, rest, seen);
    hide Ready, WellFormed, ItemTyped, ChunkWire, FieldChunks, DefaultItem, OneofsOk, Short, Wire, PartialItems, Marked;
  }

  lemma RestStep(full: Descriptor, v: Value, n: nat, j: nat)
    requires n < |full.fields| && j < |FieldChunks(n, full.fields[n], v.Items(n))|
    ensures RestChunks(full, v, n, j) == [FieldChunks(n, full.fields[n], v.Items(n))[j]] + RestChunks(full, v, n, j + 1)
  {
    hide FieldChunks, ChunksFrom;
    var c := FieldChunks(n, full.fields[n], v.Items(n));
    assert c[j..] == [c[j]] + c[j + 1..];
  }

  lemma ChunkIs(f: Field, items: seq<Value>)
    requires items != []
    ensures ChunkWire(f, items) == Tag(KeyType(f), f.tag) + Payload(f, items)
  {
    hide ItemWire, ItemsWire, Tag, Delimited;
  }

  /** The next chunk: its key, its payload, and what follows. */
  lemma ReadyChunk(w: View, n: nat, j: nat, slots: seq<Slot>, rest: Bytes, seen: set<nat>)
    returns (c: seq<Value>, after: Bytes)
    requires Ready(w, n, j, slots, rest, seen) && n < |w.full.fields| && j < |FieldChunks(n, w.full.fields[n], w.v.Items(n))|
    ensures c == FieldChunks(n, w.full.fields[n], w.v.Items(n))[j].items && c != [] && after == ChunksWire(w.full, RestChunks(w.full, w.v, n, j + 1))
    ensures rest == Tag(KeyType(w.full.fields[n]), w.full.fields[n].tag) + (Payload(w.full.fields[n], c) + after)
    ensures |Payload(w.full.fields[n], c)| + |after| < |rest| && ShortChunk(w.full.fields[n], c)
  {
    hide *;
    ReadyFacts(w, n, j, slots, rest, seen);
    var full, v := w.full, w.v;
    var chunk := FieldChunks(n, full.fields[n], v.Items(n))[j];
    c, after := chunk.items, ChunksWire(full, RestChunks(full, v, n, j + 1));
    ChunkItems(full, v, n, j);
    RestStep(full, v, n, j);
    ChunksWireConcat(full, [chunk], RestChunks(full, v, n, j + 1));
    OneChunk(full, chunk);
    ChunkIs(full.fields[n], c);
    TagNonEmpty(KeyType(full.fields[n]), full.fields[n].tag);
    assert Tag(KeyType(full.fields[n]), full.fields[n].tag) + Payload(full.fields[n], c) + after
        == Tag(KeyType(full.fields[n]), full.fields[n].tag) + (Payload(full.fields[n], c) + after);
    if |rest| < TWO_32 {
      SmallIsShort(full.fields[n], c);
    } else {
      ChunkIsShort(full, v, n, j);
    }
  }

  lemma ChunkIsShort(d: Descriptor, v: Value, n: nat, j: nat)
    requires Short(d, v) && |Wire(d, v)| >= TWO_32 && n < |d.fields| && j < |FieldChunks(n, d.fields[n], v.Items(n))|
    ensures ShortChunk(d.fields[n], FieldChunks(n, d.fields[n], v.Items(n))[j].items)
  {
    hide Wire, FieldChunks, ShortChunk;
  }

  lemma TagNonEmpty(wireType: nat, tag: nat)
    ensures Tag(wireType, tag) != []
  {
  }

  /** The key is a 32-bit number that gives back the tag and the wire type, and is not zero. */
  lemma KeyFacts(full: Descriptor, n: nat)
    requires WellFormed(full) && n < |full.fields|
    ensures var key := full.fields[n].tag * 8 + KeyType(full.fields[n]);
            0 < key < TWO_32 && key / 8 == full.fields[n].tag && key % 8 == KeyType(full.fields[n])
    ensures Tag(KeyType(full.fields[n]), full.fields[n].tag) == Varint(full.fields[n].tag * 8 + KeyType(full.fields[n]))
    ensures full.fields[n].ltype.Submessage? ==> WellFormed(full.fields[n].ltype.desc)
    ensures forall i :: 0 <= i < |full.fields| && full.fields[i].tag == full.fields[n].tag ==> i == n
  {
    hide Varint;
    var f := full.fields[n];
    assert 0 < f.tag < 0x2000_0000 && KeyType(f) < 8;
  }

  /** The view has a field with the tag of field `n` exactly when that field is in it. */
  lemma TagInView(w: View, n: nat)
    requires Part(w.d, w.full, w.pos) && WellFormed(w.full) && n < |w.full.fields|
    ensures forall i :: 0 <= i < |w.d.fields| ==> (w.d.fields[i].tag == w.full.fields[n].tag <==> w.pos[i] == n)
  {
    KeyFacts(w.full, n);
    hide WellFormed, Tag;
  }

  /** The slot that the next chunk goes into is in the right state for it. */
  lemma ChunkIsGood(w: View, n: nat, j: nat, slots: seq<Slot>, rest: Bytes, seen: set<nat>, c: seq<Value>, i: nat)
    requires Ready(w, n, j, slots, rest, seen) && n < |w.full.fields| && j < |FieldChunks(n, w.full.fields[n], w.v.Items(n))|
    requires c == FieldChunks(n, w.full.fields[n], w.v.Items(n))[j].items && ShortChunk(w.full.fields[n], c)
    requires i < |w.d.fields| && i < |w.pos| && w.pos[i] == n
    ensures |slots| == |w.d.fields| && w.d.fields[i] == w.full.fields[n] && ChunkGood(w.d.fields[i], slots[i].items, c)
    ensures PartialItems(w.d.fields[i], w.v.Items(n), j + 1) == (if w.d.fields[i].htype.Repeated? then slots[i].items else []) + c
  {
    hide *;
    ReadyFacts(w, n, j, slots, rest, seen);
    PartAt(w, i);
    ChunkItems(w.full, w.v, n, j);
    PartialAt(w.d, w.v, w.pos, n, j, i);
    KeyFacts(w.full, n);
    FoldChunkGood(w.d.fields[i], slots[i].items, c);
  }

  lemma PartAt(w: View, i: nat)
    requires Part(w.d, w.full, w.pos) && i < |w.d.fields|
    ensures |w.pos| == |w.d.fields| && w.pos[i] < |w.full.fields| && w.d.fields[i] == w.full.fields[w.pos[i]]
  {
  }

  lemma PartialAt(d: Descriptor, v: Value, pos: seq<nat>, n: nat, j: nat, i: nat)
    requires |pos| == |d.fields| && i < |d.fields| && pos[i] == n
    ensures Partial(d, v, pos, n, j)[i].items == PartialItems(d.fields[i], v.Items(n), j)
  {
    hide PartialItems;
  }

  lemma FoldChunkGood(f: Field, items: seq<Value>, c: seq<Value>)
    requires c != [] && (!f.Packed() ==> |c| == 1) && ShortChunk(f, c)
    requires forall x :: 0 <= x < |c| ==> ItemTyped(f.ltype, c[x])
    requires f.ltype.Submessage? ==> WellFormed(f.ltype.desc)
    requires f.htype.Repeated? ==> |items + c| <= f.htype.arraySize
    requires !f.htype.Repeated? ==> items == DefaultItems(f)
    ensures ChunkGood(f, items, c)
  {
    hide ItemTyped, WellFormed, ShortChunk, DefaultItems;
  }

  lemma MarkedChunk(w: View, n: nat, j: nat, seen: set<nat>, seen': set<nat>, i: nat)
    requires Part(w.d, w.full, w.pos) && Marked(w.d.fields, w.pos, seen, n, j) && seen <= seen' && i < |w.d.fields| && w.pos[i] == n
    requires w.d.fields[i].htype.Required? && RequiredBefore(w.d.fields, i) < MAX_REQUIRED_FIELDS ==> RequiredBefore(w.d.fields, i) in seen'
    ensures Marked(w.d.fields, w.pos, seen', n, j + 1)
  {
    hide RequiredBefore;
  }

  /** A known field's chunk has been decoded. */
  lemma ReadyNext(w: View, n: nat, j: nat, slots: seq<Slot>, rest: Bytes, seen: set<nat>,
                  slots': seq<Slot>, after: Bytes, seen': set<nat>, i: nat)
    requires Ready(w, n, j, slots, rest, seen) && n < |w.full.fields| && j < |FieldChunks(n, w.full.fields[n], w.v.Items(n))|
    requires i < |w.d.fields| && i < |w.pos| && w.pos[i] == n
    requires |slots| == |w.d.fields| && slots' == Update(w.d, slots, i, PartialItems(w.d.fields[i], w.v.Items(n), j + 1))
    requires after == ChunksWire(w.full, RestChunks(w.full, w.v, n, j + 1)) && |after| < |rest|
    requires seen <= seen' && (w.d.fields[i].htype.Required? && RequiredBefore(w.d.fields, i) < MAX_REQUIRED_FIELDS ==> RequiredBefore(w.d.fields, i) in seen')
    ensures Ready(w, n, j + 1, slots', after, seen')
  {
    hide *;
    ReadyFacts(w, n, j, slots, rest, seen);
    UpdateStep(w.d, w.full, w.v, w.pos, n, j, i);
    MarkedChunk(w, n, j, seen, seen', i);
    ReadyFolds(w, n, j + 1, slots', after, seen');
  }

  lemma MarkedSkips(w: View, n: nat, j: nat, seen: set<nat>)
    requires Part(w.d, w.full, w.pos) && Marked(w.d.fields, w.pos, seen, n, j) && forall i :: 0 <= i < |w.pos| ==> w.pos[i] != n
    ensures Marked(w.d.fields, w.pos, seen, n, j + 1)
  {
    hide RequiredBefore;
  }

  /** An unknown field's chunk has been skipped. */
  lemma ReadySkips(w: View, n: nat, j: nat, slots: seq<Slot>, rest: Bytes, seen: set<nat>, after: Bytes)
    requires Ready(w, n, j, slots, rest, seen) && n < |w.full.fields| && j < |FieldChunks(n, w.full.fields[n], w.v.Items(n))|
    requires forall i :: 0 <= i < |w.pos| ==> w.pos[i] != n
    requires after == ChunksWire(w.full, RestChunks(w.full, w.v, n, j + 1)) && |after| < |rest|
    ensures Ready(w, n, j + 1, slots, after, seen)
  {
    hide *;
    ReadyFacts(w, n, j, slots, rest, seen);
    PartialSkips(w.d, w.v, w.pos, n, j);
    MarkedSkips(w, n, j, seen);
    ReadyFolds(w, n, j + 1, slots, after, seen);
  }

  /** The required-field check passes when every required field is marked. */
  method CheckRequired(fields: seq<Field>, it: FieldIter, seen: set<nat>) returns (ok: bool)
    requires IterOk(fields, it)
    ensures ok <==> forall i :: 0 <= i < |fields| && fields[i].htype.Required? && RequiredBefore(fields, i) < MAX_REQUIRED_FIELDS
                      ==> RequiredBefore(fields, i) in seen
  {
    var count := CountRequired(fields, it);
    if count > MAX_REQUIRED_FIELDS {
      count := MAX_REQUIRED_FIELDS;
    }
    for r := 0 to count
      invariant forall x :: 0 <= x < r ==> x in seen
    {
      if r !in seen {
        ghost var i := RequiredAt(fields, |fields|, r);
        return false;
      }
    }
    forall i | 0 <= i < |fields| && fields[i].htype.Required? && RequiredBefore(fields, i) < MAX_REQUIRED_FIELDS
      ensures RequiredBefore(fields, i) in seen
    {
      RequiredMonotone(fields, i + 1, |fields|);
      assert RequiredBefore(fields, i) < RequiredBefore(fields, i + 1);
    }
    ok := true;
  }

  /** Read key after key until the stream ends or a zero key, filling the slots and skipping unknown fields; then check that
      no required field is missing.  The encoding of a message, decoded with any part of its descriptor, gives that part
      of the message back and leaves nothing unread. */
  method DecodeMessage(input: Bytes, d: Descriptor, slots: seq<Slot>, ghost w: View)
    returns (ok: bool, slots': seq<Slot>, left: Bytes)
    requires |slots| == |d.fields|
    ensures |slots'| == |d.fields|
    ensures w.d == d && ViewOk(w) && slots == DefaultSlots(d) && input == Wire(w.full, w.v) ==> ok && Projected(w, slots') && left == []
    ensures SlotsSafe(d, slots) ==> SlotsSafe(d, slots')
    decreases d, 2
  {
    hide *;
    slots', left := slots, input;
    var it, seen: set<nat> := FieldIter(0, 0), {};
    ghost var good := w.d == d && ViewOk(w) && slots == DefaultSlots(d) && input == Wire(w.full, w.v);
    ghost var n: nat, j: nat := 0, 0;
    if good {
      ReadyStarts(w, slots, input);
    }
    IterStarts(d.fields);
    while left != []
      invariant |slots'| == |d.fields| && IterOk(d.fields, it) && (SlotsSafe(d, slots) ==> SlotsSafe(d, slots'))
      invariant good ==> Ready(w, n, j, slots', left, seen)
      decreases |left|
    {
      ghost var c: seq<Value>, after: Bytes, f': Field := [], [], Field(1, Bool, Optional);
      if good {
        n, j := Normalized(w, n, j, slots', left, seen);
        if n == |w.full.fields| {
          ReadyDone(w, n, j, slots', left, seen);
        }
        c, after := ReadyChunk(w, n, j, slots', left, seen);
        ReadyFacts(w, n, j, slots', left, seen);
        KeyFacts(w.full, n);
        TagInView(w, n);
        f' := w.full.fields[n];
      }
      var keyed, key, body, _ := DecodeVarint32(left, if good then f'.tag * 8 + KeyType(f') else 0,
                                                if good then Payload(f', c) + after else []);
      if !keyed {
        return false, slots', left;
      }
      if key == 0 {
        left := body;
        break;
      }
      var tag, wireType := key / 8, key % 8;
      var found;
      found, it := IterFind(d.fields, it, tag);
      if !found {
        var skipped, unread := SkipField(wireType, body, f', c, after);
        if !skipped {
          return false, slots', unread;
        }
        if good {
          NotInView(w, n);
          ReadySkips(w, n, j, slots', left, seen, unread);
          j := j + 1;
        }
        left := unread;
      } else {
        var f := d.fields[it.pos];
        ghost var before := seen;
        if f.htype.Required? && it.required < MAX_REQUIRED_FIELDS {
          seen := seen + {it.required};
        }
        if good {
          ChunkIsGood(w, n, j, slots', left, before, c, it.pos);
        }
        var decoded, items, unread := DecodeField(f, wireType, body, slots'[it.pos].items, c, after);
        if !decoded {
          return false, slots', body;
        }
        ghost var was := slots';
        if SlotsSafe(d, slots') {
          SlotSafe(d, slots', it.pos);
          UpdateSafe(d, slots', it.pos, items);
        }
        slots' := Update(d, slots', it.pos, items);
        if good {
          IterAt(d.fields, it);
          ReadyNext(w, n, j, was, left, before, slots', unread, seen, it.pos);
          j := j + 1;
        }
        left := unread;
      }
    }
    if good {
      n, j := Normalized(w, n, j, slots', left, seen);
      if n < |w.full.fields| {
        var c, after := ReadyChunk(w, n, j, slots', left, seen);
      }
      ReadyDone(w, n, j, slots', left, seen);
      ReadyFacts(w, n, j, slots', left, seen);
      UnfoldMarked(w, seen, j);
    }
    ok := CheckRequired(d.fields, it, seen);
  }

  lemma SlotSafe(d: Descriptor, slots: seq<Slot>, n: nat)
    requires SlotsSafe(d, slots) && n < |d.fields|
    ensures |slots| == |d.fields| && ItemsSafe(d.fields[n], slots[n].items)
  {
    hide ItemsSafe;
  }

  lemma NotInView(w: View, n: nat)
    requires Part(w.d, w.full, w.pos) && n < |w.full.fields| && forall i :: 0 <= i < |w.d.fields| ==> w.d.fields[i].tag != w.full.fields[n].tag
    ensures forall i :: 0 <= i < |w.pos| ==> w.pos[i] != n
  {
  }

  lemma IterStarts(fields: seq<Field>)
    ensures IterOk(fields, FieldIter(0, 0))
  {
  }

  lemma IterAt(fields: seq<Field>, it: FieldIter)
    requires IterOk(fields, it) && it.pos < |fields|
    ensures it.required == RequiredBefore(fields, it.pos)
  {
  }

  lemma UnfoldMarked(w: View, seen: set<nat>, j: nat)
    requires Part(w.d, w.full, w.pos) && Marked(w.d.fields, w.pos, seen, |w.full.fields|, j)
    ensures forall i :: 0 <= i < |w.d.fields| && w.d.fields[i].htype.Required? && RequiredBefore(w.d.fields, i) < MAX_REQUIRED_FIELDS
              ==> RequiredBefore(w.d.fields, i) in seen
  {
    hide RequiredBefore;
  }
}
