/** The serialized form of version edits, as stored in the manifest. */
module EditCodec {
  import opened DbFormat
  import opened PbVarint
  import opened BlockIter

  const LEVELS: nat := 7

  /** Metadata of an added file; keys are encoded internal keys. */
  datatype FileMeta = FileMeta(number: nat, size: nat, smallest: Bytes, largest: Bytes)

  datatype Edit = Edit(comparator: Option<Bytes>, logNumber: Option<nat>, prevLogNumber: Option<nat>,
                       nextFileNumber: Option<nat>, lastSequence: Option<nat>,
                       compactPointers: seq<(nat, Bytes)>, deletedFiles: set<(nat, nat)>, newFiles: seq<(nat, FileMeta)>)

  /** What clearing an edit leaves: everything but the compaction pointers is reset. */
  function Cleared(pointers: seq<(nat, Bytes)>): Edit {
    Edit(None, None, None, None, None, pointers, {}, [])
  }

  /** One tagged item of the serialized form. */
  datatype Item =
    | Comparator(name: Bytes)
    | LogNumber(n: nat)
    | NextFileNumber(n: nat)
    | LastSequence(n: nat)
    | CompactPointer(level: nat, key: Bytes)
    | DeletedFile(level: nat, n: nat)
    | NewFile(level: nat, f: FileMeta)
    | PrevLogNumber(n: nat)
  {
    function Tag(): nat {
      match this
      case Comparator(_) => 1
      case LogNumber(_) => 2
      case NextFileNumber(_) => 3
      case LastSequence(_) => 4
      case CompactPointer(_, _) => 5
      case DeletedFile(_, _) => 6
      case NewFile(_, _) => 7
      case PrevLogNumber(_) => 9
    }

    function Body(): Bytes {
      match this
      case Comparator(name) => Prefixed(name)
      case LogNumber(n) => Varint(n)
      case NextFileNumber(n) => Varint(n)
      case LastSequence(n) => Varint(n)
      case CompactPointer(level, key) => Varint(level) + Prefixed(key)
      case DeletedFile(level, n) => Varint(level) + Varint(n)
      case NewFile(level, f) => Varint(level) + (Varint(f.number) + (Varint(f.size) + (Prefixed(f.smallest) + Prefixed(f.largest))))
      case PrevLogNumber(n) => Varint(n)
    }

    /** Within the widths and the number of levels. */
    predicate Fits() {
      match this
      case Comparator(name) => |name| < TWO_32
      case LogNumber(n) => n < TWO_64
      case NextFileNumber(n) => n < TWO_64
      case LastSequence(n) => n < TWO_64
      case CompactPointer(level, key) => level < LEVELS && |key| < TWO_32
      case DeletedFile(level, n) => level < LEVELS && n < TWO_64
      case NewFile(level, f) => level < LEVELS && f.number < TWO_64 && f.size < TWO_64 && |f.smallest| < TWO_32 && |f.largest| < TWO_32
      case PrevLogNumber(n) => n < TWO_64
    }
  }

  function Prefixed(b: Bytes): Bytes {
    Varint(|b|) + b
  }

  function ItemBytes(i: Item): Bytes {
    Varint(i.Tag()) + i.Body()
  }

  ghost function ItemsBytes(items: seq<Item>): Bytes {
    if items == [] then [] else ItemBytes(items[0]) + ItemsBytes(items[1..])
  }

  /** What reading one item does to an edit. */
  function Apply(e: Edit, i: Item): Edit {
    match i
    case Comparator(name) => e.(comparator := Some(name))
    case LogNumber(n) => e.(logNumber := Some(n))
    case NextFileNumber(n) => e.(nextFileNumber := Some(n))
    case LastSequence(n) => e.(lastSequence := Some(n))
    case CompactPointer(level, key) => e.(compactPointers := e.compactPointers + [(level, key)])
    case DeletedFile(level, n) => e.(deletedFiles := e.deletedFiles + {(level, n)})
    case NewFile(level, f) => e.(newFiles := e.newFiles + [(level, f)])
    case PrevLogNumber(n) => e.(prevLogNumber := Some(n))
  }

  ghost function ApplyAll(e: Edit, items: seq<Item>): Edit
    decreases |items|
  {
    if items == [] then e else ApplyAll(Apply(e, items[0]), items[1..])
  }

  lemma {:induction false} ApplySnoc(e: Edit, items: seq<Item>, i: Item)
    ensures ApplyAll(e, items + [i]) == Apply(ApplyAll(e, items), i)
    decreases |items|
  {
    hide Apply;
    if items == [] {
      assert ([] + [i])[1..] == [];
    } else {
      assert (items + [i])[1..] == items[1..] + [i];
      ApplySnoc(Apply(e, items[0]), items[1..], i);
    }
  }

  lemma {:induction false} BytesSnoc(items: seq<Item>, i: Item)
    ensures ItemsBytes(items + [i]) == ItemsBytes(items) + ItemBytes(i)
    decreases |items|
  {
    hide ItemBytes;
    if items == [] {
      assert ([] + [i])[1..] == [];
      assert ItemsBytes([i]) == ItemBytes(i) + [];
    } else {
      assert (items + [i])[1..] == items[1..] + [i];
      BytesSnoc(items[1..], i);
    }
  }

  ghost predicate AllFit(items: seq<Item>) {
    forall x :: 0 <= x < |items| ==> items[x].Fits()
  }

  // -------------------------------------------------------------------------------- encoding

  ghost predicate EditFits(e: Edit) {
    && (e.comparator.Some? ==> |e.comparator.value| < TWO_32)
    && (e.logNumber.Some? ==> e.logNumber.value < TWO_64) && (e.prevLogNumber.Some? ==> e.prevLogNumber.value < TWO_64)
    && (e.nextFileNumber.Some? ==> e.nextFileNumber.value < TWO_64) && (e.lastSequence.Some? ==> e.lastSequence.value < TWO_64)
    && (forall x :: 0 <= x < |e.compactPointers| ==> CompactPointer(e.compactPointers[x].0, e.compactPointers[x].1).Fits())
    && (forall p :: p in e.deletedFiles ==> DeletedFile(p.0, p.1).Fits())
    && (forall x :: 0 <= x < |e.newFiles| ==> NewFile(e.newFiles[x].0, e.newFiles[x].1).Fits())
  }

  /** The bytes so far, and the edit that reading them gives. */
  ghost predicate Encoded(dst: Bytes, items: seq<Item>, e: Edit) {
    dst == ItemsBytes(items) && AllFit(items) && forall p :: ApplyAll(Cleared(p), items) == e.(compactPointers := p + e.compactPointers)
  }

  /** Append one item. */
  method PutItem(dst: Bytes, i: Item, ghost items: seq<Item>, ghost e: Edit) returns (dst': Bytes)
    requires Encoded(dst, items, e) && i.Fits()
    ensures Encoded(dst', items + [i], Apply(e, i))
  {
    hide ItemsBytes, ApplyAll, ItemBytes;
    dst' := dst + ItemBytes(i);
    BytesSnoc(items, i);
    forall p ensures ApplyAll(Cleared(p), items + [i]) == Apply(e, i).(compactPointers := p + Apply(e, i).compactPointers) {
      ApplySnoc(Cleared(p), items, i);
      assert i.CompactPointer? ==> p + (e.compactPointers + [(i.level, i.key)]) == p + e.compactPointers + [(i.level, i.key)];
    }
  }

  lemma NothingEncoded()
    ensures Encoded([], [], Cleared([]))
  {
    assert forall p: seq<(nat, Bytes)> :: p + [] == p;
  }

  method PutOptional(dst: Bytes, i: Option<Item>, ghost items: seq<Item>, ghost e: Edit)
    returns (dst': Bytes, ghost items': seq<Item>)
    requires Encoded(dst, items, e) && (i.Some? ==> i.value.Fits())
    ensures Encoded(dst', items', if i.Some? then Apply(e, i.value) else e)
    ensures items' == items + Listed(i)
  {
    hide Encoded;
    dst', items' := dst, items;
    if i.Some? {
      dst' := PutItem(dst, i.value, items, e);
      items' := items + [i.value];
    }
  }

  /** The single-valued fields, in their fixed order. */
  ghost function FieldItems(e: Edit): seq<Item> {
    (if e.comparator.Some? then [Comparator(e.comparator.value)] else [])
    + (if e.logNumber.Some? then [LogNumber(e.logNumber.value)] else [])
    + (if e.prevLogNumber.Some? then [PrevLogNumber(e.prevLogNumber.value)] else [])
    + (if e.nextFileNumber.Some? then [NextFileNumber(e.nextFileNumber.value)] else [])
    + (if e.lastSequence.Some? then [LastSequence(e.lastSequence.value)] else [])
  }

  ghost function PointerItems(pointers: seq<(nat, Bytes)>): seq<Item> {
    seq(|pointers|, x requires 0 <= x < |pointers| => CompactPointer(pointers[x].0, pointers[x].1))
  }

  ghost function DeletedItems(order: seq<(nat, nat)>): seq<Item> {
    seq(|order|, x requires 0 <= x < |order| => DeletedFile(order[x].0, order[x].1))
  }

  ghost function NewFileItems(files: seq<(nat, FileMeta)>): seq<Item> {
    seq(|files|, x requires 0 <= x < |files| => NewFile(files[x].0, files[x].1))
  }

  /** The deleted files in the order of their set. */
  ghost predicate InSetOrder(order: seq<(nat, nat)>, files: set<(nat, nat)>) {
    && (forall x, y :: 0 <= x < y < |order| ==> PairLess(order[x], order[y]))
    && (forall p :: p in order <==> p in files)
  }

  method EncodeFields(e: Edit) returns (dst: Bytes, ghost items: seq<Item>)
    requires EditFits(e)
    ensures items == FieldItems(e)
    ensures Encoded(dst, items, e.(compactPointers := [], deletedFiles := {}, newFiles := []))
  {
    hide Encoded;
    NothingEncoded();
    dst, items := [], [];
    ghost var so := Cleared([]);
    var comparator := if e.comparator.Some? then Some(Comparator(e.comparator.value)) else None;
    var logNumber := if e.logNumber.Some? then Some(LogNumber(e.logNumber.value)) else None;
    var prevLogNumber := if e.prevLogNumber.Some? then Some(PrevLogNumber(e.prevLogNumber.value)) else None;
    var nextFile := if e.nextFileNumber.Some? then Some(NextFileNumber(e.nextFileNumber.value)) else None;
    var lastSequence := if e.lastSequence.Some? then Some(LastSequence(e.lastSequence.value)) else None;
    FieldItemsAre(e, comparator, logNumber, prevLogNumber, nextFile, lastSequence);
    hide FieldItems, Listed;
    dst, items := PutOptional(dst, comparator, items, so);
    so := so.(comparator := e.comparator);
    dst, items := PutOptional(dst, logNumber, items, so);
    so := so.(logNumber := e.logNumber);
    dst, items := PutOptional(dst, prevLogNumber, items, so);
    so := so.(prevLogNumber := e.prevLogNumber);
    dst, items := PutOptional(dst, nextFile, items, so);
    so := so.(nextFileNumber := e.nextFileNumber);
    dst, items := PutOptional(dst, lastSequence, items, so);
  }

  ghost function Listed(i: Option<Item>): seq<Item> {
    if i.Some? then [i.value] else []
  }

  lemma FieldItemsAre(e: Edit, comparator: Option<Item>, logNumber: Option<Item>, prevLogNumber: Option<Item>, nextFile: Option<Item>, lastSequence: Option<Item>)
    requires comparator == if e.comparator.Some? then Some(Comparator(e.comparator.value)) else None
    requires logNumber == if e.logNumber.Some? then Some(LogNumber(e.logNumber.value)) else None
    requires prevLogNumber == if e.prevLogNumber.Some? then Some(PrevLogNumber(e.prevLogNumber.value)) else None
    requires nextFile == if e.nextFileNumber.Some? then Some(NextFileNumber(e.nextFileNumber.value)) else None
    requires lastSequence == if e.lastSequence.Some? then Some(LastSequence(e.lastSequence.value)) else None
    ensures [] + Listed(comparator) + Listed(logNumber) + Listed(prevLogNumber) + Listed(nextFile) + Listed(lastSequence) == FieldItems(e)
  {
    assert [] + Listed(comparator) == Listed(comparator);
  }

  predicate PairLess(a: (nat, nat), b: (nat, nat)) {
    a.0 < b.0 || (a.0 == b.0 && a.1 < b.1)
  }

  lemma {:induction false} LeastPair(s: set<(nat, nat)>) returns (p: (nat, nat))
    requires s != {}
    ensures p in s && forall q :: q in s ==> !PairLess(q, p)
    decreases |s|
  {
    var x :| x in s;
    var rest := s - {x};
    if rest == {} {
      p := x;
      assert s == {x};
    } else {
      var y := LeastPair(rest);
      p := if PairLess(x, y) then x else y;
      assert forall q :: q in s ==> q == x || q in rest;
    }
  }

  method EncodePointers(dst0: Bytes, e: Edit, ghost items0: seq<Item>) returns (dst: Bytes, ghost items: seq<Item>)
    requires EditFits(e) && Encoded(dst0, items0, e.(compactPointers := [], deletedFiles := {}, newFiles := []))
    ensures Encoded(dst, items, e.(deletedFiles := {}, newFiles := [])) && items == items0 + PointerItems(e.compactPointers)
  {
    hide Encoded;
    dst, items := dst0, items0;
    ghost var so := e.(compactPointers := [], deletedFiles := {}, newFiles := []);
    for x := 0 to |e.compactPointers|
      invariant so == e.(compactPointers := e.compactPointers[..x], deletedFiles := {}, newFiles := []) && Encoded(dst, items, so)
      invariant items == items0 + PointerItems(e.compactPointers[..x])
    {
      var i := CompactPointer(e.compactPointers[x].0, e.compactPointers[x].1);
      dst := PutItem(dst, i, items, so);
      items, so := items + [i], Apply(so, i);
    }
    assert e.compactPointers[..|e.compactPointers|] == e.compactPointers;
  }

  /** Deleted files go out in the order of their set. */
  method EncodeDeleted(dst0: Bytes, e: Edit, ghost items0: seq<Item>) returns (dst: Bytes, ghost items: seq<Item>, ghost order: seq<(nat, nat)>)
    requires EditFits(e) && Encoded(dst0, items0, e.(deletedFiles := {}, newFiles := []))
    ensures Encoded(dst, items, e.(newFiles := [])) && InSetOrder(order, e.deletedFiles) && items == items0 + DeletedItems(order)
  {
    hide Encoded, PairLess, EditFits, Apply, InSetOrder, DeletedItems;
    NoneDeleted(items0);
    dst, items, order := dst0, items0, [];
    ghost var so := e.(deletedFiles := {}, newFiles := []);
    var todo := e.deletedFiles;
    ghost var done: set<(nat, nat)> := {};
    while todo != {}
      invariant done + todo == e.deletedFiles && so == e.(deletedFiles := done, newFiles := []) && Encoded(dst, items, so)
      invariant InSetOrder(order, done) && items == items0 + DeletedItems(order)
      invariant forall p, q :: p in done && q in todo ==> PairLess(p, q)
      decreases |todo|
    {
      ghost var least := LeastPair(todo);
      var p :| p in todo && forall q :: q in todo ==> !PairLess(q, p);
      var i := DeletedFile(p.0, p.1);
      DeletionFits(e, so, p);
      dst := PutItem(dst, i, items, so);
      items, so := items + [i], Apply(so, i);
      NextDeleted(order, done, todo, p);
      Associates(items0, DeletedItems(order), i);
      todo, done, order := todo - {p}, done + {p}, order + [p];
    }
  }

  lemma NoneDeleted(items: seq<Item>)
    ensures InSetOrder([], {}) && items + DeletedItems([]) == items
  {
  }

  lemma Associates(a: seq<Item>, b: seq<Item>, i: Item)
    ensures a + b + [i] == a + (b + [i])
  {
  }

  lemma NextDeleted(order: seq<(nat, nat)>, done: set<(nat, nat)>, todo: set<(nat, nat)>, p: (nat, nat))
    requires InSetOrder(order, done) && p in todo && (forall q :: q in todo ==> !PairLess(q, p)) && forall x, q :: x in done && q in todo ==> PairLess(x, q)
    ensures InSetOrder(order + [p], done + {p}) && DeletedItems(order + [p]) == DeletedItems(order) + [DeletedFile(p.0, p.1)]
    ensures forall x, q :: x in done + {p} && q in todo - {p} ==> PairLess(x, q)
  {
    forall q | q in todo - {p} ensures PairLess(p, q) {
      assert p == (p.0, p.1) && q == (q.0, q.1);
    }
    forall x | 0 <= x < |order| ensures PairLess(order[x], p) {
      assert order[x] in done;
    }
  }

  lemma DeletionFits(e: Edit, so: Edit, p: (nat, nat))
    requires EditFits(e) && p in e.deletedFiles
    ensures DeletedFile(p.0, p.1).Fits()
    ensures Apply(so, DeletedFile(p.0, p.1)) == so.(deletedFiles := so.deletedFiles + {p})
  {
    assert p == (p.0, p.1);
  }

  method EncodeNewFiles(dst0: Bytes, e: Edit, ghost items0: seq<Item>) returns (dst: Bytes, ghost items: seq<Item>)
    requires EditFits(e) && Encoded(dst0, items0, e.(newFiles := []))
    ensures Encoded(dst, items, e) && items == items0 + NewFileItems(e.newFiles)
  {
    hide Encoded;
    dst, items := dst0, items0;
    ghost var so := e.(newFiles := []);
    for x := 0 to |e.newFiles|
      invariant so == e.(newFiles := e.newFiles[..x]) && Encoded(dst, items, so)
      invariant items == items0 + NewFileItems(e.newFiles[..x])
    {
      var i := NewFile(e.newFiles[x].0, e.newFiles[x].1);
      dst := PutItem(dst, i, items, so);
      items, so := items + [i], Apply(so, i);
    }
    assert e.newFiles[..|e.newFiles|] == e.newFiles;
  }

  /** Reading the bytes gives the edit. */
  ghost predicate IsEncoding(dst: Bytes, e: Edit) {
    exists items :: Encoded(dst, items, e)
  }

  /** The whole edit. */
  method EncodeTo(e: Edit) returns (dst: Bytes, ghost items: seq<Item>)
    requires EditFits(e)
    ensures IsEncoding(dst, e) && Encoded(dst, items, e) && InFixedOrder(e, items)
  {
    hide Encoded, EditFits, FieldItems, PointerItems, DeletedItems, NewFileItems, InSetOrder;
    dst, items := EncodeFields(e);
    dst, items := EncodePointers(dst, e, items);
    ghost var order;
    dst, items, order := EncodeDeleted(dst, e, items);
    dst, items := EncodeNewFiles(dst, e, items);
    assert InSetOrder(order, e.deletedFiles);
  }

  /** The single-valued fields, the pointers, the deleted files by level and number, the new files. */
  ghost predicate InFixedOrder(e: Edit, items: seq<Item>) {
    exists order :: InSetOrder(order, e.deletedFiles)
      && items == FieldItems(e) + PointerItems(e.compactPointers) + DeletedItems(order) + NewFileItems(e.newFiles)
  }

  // -------------------------------------------------------------------------------- decoding

  method GetPrefixed(input: Bytes, ghost b: Bytes, ghost rest: Bytes) returns (ok: bool, data: Bytes, left: Bytes)
    ensures ok ==> |left| < |input| && |data| < TWO_32
    ensures |b| < TWO_32 && input == Prefixed(b) + rest ==> ok && data == b && left == rest
  {
    hide Varint;
    assert input == Prefixed(b) + rest ==> input == Varint(|b|) + (b + rest);
    var sized, n, after := GetVarint32(input, |b|, b + rest);
    if !sized || |after| < n {
      return false, [], input;
    }
    return true, after[..n], after[n..];
  }

  method GetLevel(input: Bytes, ghost level: nat, ghost rest: Bytes) returns (ok: bool, r: nat, left: Bytes)
    ensures ok ==> r < LEVELS && |left| < |input|
    ensures level < LEVELS && input == Varint(level) + rest ==> ok && r == level && left == rest
  {
    hide Varint;
    ok, r, left := GetVarint32(input, level, rest);
    ok := ok && r < LEVELS;
  }

  ghost function LevelOf(i: Item): nat {
    if i.CompactPointer? || i.DeletedFile? || i.NewFile? then i.level else 0
  }

  ghost function NumberOf(i: Item): nat {
    match i
    case LogNumber(n) => n
    case NextFileNumber(n) => n
    case LastSequence(n) => n
    case PrevLogNumber(n) => n
    case DeletedFile(_, n) => n
    case _ => 0
  }

  /** Read the body of an item by its tag. */
  method GetBody(tag: nat, input: Bytes, ghost i: Item, ghost rest: Bytes) returns (r: Option<Item>, left: Bytes)
    ensures r.Some? ==> |left| < |input| && r.value.Fits() && r.value.Tag() == tag
    ensures r.Some? ==> tag in {1, 2, 3, 4, 5, 6, 7, 9}
    ensures i.Fits() && tag == i.Tag() && input == i.Body() + rest ==> r == Some(i) && left == rest
  {
    hide Varint, Prefixed;
    r, left := None, input;
    if tag == 1 {
      var ok, name, after := GetPrefixed(input, if i.Comparator? then i.name else [], rest);
      return if ok then Some(Comparator(name)) else None, after;
    } else if tag == 5 {
      r, left := GetPointer(input, i, rest);
    } else if tag == 6 {
      r, left := GetDeleted(input, i, rest);
    } else if tag == 7 {
      r, left := GetNewFile(input, i, rest);
    } else if tag == 2 || tag == 3 || tag == 4 || tag == 9 {
      var ok, n, after := DecodeVarint(input, NumberOf(i), rest);
      if ok {
        r := Some(if tag == 2 then LogNumber(n) else if tag == 3 then NextFileNumber(n) else if tag == 4 then LastSequence(n) else PrevLogNumber(n));
      }
      left := after;
    }
  }

  method GetPointer(input: Bytes, ghost i: Item, ghost rest: Bytes) returns (r: Option<Item>, left: Bytes)
    ensures r.Some? ==> |left| < |input| && r.value.CompactPointer? && r.value.Fits()
    ensures i.CompactPointer? && i.Fits() && input == i.Body() + rest ==> r == Some(i) && left == rest
  {
    hide Varint, Prefixed;
    ghost var key := if i.CompactPointer? then i.key else [];
    assert i.CompactPointer? && input == i.Body() + rest ==> input == Varint(LevelOf(i)) + (Prefixed(key) + rest);
    var ok, level, after := GetLevel(input, LevelOf(i), Prefixed(key) + rest);
    if !ok {
      return None, input;
    }
    var ok', key', after' := GetPrefixed(after, key, rest);
    return if ok' then Some(CompactPointer(level, key')) else None, after';
  }

  method GetDeleted(input: Bytes, ghost i: Item, ghost rest: Bytes) returns (r: Option<Item>, left: Bytes)
    ensures r.Some? ==> |left| < |input| && r.value.DeletedFile? && r.value.Fits()
    ensures i.DeletedFile? && i.Fits() && input == i.Body() + rest ==> r == Some(i) && left == rest
  {
    hide Varint;
    ghost var n := NumberOf(i);
    assert i.DeletedFile? && input == i.Body() + rest ==> input == Varint(LevelOf(i)) + (Varint(n) + rest);
    var ok, level, after := GetLevel(input, LevelOf(i), Varint(n) + rest);
    if !ok {
      return None, input;
    }
    var ok', number, after' := DecodeVarint(after, n, rest);
    return if ok' then Some(DeletedFile(level, number)) else None, after';
  }

  method GetNewFile(input: Bytes, ghost i: Item, ghost rest: Bytes) returns (r: Option<Item>, left: Bytes)
    ensures r.Some? ==> |left| < |input| && r.value.NewFile? && r.value.Fits()
    ensures i.NewFile? && i.Fits() && input == i.Body() + rest ==> r == Some(i) && left == rest
  {
    hide Varint, Prefixed;
    ghost var f := if i.NewFile? then i.f else FileMeta(0, 0, [], []);
    ghost var r4 := Prefixed(f.largest) + rest;
    ghost var r3 := Prefixed(f.smallest) + r4;
    ghost var r2 := Varint(f.size) + r3;
    ghost var r1 := Varint(f.number) + r2;
    if i.NewFile? && input == i.Body() + rest {
      NewFileSplits(i, rest);
    }
    var ok, level, after := GetLevel(input, LevelOf(i), r1);
    if !ok {
      return None, input;
    }
    var number, size, smallest, largest;
    ok, number, after := DecodeVarint(after, f.number, r2);
    if !ok {
      return None, after;
    }
    ok, size, after := DecodeVarint(after, f.size, r3);
    if !ok {
      return None, after;
    }
    ok, smallest, after := GetPrefixed(after, f.smallest, r4);
    if !ok {
      return None, after;
    }
    ok, largest, after := GetPrefixed(after, f.largest, rest);
    return if ok then Some(NewFile(level, FileMeta(number, size, smallest, largest))) else None, after;
  }

  lemma NewFileSplits(i: Item, rest: Bytes)
    requires i.NewFile?
    ensures i.Body() + rest
         == Varint(i.level) + (Varint(i.f.number) + (Varint(i.f.size) + (Prefixed(i.f.smallest) + (Prefixed(i.f.largest) + rest))))
  {
    hide Varint, Prefixed;
    var a, b, c, d, e := Varint(i.level), Varint(i.f.number), Varint(i.f.size), Prefixed(i.f.smallest), Prefixed(i.f.largest);
    assert a + (b + (c + (d + e))) + rest == a + (b + (c + (d + (e + rest))));
  }

  lemma NextItem(items: seq<Item>, x: nat)
    requires AllFit(items) && x < |items|
    ensures items[x].Fits() && items[x].Tag() < TWO_32
    ensures ItemsBytes(items[x..]) == Varint(items[x].Tag()) + (items[x].Body() + ItemsBytes(items[x + 1..]))
  {
    assert items[x..][0] == items[x] && items[x..][1..] == items[x + 1..];
    hide Varint, Item.Body;
  }

  /** Read items until the input ends; anything else is an error.  The pointers that the edit held before
      are kept. */
  method DecodeFrom(src: Bytes, pointers: seq<(nat, Bytes)>, ghost items: seq<Item>) returns (ok: bool, e: Edit)
    ensures AllFit(items) && src == ItemsBytes(items) ==> ok && e == ApplyAll(Cleared(pointers), items)
    ensures ok && Pointers(pointers) ==> EditFits(e)
  {
    hide Varint, Item.Body, ItemsBytes, ApplyAll, Apply, AllFit, EditFits, Item.Fits, Item.Tag;
    e := Cleared(pointers);
    var input := src;
    ghost var good, x: nat := AllFit(items) && src == ItemsBytes(items), 0;
    assert items[0..] == items && items[..0] == [];
    NoItems(e);
    ClearedFits(pointers);
    while input != []
      invariant Pointers(pointers) ==> EditFits(e)
      invariant good ==> x <= |items| && AllFit(items) && input == ItemsBytes(items[x..]) && e == ApplyAll(Cleared(pointers), items[..x])
      decreases |input|
    {
      ghost var i, rest: Bytes := LogNumber(0), [];
      if good {
        MoreItems(items, x);
        NextItem(items, x);
        i, rest := items[x], ItemsBytes(items[x + 1..]);
        ApplySnoc(Cleared(pointers), items[..x], i);
        assert items[..x + 1] == items[..x] + [i];
      }
      var tagged, tag, body := GetVarint32(input, i.Tag(), i.Body() + rest);
      if !tagged {
        return false, e;
      }
      var r, left := GetBody(tag, body, i, rest);
      if r.None? {
        return false, e;
      }
      ApplyFits(e, r.value);
      e := Apply(e, r.value);
      input := left;
      x := x + 1;
    }
    if good {
      NoMoreItems(items, x);
    }
    ok := true;
  }

  ghost predicate Pointers(pointers: seq<(nat, Bytes)>) {
    forall x :: 0 <= x < |pointers| ==> CompactPointer(pointers[x].0, pointers[x].1).Fits()
  }

  lemma ClearedFits(pointers: seq<(nat, Bytes)>)
    ensures Pointers(pointers) ==> EditFits(Cleared(pointers))
  {
  }

  /** Whatever is read keeps an edit within its widths and levels. */
  lemma ApplyFits(e: Edit, i: Item)
    requires i.Fits()
    ensures EditFits(e) ==> EditFits(Apply(e, i))
  {
  }

  lemma NoItems(e: Edit)
    ensures ApplyAll(e, []) == e
  {
  }

  lemma MoreItems(items: seq<Item>, x: nat)
    requires x <= |items| && ItemsBytes(items[x..]) != []
    ensures x < |items|
  {
    assert items[|items|..] == [];
  }

  lemma NoMoreItems(items: seq<Item>, x: nat)
    requires x <= |items| && ItemsBytes(items[x..]) == []
    ensures x == |items| && items[..x] == items
  {
  }

  /** Decoding what was encoded gives the edit back, behind whatever pointers were there before: the same edit
      exactly when there were none. */
  method RoundTrip(e: Edit, pointers: seq<(nat, Bytes)>) returns (dst: Bytes, ok: bool, e': Edit, ghost items: seq<Item>)
    requires EditFits(e)
    ensures Encoded(dst, items, e) && ok && e' == e.(compactPointers := pointers + e.compactPointers)
    ensures e' == e <==> pointers == []
  {
    hide ItemsBytes, ApplyAll, AllFit, EditFits;
    dst, items := EncodeTo(e);
    ok, e' := DecodeFrom(dst, pointers, items);
    assert pointers == [] ==> pointers + e.compactPointers == e.compactPointers;
    assert |pointers + e.compactPointers| == |pointers| + |e.compactPointers|;
  }
}
