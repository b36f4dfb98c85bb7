/** The memtable's skip list, one link store at a time.

    Nodes live in an arena and are never freed, so a node is its index; node 0 is the head and -1 the null
    pointer.  `lists[i]` is the chain of nodes linked at level `i`, in order.  A reader takes no lock: each
    of its loads may fall between any two stores of the writer. */
module SkipList {
  import opened DbFormat

  const MAX_HEIGHT: nat := 12
  const NULL: int := -1

  datatype Node = Node(key: UserKey, next: seq<int>)

  // ------------------------------------------------------------------------------- one level

  function At(ids: seq<nat>, j: nat): int {
    if j < |ids| then ids[j] else NULL
  }

  ghost predicate Linked(nodes: seq<Node>, n: nat, i: nat) {
    n < |nodes| && i < |nodes[n].next|
  }

  ghost predicate LinkOk(nodes: seq<Node>, i: nat, ids: seq<nat>, j: nat)
    requires j < |ids|
  {
    0 < ids[j] && Linked(nodes, ids[j], i) && nodes[ids[j]].next[i] == At(ids, j + 1)
  }

  ghost predicate Increasing(nodes: seq<Node>, ids: seq<nat>) {
    && (forall j :: 0 <= j < |ids| ==> ids[j] < |nodes|)
    && (forall j, k :: 0 <= j < k < |ids| ==> nodes[ids[j]].key < nodes[ids[k]].key)
  }

  /** The level's chain starts at the head, visits exactly `ids`, and has strictly increasing keys. */
  ghost predicate LevelOk(nodes: seq<Node>, i: nat, ids: seq<nat>) {
    && Linked(nodes, 0, i) && nodes[0].next[i] == At(ids, 0)
    && (forall j :: 0 <= j < |ids| ==> LinkOk(nodes, i, ids, j))
    && Increasing(nodes, ids)
  }

  /** `q` nodes of the chain come before `key`, the others at or after it. */
  ghost predicate Splits(nodes: seq<Node>, ids: seq<nat>, key: UserKey, q: nat) {
    && q <= |ids|
    && (forall j :: 0 <= j < q ==> ids[j] < |nodes| && nodes[ids[j]].key < key)
    && (forall j :: q <= j < |ids| ==> ids[j] < |nodes| && nodes[ids[j]].key >= key)
  }

  function Before(ids: seq<nat>, q: nat): nat
    requires q <= |ids|
  {
    if q == 0 then 0 else ids[q - 1]
  }

  /** `p` is the last node of the chain before `key`, or the head. */
  ghost predicate IsPrev(nodes: seq<Node>, ids: seq<nat>, key: UserKey, p: nat) {
    exists q :: Splits(nodes, ids, key, q) && p == Before(ids, q)
  }

  /** `n` is the first node of the chain at or after `key`, or null. */
  ghost predicate IsFirstFrom(nodes: seq<Node>, ids: seq<nat>, key: UserKey, n: int) {
    exists q :: Splits(nodes, ids, key, q) && n == At(ids, q)
  }

  /** Storing one link of one node. */
  function SetNext(nodes: seq<Node>, n: nat, i: nat, x: int): (r: seq<Node>)
    requires n < |nodes| && i < |nodes[n].next|
    ensures |r| == |nodes|
  {
    nodes[n := nodes[n].(next := nodes[n].next[i := x])]
  }

  lemma SetNextKeys(nodes: seq<Node>, n: nat, i: nat, x: int)
    requires n < |nodes| && i < |nodes[n].next|
    ensures forall m :: 0 <= m < |nodes| ==> SetNext(nodes, n, i, x)[m].key == nodes[m].key
    ensures forall m :: 0 <= m < |nodes| ==> |SetNext(nodes, n, i, x)[m].next| == |nodes[m].next|
    ensures SetNext(nodes, n, i, x)[n].next[i] == x
    ensures forall m, l :: 0 <= m < |nodes| && 0 <= l < |nodes[m].next| && (m != n || l != i) ==>
              SetNext(nodes, n, i, x)[m].next[l] == nodes[m].next[l]
  {
  }

  lemma SetNextOtherLevel(nodes: seq<Node>, n: nat, i: nat, x: int, l: nat, ids: seq<nat>)
    requires n < |nodes| && i < |nodes[n].next| && LevelOk(nodes, l, ids) && (l != i || (n != 0 && n !in ids))
    ensures LevelOk(SetNext(nodes, n, i, x), l, ids)
  {
    SetNextKeys(nodes, n, i, x);
    hide SetNext;
    forall j | 0 <= j < |ids| ensures LinkOk(SetNext(nodes, n, i, x), l, ids, j) {
      assert LinkOk(nodes, l, ids, j);
    }
  }

  /** The new node between its neighbours. */
  function Inserted(ids: seq<nat>, q: nat, x: nat): (r: seq<nat>)
    requires q <= |ids|
    ensures |r| == |ids| + 1
    ensures forall j :: 0 <= j < |r| ==> r[j] == if j < q then ids[j] else if j == q then x else ids[j - 1]
  {
    ids[..q] + [x] + ids[q..]
  }

  lemma InsertedIncreasing(nodes: seq<Node>, ids: seq<nat>, x: nat, q: nat)
    requires Increasing(nodes, ids) && x < |nodes| && Splits(nodes, ids, nodes[x].key, q)
    requires forall j :: q <= j < |ids| ==> nodes[ids[j]].key != nodes[x].key
    ensures Increasing(nodes, Inserted(ids, q, x))
  {
    var ids' := Inserted(ids, q, x);
    hide Inserted;
    forall j, k | 0 <= j < k < |ids'| ensures nodes[ids'[j]].key < nodes[ids'[k]].key {
    }
  }

  lemma LinkAt(nodes: seq<Node>, nodes': seq<Node>, i: nat, ids: seq<nat>, x: nat, q: nat, j: nat)
    requires LevelOk(nodes, i, ids) && 0 < x && Linked(nodes, x, i) && x !in ids && q <= |ids| && nodes[x].next[i] == At(ids, q)
    requires Before(ids, q) < |nodes| && i < |nodes[Before(ids, q)].next| && nodes' == SetNext(nodes, Before(ids, q), i, x)
    requires j <= |ids|
    ensures LinkOk(nodes', i, Inserted(ids, q, x), j)
  {
    SetNextKeys(nodes, Before(ids, q), i, x);
    var ids' := Inserted(ids, q, x);
    hide SetNext, Inserted;
    if j < q {
      assert LinkOk(nodes, i, ids, j);
      assert j + 1 < q ==> nodes[ids[j]].key < nodes[ids[q - 1]].key;
    } else if j > q {
      assert LinkOk(nodes, i, ids, j - 1);
      assert q > 0 ==> nodes[ids[q - 1]].key < nodes[ids[j - 1]].key;
    } else {
      assert ids'[j] == x;
      assert q > 0 ==> ids[q - 1] in ids;
    }
  }

  /** The new node points at its successor and its predecessor now points at it: one level is linked. */
  lemma LinkLevel(nodes: seq<Node>, i: nat, ids: seq<nat>, x: nat, q: nat)
    requires LevelOk(nodes, i, ids) && 0 < x && Linked(nodes, x, i) && x !in ids
    requires Splits(nodes, ids, nodes[x].key, q) && (forall j :: q <= j < |ids| ==> nodes[ids[j]].key != nodes[x].key)
    requires nodes[x].next[i] == At(ids, q)
    ensures Before(ids, q) < |nodes| && i < |nodes[Before(ids, q)].next|
    ensures LevelOk(SetNext(nodes, Before(ids, q), i, x), i, Inserted(ids, q, x))
  {
    assert q > 0 ==> LinkOk(nodes, i, ids, q - 1);
    var nodes', ids' := SetNext(nodes, Before(ids, q), i, x), Inserted(ids, q, x);
    forall j | 0 <= j < |ids'| ensures LinkOk(nodes', i, ids', j) {
      LinkAt(nodes, nodes', i, ids, x, q, j);
    }
    InsertedIncreasing(nodes, ids, x, q);
    SetNextKeys(nodes, Before(ids, q), i, x);
    hide SetNext, Inserted, LinkOk, Splits;
    assert nodes'[0].next[i] == At(ids', 0);
  }

  // ------------------------------------------------------------------------------ all levels

  ghost predicate ListOk(nodes: seq<Node>, lists: seq<seq<nat>>) {
    && |lists| == MAX_HEIGHT
    && (forall i :: 0 <= i < MAX_HEIGHT ==> LevelOk(nodes, i, lists[i]))
    && Nested(lists)
  }

  ghost predicate Within(a: seq<nat>, b: seq<nat>) {
    forall n :: n in a ==> n in b
  }

  /** A node linked at one level is linked at every level below. */
  ghost predicate Nested(lists: seq<seq<nat>>) {
    forall i, j :: 0 <= i < j < |lists| ==> Within(lists[j], lists[i])
  }

  /** A search in progress: it stands on the head or on a node of its level that is before the target. */
  datatype Reader = Reader(target: UserKey, x: nat, level: nat)

  ghost predicate ReaderAt(nodes: seq<Node>, ids: seq<nat>, target: UserKey, x: nat, q: nat) {
    q <= |ids| && x == Before(ids, q) && (q > 0 ==> x < |nodes| && nodes[x].key < target)
  }

  ghost predicate ReaderOk(nodes: seq<Node>, lists: seq<seq<nat>>, r: Reader) {
    && r.level < |lists|
    && exists q :: ReaderAt(nodes, lists[r.level], r.target, r.x, q)
  }

  /** What one load of a reader finds: the next node of its chain. */
  lemma LoadNext(nodes: seq<Node>, i: nat, ids: seq<nat>, target: UserKey, x: nat, q: nat)
    requires LevelOk(nodes, i, ids) && ReaderAt(nodes, ids, target, x, q)
    ensures x < |nodes| && i < |nodes[x].next| && nodes[x].next[i] == At(ids, q)
    ensures q < |ids| ==> ids[q] < |nodes| && nodes[x].next[i] == ids[q]
    ensures q < |ids| && nodes[ids[q]].key < target ==> ReaderAt(nodes, ids, target, ids[q], q + 1)
    ensures q == |ids| || nodes[ids[q]].key >= target ==> Splits(nodes, ids, target, q)
  {
    assert q > 0 ==> LinkOk(nodes, i, ids, q - 1);
    hide LinkOk;
  }

  lemma DropLevel(nodes: seq<Node>, lists: seq<seq<nat>>, level: nat, target: UserKey, x: nat, q: nat)
    requires 0 < level < |lists| && Nested(lists)
    requires ReaderAt(nodes, lists[level], target, x, q)
    ensures ReaderOk(nodes, lists, Reader(target, x, level - 1))
  {
    if q == 0 {
      assert ReaderAt(nodes, lists[level - 1], target, x, 0);
    } else {
      var below := lists[level - 1];
      assert Within(lists[level], below) && x in lists[level];
      var j :| 0 <= j < |below| && below[j] == x;
      assert ReaderAt(nodes, below, target, x, j + 1);
    }
  }

  /** Every level only gains nodes, and no key changes. */
  ghost predicate Grows(nodes: seq<Node>, lists: seq<seq<nat>>, nodes': seq<Node>, lists': seq<seq<nat>>) {
    && |lists| == |lists'| && |nodes| <= |nodes'|
    && (forall n :: 0 <= n < |nodes| ==> nodes[n].key == nodes'[n].key)
    && (forall i, n :: 0 <= i < |lists| && n in lists[i] ==> n in lists'[i])
  }

  /** A store of the writer does not disturb a search in progress. */
  lemma ReaderUndisturbed(nodes: seq<Node>, lists: seq<seq<nat>>, nodes': seq<Node>, lists': seq<seq<nat>>, r: Reader)
    requires Grows(nodes, lists, nodes', lists') && ReaderOk(nodes, lists, r)
    ensures ReaderOk(nodes', lists', r)
  {
    var q :| ReaderAt(nodes, lists[r.level], r.target, r.x, q);
    if q == 0 {
      assert ReaderAt(nodes', lists'[r.level], r.target, r.x, 0);
    } else {
      assert r.x in lists[r.level];
      var j :| 0 <= j < |lists'[r.level]| && lists'[r.level][j] == r.x;
      assert ReaderAt(nodes', lists'[r.level], r.target, r.x, j + 1);
    }
  }

  // --------------------------------------------------------------------------- the insertion

  /** An insertion between two of its stores: levels below `level` are linked; `pointed` once the new
      node's own link at `level` is set. */
  datatype Insertion = Idle | Inserting(x: nat, height: nat, level: nat, pointed: bool, prev: seq<nat>)

  ghost predicate PrevOk(nodes: seq<Node>, ids: seq<nat>, x: nat, p: nat) {
    x < |nodes| && x !in ids && IsPrev(nodes, ids, nodes[x].key, p)
    && forall j :: 0 <= j < |ids| ==> ids[j] < |nodes| && nodes[ids[j]].key != nodes[x].key
  }

  ghost predicate InsertionOk(nodes: seq<Node>, lists: seq<seq<nat>>, ins: Insertion) {
    ins.Inserting? ==>
      && |lists| == MAX_HEIGHT && ins.level < ins.height <= MAX_HEIGHT && |ins.prev| == ins.height
      && 0 < ins.x < |nodes| && |nodes[ins.x].next| == ins.height
      && (forall i :: 0 <= i < ins.level ==> ins.x in lists[i])
      && (forall i :: ins.level <= i < ins.height ==> PrevOk(nodes, lists[i], ins.x, ins.prev[i]))
      && (forall i :: ins.height <= i < MAX_HEIGHT ==> ins.x !in lists[i])
      && (ins.pointed ==> exists q :: Splits(nodes, lists[ins.level], nodes[ins.x].key, q) && nodes[ins.x].next[ins.level] == At(lists[ins.level], q))
  }

  /** Neither the new node's own links nor the keys matter to anyone before the node is linked. */
  lemma OwnLinkStored(nodes: seq<Node>, lists: seq<seq<nat>>, x: nat, i: nat, next: int, l: nat)
    requires ListOk(nodes, lists) && 0 < x < |nodes| && i < |nodes[x].next| && i < MAX_HEIGHT && x !in lists[i] && l < MAX_HEIGHT
    ensures LevelOk(SetNext(nodes, x, i, next), l, lists[l])
  {
    hide LevelOk, SetNext, Nested;
    SetNextOtherLevel(nodes, x, i, next, l, lists[l]);
  }

  ghost predicate SameKeys(nodes: seq<Node>, nodes': seq<Node>) {
    |nodes| == |nodes'| && forall n :: 0 <= n < |nodes| ==> nodes[n].key == nodes'[n].key
  }

  lemma SplitsKept(nodes: seq<Node>, nodes': seq<Node>, ids: seq<nat>, key: UserKey, q: nat)
    requires SameKeys(nodes, nodes') && Splits(nodes, ids, key, q)
    ensures Splits(nodes', ids, key, q)
  {
  }

  lemma PrevOkKept(nodes: seq<Node>, nodes': seq<Node>, ids: seq<nat>, x: nat, p: nat)
    requires SameKeys(nodes, nodes') && PrevOk(nodes, ids, x, p)
    ensures PrevOk(nodes', ids, x, p)
  {
    var q :| Splits(nodes, ids, nodes[x].key, q) && p == Before(ids, q);
    SplitsKept(nodes, nodes', ids, nodes[x].key, q);
  }

  lemma SetNextSameKeys(nodes: seq<Node>, n: nat, i: nat, x: int)
    requires n < |nodes| && i < |nodes[n].next|
    ensures SameKeys(nodes, SetNext(nodes, n, i, x))
    ensures forall m :: 0 <= m < |nodes| ==> |SetNext(nodes, n, i, x)[m].next| == |nodes[m].next|
    ensures SetNext(nodes, n, i, x)[n].next[i] == x
  {
  }

  /** What the predecessor's link holds before the new node is published. */
  lemma PrevLink(nodes: seq<Node>, i: nat, ids: seq<nat>, x: nat, p: nat) returns (q: nat)
    requires LevelOk(nodes, i, ids) && PrevOk(nodes, ids, x, p)
    ensures Splits(nodes, ids, nodes[x].key, q) && p == Before(ids, q)
    ensures p < |nodes| && i < |nodes[p].next| && nodes[p].next[i] == At(ids, q)
  {
    q :| Splits(nodes, ids, nodes[x].key, q) && p == Before(ids, q);
    assert q > 0 ==> LinkOk(nodes, i, ids, q - 1);
  }

  lemma PointedStep(nodes: seq<Node>, lists: seq<seq<nat>>, ins: Insertion, nodes': seq<Node>)
    requires ListOk(nodes, lists) && ins.Inserting? && InsertionOk(nodes, lists, ins) && 0 < ins.x
    requires ins.prev[ins.level] < |nodes| && ins.level < |nodes[ins.prev[ins.level]].next|
    requires nodes' == SetNext(nodes, ins.x, ins.level, nodes[ins.prev[ins.level]].next[ins.level])
    ensures ListOk(nodes', lists) && InsertionOk(nodes', lists, ins.(pointed := true))
  {
    var x, i := ins.x, ins.level;
    var q := PrevLink(nodes, i, lists[i], x, ins.prev[i]);
    SetNextSameKeys(nodes, x, i, At(lists[i], q));
    forall l | 0 <= l < MAX_HEIGHT ensures LevelOk(nodes', l, lists[l]) {
      OwnLinkStored(nodes, lists, x, i, At(lists[i], q), l);
    }
    forall l | i <= l < ins.height ensures PrevOk(nodes', lists[l], x, ins.prev[l]) {
      PrevOkKept(nodes, nodes', lists[l], x, ins.prev[l]);
    }
    SplitsKept(nodes, nodes', lists[i], nodes[x].key, q);
    hide LevelOk, PrevOk, SetNext, Nested, Splits;
  }

  lemma InsertedHas(ids: seq<nat>, q: nat, x: nat, n: nat)
    requires q <= |ids|
    ensures n in Inserted(ids, q, x) <==> n == x || n in ids
  {
    var r := Inserted(ids, q, x);
    if n in ids {
      var j :| 0 <= j < |ids| && ids[j] == n;
      assert r[if j < q then j else j + 1] == n;
    }
    assert r[q] == x;
  }

  lemma NestedAfter(lists: seq<seq<nat>>, level: nat, q: nat, x: nat, lists': seq<seq<nat>>)
    requires Nested(lists) && level < |lists| && q <= |lists[level]| && lists' == lists[level := Inserted(lists[level], q, x)]
    requires forall i :: 0 <= i < level ==> x in lists[i]
    requires forall i :: level < i < |lists| ==> x !in lists[i]
    ensures Nested(lists')
    ensures forall i, n :: 0 <= i < |lists| && n in lists[i] ==> n in lists'[i]
    ensures x in lists'[level]
  {
    hide Inserted;
    forall n ensures n in lists'[level] <==> n == x || n in lists[level] {
      InsertedHas(lists[level], q, x, n);
    }
    forall i, j | 0 <= i < j < |lists'| ensures Within(lists'[j], lists'[i]) {
      assert Within(lists[j], lists[i]);
    }
  }

  /** After the link is published: the level contains the new node, every other level is as before. */
  lemma PublishedStep(nodes: seq<Node>, lists: seq<seq<nat>>, ins: Insertion, q: nat, nodes': seq<Node>, lists': seq<seq<nat>>)
    requires ListOk(nodes, lists) && ins.Inserting? && ins.pointed && InsertionOk(nodes, lists, ins)
    requires Splits(nodes, lists[ins.level], nodes[ins.x].key, q) && ins.prev[ins.level] == Before(lists[ins.level], q)
    requires nodes[ins.x].next[ins.level] == At(lists[ins.level], q)
    requires ins.prev[ins.level] < |nodes| && ins.level < |nodes[ins.prev[ins.level]].next|
    requires nodes' == SetNext(nodes, ins.prev[ins.level], ins.level, ins.x)
    requires lists' == lists[ins.level := Inserted(lists[ins.level], q, ins.x)]
    ensures ListOk(nodes', lists') && Grows(nodes, lists, nodes', lists')
    ensures ins.level + 1 < ins.height ==> InsertionOk(nodes', lists', ins.(level := ins.level + 1, pointed := false))
  {
    var x, i, p := ins.x, ins.level, ins.prev[ins.level];
    assert PrevOk(nodes, lists[i], x, p) && LevelOk(nodes, i, lists[i]);
    forall l | i < l < MAX_HEIGHT ensures x !in lists[l] {
      assert l < ins.height ==> PrevOk(nodes, lists[l], x, ins.prev[l]);
    }
    SetNextSameKeys(nodes, p, i, x);
    LinkLevel(nodes, i, lists[i], x, q);
    NestedAfter(lists, i, q, x, lists');
    forall l | 0 <= l < MAX_HEIGHT ensures LevelOk(nodes', l, lists'[l]) {
      if l != i {
        SetNextOtherLevel(nodes, p, i, x, l, lists[l]);
      }
    }
    forall l | i < l < ins.height ensures PrevOk(nodes', lists'[l], x, ins.prev[l]) {
      PrevOkKept(nodes, nodes', lists[l], x, ins.prev[l]);
    }
    hide LevelOk, PrevOk, SetNext, Nested, Splits, Inserted;
  }

  // --------------------------------------------------------------------------------- searches

  /** What one load does, as the code says it: the link read decides between moving right, moving down and
      finishing. */
  ghost predicate Loads(nodes: seq<Node>, r: Reader, found: Option<int>, r': Reader) {
    && Linked(nodes, r.x, r.level)
    && var next := nodes[r.x].next[r.level];
       if 0 <= next < |nodes| && nodes[next].key < r.target then found == None && r' == r.(x := next)
       else if r.level == 0 then found == Some(next) && r' == r
       else found == None && r' == r.(level := r.level - 1)
  }

  /** One load of a search: move right, move down, or finish. */
  method Load(nodes: seq<Node>, r: Reader, ghost lists: seq<seq<nat>>, ghost q: nat)
    returns (done: bool, result: int, r': Reader, ghost q': nat)
    requires ListOk(nodes, lists) && r.level < MAX_HEIGHT && ReaderAt(nodes, lists[r.level], r.target, r.x, q)
    ensures (r'.level == r.level || r'.level + 1 == r.level) && r'.target == r.target && ReaderAt(nodes, lists[r'.level], r.target, r'.x, q')
    ensures done ==> r' == r && r.level == 0 && IsFirstFrom(nodes, lists[0], r.target, result)
    ensures !done && r'.level == r.level ==> q < q'
    ensures done || r'.level < r.level ==> IsPrev(nodes, lists[r.level], r.target, r.x) && r'.x == r.x
    ensures Loads(nodes, r, if done then Some(result) else None, r')
  {
    ghost var ids := lists[r.level];
    assert LevelOk(nodes, r.level, ids);
    LoadNext(nodes, r.level, ids, r.target, r.x, q);
    hide LevelOk, Nested, Splits;
    var next := nodes[r.x].next[r.level];
    if next != NULL && nodes[next].key < r.target {
      return false, NULL, r.(x := next), q + 1;
    }
    assert Splits(nodes, ids, r.target, q);
    if r.level == 0 {
      return true, next, r, q;
    }
    DropLevel(nodes, lists, r.level, r.target, r.x, q);
    r' := r.(level := r.level - 1);
    q' :| ReaderAt(nodes, lists[r'.level], r.target, r'.x, q');
    return false, NULL, r', q';
  }

  function Max(a: nat, b: nat): nat {
    if a < b then b else a
  }

  /** Everything a list consists of at one moment. */
  datatype ListState = ListState(nodes: seq<Node>, maxHeight: nat, insertion: Insertion, lists: seq<seq<nat>>)

  /** The one link that is stored first. */
  ghost predicate OwnLinkRel(nodes: seq<Node>, ins: Insertion, nodes': seq<Node>) {
    && ins.Inserting? && ins.level < |ins.prev| && Linked(nodes, ins.x, ins.level) && Linked(nodes, ins.prev[ins.level], ins.level)
    && nodes' == SetNext(nodes, ins.x, ins.level, nodes[ins.prev[ins.level]].next[ins.level])
  }

  /** The one link that is stored second. */
  ghost predicate PublishRel(nodes: seq<Node>, ins: Insertion, nodes': seq<Node>) {
    && ins.Inserting? && ins.level < |ins.prev| && Linked(nodes, ins.prev[ins.level], ins.level)
    && nodes' == SetNext(nodes, ins.prev[ins.level], ins.level, ins.x)
  }

  class List {
    var nodes: seq<Node>
    var maxHeight: nat
    var insertion: Insertion
    ghost var lists: seq<seq<nat>>

    ghost predicate Valid()
      reads this
    {
      && ListOk(nodes, lists) && InsertionOk(nodes, lists, insertion)
      && 1 <= maxHeight <= MAX_HEIGHT && (forall i :: maxHeight <= i < MAX_HEIGHT ==> lists[i] == [])
      && (insertion.Inserting? ==> insertion.height <= maxHeight)
    }

    ghost function Now(): ListState
      reads this
    {
      ListState(nodes, maxHeight, insertion, lists)
    }

    constructor ()
      ensures Valid() && insertion.Idle? && lists[0] == []
    {
      nodes := [Node(0.0, seq(MAX_HEIGHT, _ => NULL))];
      maxHeight, insertion := 1, Idle;
      lists := seq(MAX_HEIGHT, _ => []);
    }

    /** The first node at or after `key`, with the predecessors at every level in use. */
    method FindGreaterOrEqual(key: UserKey) returns (n: int, prev: seq<nat>)
      requires Valid()
      ensures IsFirstFrom(nodes, lists[0], key, n)
      ensures |prev| == maxHeight && forall l :: 0 <= l < maxHeight ==> IsPrev(nodes, lists[l], key, prev[l])
    {
      hide ListOk, InsertionOk, IsPrev, IsFirstFrom;
      HeightIsLevels(nodes, lists);
      var r := Reader(key, 0, maxHeight - 1);
      prev := seq(maxHeight, _ => 0);
      ghost var q := 0;
      while true
        invariant r.level < maxHeight && r.target == key && |prev| == maxHeight
        invariant ReaderAt(nodes, lists[r.level], key, r.x, q)
        invariant forall l :: r.level < l < maxHeight ==> IsPrev(nodes, lists[l], key, prev[l])
        decreases r.level, |lists[r.level]| - q
      {
        var done, result, r';
        ghost var q';
        done, result, r', q' := Load(nodes, r, lists, q);
        if done || r'.level < r.level {
          prev := prev[r.level := r.x];
        }
        if done {
          return result, prev;
        }
        r, q := r', q';
      }
    }

    /** The last node before `key`; the head when there is none. */
    method FindLessThan(key: UserKey) returns (n: nat)
      requires Valid()
      ensures IsPrev(nodes, lists[0], key, n)
    {
      hide ListOk, InsertionOk, IsPrev, IsFirstFrom;
      HeightIsLevels(nodes, lists);
      var r := Reader(key, 0, maxHeight - 1);
      ghost var q := 0;
      while true
        invariant r.level < maxHeight && r.target == key && ReaderAt(nodes, lists[r.level], key, r.x, q)
        decreases r.level, |lists[r.level]| - q
      {
        var done, result, r';
        ghost var q';
        done, result, r', q' := Load(nodes, r, lists, q);
        if done {
          return r.x;
        }
        r, q := r', q';
      }
    }

    /** The last node of all; the head when the list is empty. */
    method FindLast() returns (n: nat)
      requires Valid()
      ensures n == Before(lists[0], |lists[0]|)
    {
      hide ListOk, InsertionOk;
      HeightIsLevels(nodes, lists);
      var x, level := 0, maxHeight - 1;
      ghost var q: nat := 0;
      while true
        invariant 0 <= level < maxHeight && q <= |lists[level]| && x == Before(lists[level], q)
        decreases level, |lists[level]| - q
      {
        NextOf(nodes, lists, level, q);
        var next := nodes[x].next[level];
        if next != NULL {
          x, q := next, q + 1;
        } else if level == 0 {
          return x;
        } else {
          q := SameNodeBelow(nodes, lists, level, q);
          level := level - 1;
        }
      }
    }

    // ----------------------------------------------------------------------- insertion steps

    /** Find the predecessors, raise the height if needed, allocate the node.  Nothing is linked yet. */
    method BeginInsert(key: UserKey, height: nat)
      requires Valid() && insertion.Idle? && 1 <= height <= MAX_HEIGHT
      requires forall n :: n in lists[0] ==> nodes[n].key != key
      modifies this`nodes, this`maxHeight, this`insertion
      ensures Valid() && insertion.Inserting? && insertion.level == 0 && insertion.height == height
      ensures nodes[insertion.x].key == key && Grows(old(nodes), lists, nodes, lists)
      ensures nodes == old(nodes) + [Node(key, seq(height, _ => NULL))] && maxHeight == Max(old(maxHeight), height)
      ensures insertion == Inserting(|old(nodes)|, height, 0, false, insertion.prev)
    {
      hide ListOk, InsertionOk, IsPrev, IsFirstFrom;
      HeightIsLevels(nodes, lists);
      var _, prev := FindGreaterOrEqual(key);
      if height > maxHeight {
        prev := prev + seq(height - maxHeight, _ => 0);
      } else {
        prev := prev[..height];
      }
      var x := |nodes|;
      var nodes' := nodes + [Node(key, seq(height, _ => NULL))];
      forall l | 0 <= l < height ensures IsPrev(nodes, lists[l], key, prev[l]) {
        if l >= maxHeight {
          HeadIsPrev(nodes, lists[l], key);
        }
      }
      NodeAllocated(nodes, lists, key, height, nodes', prev);
      if height > maxHeight {
        maxHeight := height;
      }
      nodes, insertion := nodes', Inserting(x, height, 0, false, prev);
    }

    /** First store at a level: the new node's own link, which no reader can reach yet. */
    method StoreOwnLink()
      requires Valid() && insertion.Inserting? && !insertion.pointed
      modifies this`nodes, this`insertion
      ensures Valid() && insertion == old(insertion).(pointed := true) && Grows(old(nodes), lists, nodes, lists)
      ensures OwnLinkRel(old(nodes), old(insertion), nodes)
    {
      hide ListOk, InsertionOk;
      var x, i := insertion.x, insertion.level;
      PredecessorKnown(this);
      var p := insertion.prev[i];
      var nodes' := SetNext(nodes, x, i, nodes[p].next[i]);
      PointedStep(nodes, lists, insertion, nodes');
      SameListGrows(nodes, lists, nodes', x, i, nodes[p].next[i]);
      nodes, insertion := nodes', insertion.(pointed := true);
    }

    /** Second store at a level: the predecessor's link.  At level 0 this is the moment of insertion. */
    method PublishLink()
      requires Valid() && insertion.Inserting? && insertion.pointed
      modifies this`nodes, this`insertion, this`lists
      ensures Valid() && Grows(old(nodes), old(lists), nodes, lists)
      ensures insertion == if old(insertion).level + 1 == old(insertion).height then Idle
                           else old(insertion).(level := old(insertion).level + 1, pointed := false)
      ensures forall n :: n in lists[old(insertion).level] <==> n in old(lists)[old(insertion).level] || n == old(insertion).x
      ensures forall l :: 0 <= l < MAX_HEIGHT && l != old(insertion).level ==> lists[l] == old(lists)[l]
      ensures PublishRel(old(nodes), old(insertion), nodes)
    {
      hide ListOk, InsertionOk;
      var i, x := insertion.level, insertion.x;
      ghost var q := Where(this);
      var p := insertion.prev[i];
      var nodes' := SetNext(nodes, p, i, x);
      ghost var lists' := lists[i := Inserted(lists[i], q, x)];
      PublishedStep(nodes, lists, insertion, q, nodes', lists');
      forall n: nat ensures n in lists'[i] <==> n in lists[i] || n == x {
        InsertedHas(lists[i], q, x, n);
      }
      hide Inserted, SetNext, Splits, Grows;
      lists := lists';
      nodes := nodes';
      insertion := if i + 1 == insertion.height then Idle else insertion.(level := i + 1, pointed := false);
      IdleIsOk(nodes, lists);
    }
  }

  lemma IdleIsOk(nodes: seq<Node>, lists: seq<seq<nat>>)
    ensures InsertionOk(nodes, lists, Idle)
  {
  }

  lemma HeadIsPrev(nodes: seq<Node>, ids: seq<nat>, key: UserKey)
    requires ids == []
    ensures IsPrev(nodes, ids, key, 0)
  {
    assert Splits(nodes, ids, key, 0);
  }

  lemma NextOf(nodes: seq<Node>, lists: seq<seq<nat>>, level: nat, q: nat)
    requires ListOk(nodes, lists) && level < |lists| && q <= |lists[level]|
    ensures Before(lists[level], q) < |nodes| && level < |nodes[Before(lists[level], q)].next|
    ensures nodes[Before(lists[level], q)].next[level] == At(lists[level], q)
  {
    assert LevelOk(nodes, level, lists[level]);
    assert q > 0 ==> LinkOk(nodes, level, lists[level], q - 1);
  }

  /** The end of a level, found one level further down. */
  lemma SameNodeBelow(nodes: seq<Node>, lists: seq<seq<nat>>, level: nat, q: nat) returns (q': nat)
    requires ListOk(nodes, lists) && 0 < level < |lists| && q <= |lists[level]|
    ensures q' <= |lists[level - 1]| && Before(lists[level - 1], q') == Before(lists[level], q)
  {
    if q == 0 {
      q' := 0;
    } else {
      var below := lists[level - 1];
      assert Within(lists[level], below) && lists[level][q - 1] in lists[level];
      var j :| 0 <= j < |below| && below[j] == lists[level][q - 1];
      q' := j + 1;
    }
  }

  lemma SameListGrows(nodes: seq<Node>, lists: seq<seq<nat>>, nodes': seq<Node>, n: nat, i: nat, x: int)
    requires n < |nodes| && i < |nodes[n].next| && nodes' == SetNext(nodes, n, i, x)
    ensures Grows(nodes, lists, nodes', lists)
  {
    SetNextKeys(nodes, n, i, x);
  }

  lemma PredecessorKnown(list: List)
    requires list.Valid() && list.insertion.Inserting?
    ensures list.insertion.level < |list.insertion.prev| && list.insertion.prev[list.insertion.level] < |list.nodes|
    ensures list.insertion.level < |list.nodes[list.insertion.prev[list.insertion.level]].next|
    ensures 0 < list.insertion.x < |list.nodes| && list.insertion.level < |list.nodes[list.insertion.x].next|
  {
    var i := list.insertion.level;
    assert LevelOk(list.nodes, i, list.lists[i]);
    var q := PrevLink(list.nodes, i, list.lists[i], list.insertion.x, list.insertion.prev[i]);
  }

  /** Where the pending level's store takes effect. */
  lemma Where(list: List) returns (q: nat)
    requires list.Valid() && list.insertion.Inserting? && list.insertion.pointed
    ensures |list.lists| == MAX_HEIGHT && list.insertion.level < list.insertion.height <= MAX_HEIGHT
    ensures list.insertion.level < |list.insertion.prev| && list.insertion.x < |list.nodes|
    ensures list.insertion.level < |list.nodes[list.insertion.x].next|
    ensures Splits(list.nodes, list.lists[list.insertion.level], list.nodes[list.insertion.x].key, q)
    ensures list.insertion.prev[list.insertion.level] == Before(list.lists[list.insertion.level], q)
    ensures list.nodes[list.insertion.x].next[list.insertion.level] == At(list.lists[list.insertion.level], q)
    ensures list.insertion.prev[list.insertion.level] < |list.nodes|
    ensures list.insertion.level < |list.nodes[list.insertion.prev[list.insertion.level]].next|
  {
    var i, x := list.insertion.level, list.insertion.x;
    var ids, key := list.lists[i], list.nodes[x].key;
    assert LevelOk(list.nodes, i, ids) && PrevOk(list.nodes, ids, x, list.insertion.prev[i]);
    q := PrevLink(list.nodes, i, ids, x, list.insertion.prev[i]);
    var q' :| Splits(list.nodes, ids, key, q') && list.nodes[x].next[i] == At(ids, q');
    SplitsUnique(list.nodes, ids, key, q, q');
  }

  lemma SplitsUnique(nodes: seq<Node>, ids: seq<nat>, key: UserKey, q: nat, q': nat)
    requires Splits(nodes, ids, key, q) && Splits(nodes, ids, key, q')
    ensures q == q'
  {
    assert q < |ids| ==> ids[q] < |nodes| && nodes[ids[q]].key >= key;
    assert q' < |ids| ==> ids[q'] < |nodes| && nodes[ids[q']].key >= key;
  }

  lemma NodeAllocated(nodes: seq<Node>, lists: seq<seq<nat>>, key: UserKey, height: nat, nodes': seq<Node>, prev: seq<nat>)
    requires ListOk(nodes, lists) && 1 <= height <= MAX_HEIGHT && |prev| == height
    requires nodes' == nodes + [Node(key, seq(height, _ => NULL))]
    requires forall n :: n in lists[0] ==> nodes[n].key != key
    requires forall l :: 0 <= l < height ==> IsPrev(nodes, lists[l], key, prev[l])
    ensures ListOk(nodes', lists) && Grows(nodes, lists, nodes', lists) && 0 < |nodes|
    ensures InsertionOk(nodes', lists, Inserting(|nodes|, height, 0, false, prev))
  {
    forall l | 0 <= l < MAX_HEIGHT ensures LevelOk(nodes', l, lists[l]) && |nodes| !in lists[l] && 0 < |nodes| {
      assert LevelOk(nodes, l, lists[l]);
      LevelWithMore(nodes, lists[l], l, nodes');
    }
    forall l | 0 <= l < height ensures PrevOk(nodes', lists[l], |nodes|, prev[l]) {
      assert LevelOk(nodes, l, lists[l]) && (l > 0 ==> Within(lists[l], lists[0]));
      assert forall j :: 0 <= j < |lists[l]| ==> lists[l][j] in lists[0];
      PrevWithMore(nodes, lists[l], key, prev[l], nodes');
    }
    hide LevelOk, PrevOk, Nested, IsPrev;
  }

  lemma LevelWithMore(nodes: seq<Node>, ids: seq<nat>, l: nat, nodes': seq<Node>)
    requires LevelOk(nodes, l, ids) && |nodes| <= |nodes'| && nodes'[..|nodes|] == nodes
    ensures LevelOk(nodes', l, ids) && |nodes| !in ids && 0 < |nodes|
  {
    assert forall n :: 0 <= n < |nodes| ==> nodes'[n] == nodes'[..|nodes|][n];
    forall j | 0 <= j < |ids| ensures LinkOk(nodes', l, ids, j) && ids[j] < |nodes| {
      assert LinkOk(nodes, l, ids, j);
    }
  }

  lemma PrevWithMore(nodes: seq<Node>, ids: seq<nat>, key: UserKey, p: nat, nodes': seq<Node>)
    requires IsPrev(nodes, ids, key, p) && |nodes'| == |nodes| + 1 && nodes'[..|nodes|] == nodes && nodes'[|nodes|].key == key
    requires forall j :: 0 <= j < |ids| ==> ids[j] < |nodes| && nodes[ids[j]].key != key
    ensures PrevOk(nodes', ids, |nodes|, p)
  {
    assert forall n :: 0 <= n < |nodes| ==> nodes'[n] == nodes'[..|nodes|][n];
    var q :| Splits(nodes, ids, key, q) && p == Before(ids, q);
    assert Splits(nodes', ids, key, q);
  }

  lemma HeightIsLevels(nodes: seq<Node>, lists: seq<seq<nat>>)
    requires ListOk(nodes, lists)
    ensures |lists| == MAX_HEIGHT
  {
    hide LevelOk, Nested;
  }

  // -------------------------------------------------------------- searching while inserting

  datatype WriterStep = StartInsert(key: UserKey, height: nat) | OwnLink | Publish

  lemma AbsentFromFirst(nodes: seq<Node>, lists: seq<seq<nat>>, key: UserKey, n: int)
    requires ListOk(nodes, lists) && IsFirstFrom(nodes, lists[0], key, n)
    ensures n == NULL || 0 <= n < |nodes|
    ensures n == NULL || nodes[n].key != key ==> forall m :: m in lists[0] ==> nodes[m].key != key
  {
    var ids := lists[0];
    assert LevelOk(nodes, 0, ids);
    var q: nat :| Splits(nodes, ids, key, q) && n == At(ids, q);
    forall m | m in ids && (n == NULL || nodes[n].key != key) ensures nodes[m].key != key {
      var j :| 0 <= j < |ids| && ids[j] == m;
      assert q < j ==> nodes[ids[q]].key < nodes[ids[j]].key;
    }
  }

  ghost predicate Absent(nodes: seq<Node>, ids: seq<nat>, key: UserKey) {
    forall n :: n in ids && n < |nodes| ==> nodes[n].key != key
  }

  ghost predicate Started(pre: ListState, key: UserKey, height: nat, post: ListState) {
    && post == pre.(nodes := pre.nodes + [Node(key, seq(height, _ => NULL))], maxHeight := Max(pre.maxHeight, height), insertion := post.insertion)
    && post.insertion.Inserting? && post.insertion == Inserting(|pre.nodes|, height, 0, false, post.insertion.prev)
  }

  ghost predicate Published(pre: ListState, post: ListState) {
    && pre.insertion.Inserting? && pre.insertion.level < |pre.lists| == |post.lists|
    && var i, x := pre.insertion.level, pre.insertion.x;
       && PublishRel(pre.nodes, pre.insertion, post.nodes) && post.maxHeight == pre.maxHeight
       && post.insertion == (if i + 1 == pre.insertion.height then Idle else pre.insertion.(level := i + 1, pointed := false))
       && (forall n :: n in post.lists[i] <==> n in pre.lists[i] || n == x)
       && (forall l :: 0 <= l < |pre.lists| && l != i ==> post.lists[l] == pre.lists[l])
  }

  /** What each step of the writer stores; a step that is not its turn stores nothing. */
  ghost predicate WriterRel(pre: ListState, step: WriterStep, post: ListState) {
    match step
    case StartInsert(key, height) =>
      if pre.insertion.Idle? && 1 <= height <= MAX_HEIGHT && |pre.lists| > 0 && Absent(pre.nodes, pre.lists[0], key)
      then Started(pre, key, height, post)
      else post == pre
    case OwnLink =>
      if pre.insertion.Inserting? && !pre.insertion.pointed
      then OwnLinkRel(pre.nodes, pre.insertion, post.nodes) && post == pre.(nodes := post.nodes, insertion := pre.insertion.(pointed := true))
      else post == pre
    case Publish =>
      if pre.insertion.Inserting? && pre.insertion.pointed then Published(pre, post) else post == pre
  }

  lemma FirstTells(nodes: seq<Node>, lists: seq<seq<nat>>, key: UserKey, n: int)
    requires ListOk(nodes, lists) && IsFirstFrom(nodes, lists[0], key, n)
    ensures |lists| == MAX_HEIGHT && (n == NULL || 0 <= n < |nodes|)
    ensures Absent(nodes, lists[0], key) <==> n == NULL || nodes[n].key != key
    ensures Absent(nodes, lists[0], key) ==> forall m :: m in lists[0] ==> m < |nodes| && nodes[m].key != key
  {
    AbsentFromFirst(nodes, lists, key, n);
    var ids := lists[0];
    assert LevelOk(nodes, 0, ids);
    var q: nat :| Splits(nodes, ids, key, q) && n == At(ids, q);
    assert n != NULL ==> ids[q] in ids;
    forall m | m in ids ensures m < |nodes| {
      var j :| 0 <= j < |ids| && ids[j] == m;
    }
  }

  /** Let the writer take a step, if it can. */
  method Write(list: List, step: WriterStep)
    requires list.Valid()
    modifies list
    ensures list.Valid() && Grows(old(list.nodes), old(list.lists), list.nodes, list.lists)
    ensures WriterRel(old(list.Now()), step, list.Now())
  {
    GrowsSame(list.nodes, list.lists);
    hide ListOk, InsertionOk, IsFirstFrom, IsPrev, Grows, OwnLinkRel, PublishRel, Absent;
    HeightIsLevels(list.nodes, list.lists);
    match step
    case StartInsert(key, height) =>
      if list.insertion.Idle? && 1 <= height <= MAX_HEIGHT {
        var n, _ := list.FindGreaterOrEqual(key);
        FirstTells(list.nodes, list.lists, key, n);
        if n == NULL || list.nodes[n].key != key {
          list.BeginInsert(key, height);
        }
      }
    case OwnLink =>
      if list.insertion.Inserting? && !list.insertion.pointed {
        list.StoreOwnLink();
      }
    case Publish =>
      if list.insertion.Inserting? && list.insertion.pointed {
        list.PublishLink();
        HeightIsLevels(list.nodes, list.lists);
      }
  }

  lemma GrowsSame(nodes: seq<Node>, lists: seq<seq<nat>>)
    ensures Grows(nodes, lists, nodes, lists)
  {
  }

  // ------------------------------------------------------------------- runs of the writer

  ghost function Flat(schedule: seq<seq<WriterStep>>): seq<WriterStep> {
    if schedule == [] then [] else Flat(schedule[..|schedule| - 1]) + schedule[|schedule| - 1]
  }

  /** The states that the writer's steps lead through. */
  ghost predicate IsWriterRun(steps: seq<WriterStep>, trace: seq<ListState>) {
    |trace| == |steps| + 1 && forall i :: 0 <= i < |steps| ==> WriterRel(trace[i], steps[i], trace[i + 1])
  }

  lemma WriterRunMore(steps: seq<WriterStep>, trace: seq<ListState>, step: WriterStep, post: ListState)
    requires IsWriterRun(steps, trace) && WriterRel(trace[|steps|], step, post)
    ensures IsWriterRun(steps + [step], trace + [post])
  {
    hide WriterRel;
  }

  /** Where load `j` falls among the writer's steps. */
  ghost function LoadAt(schedule: seq<seq<WriterStep>>, j: nat): nat {
    |Flat(schedule[..if j < |schedule| then j + 1 else |schedule|])|
  }

  /** The reader's positions: load `j` reads the list as the first `j + 1` batches of stores left it. */
  ghost predicate IsReaderRun(schedule: seq<seq<WriterStep>>, trace: seq<ListState>, readers: seq<Reader>) {
    && readers != []
    && forall j :: 0 <= j < |readers| - 1 ==>
         LoadAt(schedule, j) < |trace| && Loads(trace[LoadAt(schedule, j)].nodes, readers[j], None, readers[j + 1])
  }

  lemma ReaderRunKept(schedule: seq<seq<WriterStep>>, trace: seq<ListState>, readers: seq<Reader>, more: seq<ListState>)
    requires IsReaderRun(schedule, trace, readers)
    ensures IsReaderRun(schedule, trace + more, readers)
  {
    hide Loads, LoadAt;
  }

  lemma ReaderRunMore(schedule: seq<seq<WriterStep>>, trace: seq<ListState>, readers: seq<Reader>, r': Reader)
    requires IsReaderRun(schedule, trace, readers) && LoadAt(schedule, |readers| - 1) < |trace|
    requires Loads(trace[LoadAt(schedule, |readers| - 1)].nodes, readers[|readers| - 1], None, r')
    ensures IsReaderRun(schedule, trace, readers + [r'])
  {
    hide Loads, LoadAt;
  }

  lemma GrowsTwice(a: ListState, b: ListState, c: ListState)
    requires Grows(a.nodes, a.lists, b.nodes, b.lists) && Grows(b.nodes, b.lists, c.nodes, c.lists)
    ensures Grows(a.nodes, a.lists, c.nodes, c.lists)
  {
  }

  ghost predicate TraceEnds(list: List, trace: seq<ListState>)
    reads list
  {
    trace != [] && trace[|trace| - 1] == list.Now() && Grows(trace[0].nodes, trace[0].lists, list.nodes, list.lists)
  }

  /** The writer takes all its steps; a reader in the middle of a search is not disturbed. */
  method WriteAll(list: List, steps: seq<WriterStep>, ghost r: Reader, ghost q: nat, ghost done: seq<WriterStep>, ghost trace: seq<ListState>)
    returns (ghost q': nat, ghost trace': seq<ListState>)
    requires list.Valid() && r.level < MAX_HEIGHT == |list.lists| && ReaderAt(list.nodes, list.lists[r.level], r.target, r.x, q)
    requires IsWriterRun(done, trace) && TraceEnds(list, trace)
    modifies list
    ensures list.Valid() && |list.lists| == MAX_HEIGHT && ReaderAt(list.nodes, list.lists[r.level], r.target, r.x, q')
    ensures trace <= trace' && IsWriterRun(done + steps, trace') && TraceEnds(list, trace')
  {
    hide *;
    q', trace' := q, trace;
    assert done + steps[..0] == done;
    for k := 0 to |steps|
      invariant list.Valid() && |list.lists| == MAX_HEIGHT && ReaderAt(list.nodes, list.lists[r.level], r.target, r.x, q')
      invariant trace <= trace' && IsWriterRun(done + steps[..k], trace') && TraceEnds(list, trace')
    {
      ghost var pre := list.Now();
      StateIs(list);
      NowFacts(list, trace');
      RunLength(done + steps[..k], trace');
      Write(list, steps[k]);
      StateIs(list);
      LevelsOf(list);
      q' := StillThere(pre.nodes, pre.lists, list.nodes, list.lists, r, q');
      WriterRunMore(done + steps[..k], trace', steps[k], list.Now());
      assert done + steps[..k] + [steps[k]] == done + steps[..k + 1];
      GrowsTwice(trace'[0], pre, list.Now());
      trace' := trace' + [list.Now()];
      FoldNow(list, trace');
    }
    assert steps[..|steps|] == steps;
  }

  lemma StateIs(list: List)
    ensures list.Now() == ListState(list.nodes, list.maxHeight, list.insertion, list.lists)
  {
  }

  lemma NowFacts(list: List, trace: seq<ListState>)
    requires TraceEnds(list, trace)
    ensures trace != [] && trace[|trace| - 1] == list.Now() && Grows(trace[0].nodes, trace[0].lists, list.nodes, list.lists)
  {
    hide Grows;
  }

  lemma FoldNow(list: List, trace: seq<ListState>)
    requires trace != [] && trace[|trace| - 1] == list.Now() && Grows(trace[0].nodes, trace[0].lists, list.nodes, list.lists)
    ensures TraceEnds(list, trace)
  {
    hide Grows;
  }

  lemma RunLength(steps: seq<WriterStep>, trace: seq<ListState>)
    requires IsWriterRun(steps, trace)
    ensures |trace| == |steps| + 1
  {
    hide WriterRel;
  }

  lemma LevelsOf(list: List)
    requires list.Valid()
    ensures |list.lists| == MAX_HEIGHT
  {
    hide LevelOk, Nested, InsertionOk;
  }

  /** A lock-free search, with any number of the writer's stores before each of its loads and any starting
      height it may have read: it returns the first node at or after the target among those in the
      list at its last load.  The list has gone through exactly the scheduled stores, and the search through
      exactly the loads that fall between them. */
  method SearchWhileWriting(list: List, target: UserKey, height: nat, schedule: seq<seq<WriterStep>>)
    returns (result: int, ghost turn: nat, ghost trace: seq<ListState>, ghost readers: seq<Reader>)
    requires list.Valid() && 1 <= height <= MAX_HEIGHT
    modifies list
    ensures list.Valid() && |list.lists| > 0 && IsFirstFrom(list.nodes, list.lists[0], target, result)
    ensures turn <= |schedule| && IsWriterRun(Flat(schedule[..turn]), trace) && trace[0] == old(list.Now()) && trace[|trace| - 1] == list.Now()
    ensures Grows(old(list.nodes), old(list.lists), list.nodes, list.lists)
    ensures Keys(trace[0]) <= Keys(list.Now()) <= Keys(trace[0]) + Pending(trace[0]) + Requested(Flat(schedule[..turn]))
    ensures IsReaderRun(schedule, trace, readers) && readers[0] == Reader(target, 0, height - 1)
    ensures turn == (if |readers| < |schedule| then |readers| else |schedule|)
    ensures Loads(list.nodes, readers[|readers| - 1], Some(result), readers[|readers| - 1])
  {
    hide *;
    var r, round := Reader(target, 0, height - 1), 0;
    LevelsOf(list);
    StateIs(list);
    ghost var q := ReaderStarts(list.nodes, list.lists, target, height - 1);
    trace, readers := [list.Now()], [r];
    RunsStart(list, schedule, r);
    ghost var first := list.Now();
    IdsAreInside(list);
    while true
      invariant list.Valid() && |list.lists| == MAX_HEIGHT && r.level < MAX_HEIGHT && r.target == target && 0 <= round <= |schedule|
      invariant ReaderAt(list.nodes, list.lists[r.level], target, r.x, q)
      invariant IsWriterRun(Flat(schedule[..round]), trace) && TraceEnds(list, trace) && trace != [] && trace[0] == first
      invariant IsReaderRun(schedule, trace, readers) && readers != [] && readers[|readers| - 1] == r && readers[0] == Reader(target, 0, height - 1)
      invariant round == if |readers| - 1 < |schedule| then |readers| - 1 else |schedule|
      decreases |schedule| - round, r.level, |list.lists[r.level]| - q
    {
      if round < |schedule| {
        ghost var before := trace;
        q, trace := WriteAll(list, schedule[round], r, q, Flat(schedule[..round]), trace);
        FlatNext(schedule, round);
        assert trace == before + trace[|before|..];
        ReaderRunKept(schedule, before, readers, trace[|before|..]);
        round := round + 1;
      }
      LoadAtNow(schedule, |readers| - 1, round);
      RunLength(Flat(schedule[..round]), trace);
      NowFacts(list, trace);
      StateIs(list);
      ListFacts(list);
      var done, found, r';
      ghost var q';
      done, found, r', q' := Load(list.nodes, r, list.lists, q);
      if done {
        result, turn := found, round;
        KeysGained(Flat(schedule[..turn]), trace);
        return;
      }
      LoadBounds(list.nodes, list.lists[r'.level], target, r'.x, q');
      ReaderRunMore(schedule, trace, readers, r');
      r, q := r', q';
      readers := readers + [r];
    }
  }

  lemma IdsAreInside(list: List)
    requires list.Valid()
    ensures IdsInside(list.Now())
  {
    var ids := list.lists[0];
    assert LevelOk(list.nodes, 0, ids);
    forall n | n in ids ensures n < |list.nodes| {
      var j :| 0 <= j < |ids| && ids[j] == n;
    }
  }

  lemma ListFacts(list: List)
    requires list.Valid()
    ensures ListOk(list.nodes, list.lists)
  {
  }

  lemma RunsStart(list: List, schedule: seq<seq<WriterStep>>, r: Reader)
    ensures IsWriterRun(Flat(schedule[..0]), [list.Now()]) && TraceEnds(list, [list.Now()]) && IsReaderRun(schedule, [list.Now()], [r])
  {
    GrowsSame(list.nodes, list.lists);
  }

  lemma FlatNext(schedule: seq<seq<WriterStep>>, k: nat)
    requires k < |schedule|
    ensures Flat(schedule[..k + 1]) == Flat(schedule[..k]) + schedule[k]
  {
    assert schedule[..k + 1][..k] == schedule[..k];
  }

  lemma LoadAtNow(schedule: seq<seq<WriterStep>>, j: nat, turn: nat)
    requires turn == if j < |schedule| then j + 1 else |schedule|
    ensures LoadAt(schedule, j) == |Flat(schedule[..turn])|
  {
    hide Flat;
  }

  // ------------------------------------------------------------------------- the keys in a list

  /** The keys that readers can find. */
  ghost function Keys(st: ListState): set<UserKey> {
    if st.lists == [] then {} else set n | n in st.lists[0] && n < |st.nodes| :: st.nodes[n].key
  }

  /** The key of the insertion in progress. */
  ghost function Pending(st: ListState): set<UserKey> {
    if st.insertion.Inserting? && st.insertion.x < |st.nodes| then {st.nodes[st.insertion.x].key} else {}
  }

  /** The store that publishes a node at the lowest level. */
  ghost predicate Inserts(pre: ListState, step: WriterStep) {
    step.Publish? && pre.insertion.Inserting? && pre.insertion.pointed && pre.insertion.level == 0
  }

  ghost predicate IdsInside(st: ListState) {
    && st.lists != [] && (forall n :: n in st.lists[0] ==> n < |st.nodes|)
    && (st.insertion.Inserting? ==> st.insertion.x < |st.nodes|)
  }

  /** A key appears exactly when the store at the lowest level publishes it; no other store changes the keys. */
  lemma KeysStep(pre: ListState, step: WriterStep, post: ListState)
    requires WriterRel(pre, step, post) && IdsInside(pre)
    ensures IdsInside(post) && Keys(post) == Keys(pre) + if Inserts(pre, step) then Pending(pre) else {}
    ensures Pending(post) <= Pending(pre) + if step.StartInsert? then {step.key} else {}
  {
    if step.StartInsert? {
      KeysAfterStart(pre, step, post);
    } else if step.OwnLink? {
      KeysAfterOwnLink(pre, post);
    } else if pre.insertion.Inserting? && pre.insertion.pointed {
      KeysAfterPublish(pre, post);
    }
  }

  lemma KeysAfterStart(pre: ListState, step: WriterStep, post: ListState)
    requires WriterRel(pre, step, post) && IdsInside(pre) && step.StartInsert?
    ensures IdsInside(post) && Keys(post) == Keys(pre) && Pending(post) <= Pending(pre) + {step.key}
  {
    hide Absent;
    assert forall n: nat :: n < |pre.nodes| ==> post.nodes[n] == pre.nodes[n];
  }

  lemma KeysAfterOwnLink(pre: ListState, post: ListState)
    requires WriterRel(pre, OwnLink, post) && IdsInside(pre)
    ensures IdsInside(post) && Keys(post) == Keys(pre) && Pending(post) == Pending(pre)
  {
    if post != pre {
      SetNextSameKeys(pre.nodes, pre.insertion.x, pre.insertion.level, pre.nodes[pre.insertion.prev[pre.insertion.level]].next[pre.insertion.level]);
      hide SetNext;
    }
  }

  lemma KeysAfterPublish(pre: ListState, post: ListState)
    requires Published(pre, post) && IdsInside(pre)
    ensures IdsInside(post) && Keys(post) == Keys(pre) + (if pre.insertion.level == 0 then Pending(pre) else {}) && Pending(post) <= Pending(pre)
  {
    SetNextSameKeys(pre.nodes, pre.insertion.prev[pre.insertion.level], pre.insertion.level, pre.insertion.x);
    hide SetNext;
    var x := pre.insertion.x;
    assert forall n: nat :: n < |pre.nodes| ==> post.nodes[n].key == pre.nodes[n].key;
    if pre.insertion.level == 0 {
      assert x in post.lists[0];
    }
  }

  ghost function Requested(steps: seq<WriterStep>): set<UserKey> {
    set i | 0 <= i < |steps| && steps[i].StartInsert? :: steps[i].key
  }

  /** Over any run of the writer no key is lost, and those gained were in progress or asked for. */
  lemma {:induction false} KeysGained(steps: seq<WriterStep>, trace: seq<ListState>)
    requires IsWriterRun(steps, trace) && IdsInside(trace[0])
    ensures IdsInside(trace[|steps|]) && Keys(trace[0]) <= Keys(trace[|steps|]) <= Keys(trace[0]) + Pending(trace[0]) + Requested(steps)
    ensures Pending(trace[|steps|]) <= Pending(trace[0]) + Requested(steps)
    decreases |steps|
  {
    hide WriterRel, IdsInside, Keys, Pending, Inserts;
    if steps != [] {
      var n := |steps| - 1;
      var init, shorter := steps[..n], trace[..n + 1];
      assert forall i :: 0 <= i < n ==> WriterRel(trace[i], steps[i], trace[i + 1]);
      assert IsWriterRun(init, shorter);
      KeysGained(init, shorter);
      KeysStep(trace[n], steps[n], trace[n + 1]);
      assert forall i :: 0 <= i < n ==> init[i] == steps[i];
      forall k | k in Requested(init) ensures k in Requested(steps) {
        var i :| 0 <= i < n && init[i].StartInsert? && init[i].key == k;
        assert steps[i].StartInsert? && steps[i].key == k;
      }
      assert steps[n].StartInsert? ==> steps[n].key in Requested(steps);
    }
  }

  lemma ReaderStarts(nodes: seq<Node>, lists: seq<seq<nat>>, target: UserKey, level: nat) returns (q: nat)
    requires level < |lists|
    ensures ReaderAt(nodes, lists[level], target, 0, q)
  {
    q := 0;
  }

  lemma StillThere(nodes: seq<Node>, lists: seq<seq<nat>>, nodes': seq<Node>, lists': seq<seq<nat>>, r: Reader, q: nat) returns (q': nat)
    requires Grows(nodes, lists, nodes', lists') && r.level < |lists| == |lists'| && ReaderAt(nodes, lists[r.level], r.target, r.x, q)
    ensures ReaderAt(nodes', lists'[r.level], r.target, r.x, q')
  {
    hide ReaderAt, Grows;
    assert ReaderOk(nodes, lists, r);
    ReaderUndisturbed(nodes, lists, nodes', lists', r);
    q' :| ReaderAt(nodes', lists'[r.level], r.target, r.x, q');
  }

  lemma LoadBounds(nodes: seq<Node>, ids: seq<nat>, target: UserKey, x: nat, q: nat)
    requires ReaderAt(nodes, ids, target, x, q)
    ensures q <= |ids|
  {
  }
}
