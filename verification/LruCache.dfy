/** One shard of the cache: reference-counted handles, a hash table, an LRU list and an in-use list. */
module LruCache {
  import opened DbFormat
  import opened HandleTable

  /** `refs` counts the clients' references and the cache's own. */
  datatype Handle = Handle(key: Bytes, hash: nat, value: Bytes, charge: nat, inCache: bool, refs: nat) {
    function Cached(): nat {
      if inCache then charge else 0
    }
  }

  // ----------------------------------------------------------------------------------- usage

  /** The total charge of the handles in the cache. */
  ghost function Usage(h: map<nat, Handle>): nat {
    if h == map[] then 0
    else
      var id :| id in h;
      h[id].Cached() + Usage(h - {id})
  }

  lemma {:induction false} UsageWithout(h: map<nat, Handle>, id: nat)
    requires id in h
    ensures Usage(h) == h[id].Cached() + Usage(h - {id})
    decreases |h|
  {
    var x :| x in h && Usage(h) == h[x].Cached() + Usage(h - {x});
    if x != id {
      UsageWithout(h - {x}, id);
      UsageWithout(h - {id}, x);
      assert (h - {x}) - {id} == (h - {id}) - {x};
    }
  }

  lemma UsageUpdated(h: map<nat, Handle>, id: nat, x: Handle)
    ensures id in h ==> Usage(h[id := x]) + h[id].Cached() == Usage(h) + x.Cached()
    ensures id !in h ==> Usage(h[id := x]) == Usage(h) + x.Cached()
  {
    UsageWithout(h[id := x], id);
    assert h[id := x] - {id} == h - {id};
    if id in h {
      UsageWithout(h, id);
    } else {
      assert h - {id} == h;
    }
  }

  // ----------------------------------------------------------------------------------- lists

  ghost predicate NoDuplicates(s: seq<nat>) {
    forall i, j :: 0 <= i < j < |s| ==> s[i] != s[j]
  }

  /** Unlink an element. */
  function Without(s: seq<nat>, id: nat): (r: seq<nat>)
    ensures forall x :: x in r <==> x in s && x != id
  {
    if s == [] then []
    else
      assert forall x :: x in s <==> x == s[0] || x in s[1..];
      if s[0] == id then Without(s[1..], id) else [s[0]] + Without(s[1..], id)
  }

  lemma {:induction false} WithoutNoDuplicates(s: seq<nat>, id: nat)
    requires NoDuplicates(s)
    ensures NoDuplicates(Without(s, id))
  {
    if s != [] {
      WithoutNoDuplicates(s[1..], id);
      var rest := Without(s[1..], id);
      forall i | 0 <= i < |rest| ensures rest[i] != s[0] {
        assert rest[i] in s[1..];
      }
    }
  }

  // ------------------------------------------------------------------------- recency

  /** The members of `keep` that occur in `released`, in the order of their last occurrence. */
  ghost function Recent(released: seq<nat>, keep: set<nat>): (r: seq<nat>)
    ensures forall x :: x in r ==> x in keep
  {
    if released == [] then []
    else
      var init, last := released[..|released| - 1], released[|released| - 1];
      if last in keep then Recent(init, keep - {last}) + [last] else Recent(init, keep)
  }

  ghost function IdsOf(ids: seq<nat>): set<nat> {
    set x | x in ids
  }

  /** The list is ordered by last release, least recent first. */
  ghost predicate OrderOk(lru: seq<nat>, released: seq<nat>) {
    lru == Recent(released, IdsOf(lru))
  }

  lemma {:induction false} RecentWithout(released: seq<nat>, keep: set<nat>, x: nat)
    ensures Recent(released, keep - {x}) == Without(Recent(released, keep), x)
    decreases |released|
  {
    if released != [] {
      var init, last := released[..|released| - 1], released[|released| - 1];
      if last == x {
        if x in keep {
          assert keep - {x} - {x} == keep - {x};
          RecentWithout(init, keep - {x}, x);
          WithoutLast(Recent(init, keep - {x}), x, x);
        } else {
          assert keep - {x} == keep;
          AbsentStays(Recent(init, keep), x);
        }
      } else {
        assert keep - {x} - {last} == keep - {last} - {x};
        RecentWithout(init, if last in keep then keep - {last} else keep, x);
        WithoutLast(Recent(init, keep - {last}), last, x);
      }
    }
  }

  lemma {:induction false} WithoutLast(s: seq<nat>, last: nat, x: nat)
    ensures Without(s + [last], x) == Without(s, x) + if last == x then [] else [last]
    decreases |s|
  {
    if s == [] {
      assert [] + [last] == [last] && [last][1..] == [];
    } else {
      assert (s + [last])[1..] == s[1..] + [last];
      WithoutLast(s[1..], last, x);
    }
  }

  /** Unlinking keeps the order. */
  lemma OrderWithout(lru: seq<nat>, released: seq<nat>, x: nat)
    requires OrderOk(lru, released)
    ensures OrderOk(Without(lru, x), released)
  {
    RecentWithout(released, IdsOf(lru), x);
    assert IdsOf(Without(lru, x)) == IdsOf(lru) - {x};
  }

  /** The handle released last goes to the end. */
  lemma OrderReleased(lru: seq<nat>, released: seq<nat>, x: nat)
    requires OrderOk(lru, released) && x !in lru
    ensures OrderOk(lru + [x], released + [x])
  {
    assert IdsOf(lru + [x]) == IdsOf(lru) + {x} && IdsOf(lru) + {x} - {x} == IdsOf(lru);
    assert (released + [x])[..|released|] == released;
  }

  // ------------------------------------------------------------------------------- invariant

  /** Every reference is accounted for. */
  ghost predicate RefsOk(handles: map<nat, Handle>, clients: map<nat, nat>, nextId: nat) {
    && clients.Keys == handles.Keys
    && forall id :: id in handles ==> id < nextId && handles[id].refs >= 1 && handles[id].refs == clients[id] + if handles[id].inCache then 1 else 0
  }

  /** The table is exactly the map of cached handles, but for one that is being erased. */
  ghost predicate TableOk(handles: map<nat, Handle>, m: map<Bytes, nat>, leaving: Option<nat>) {
    && (forall key :: key in m ==> m[key] in handles && handles[m[key]].inCache && handles[m[key]].key == key)
    && (forall id :: id in handles && handles[id].inCache ==>
          if leaving == Some(id) then handles[id].key !in m || m[handles[id].key] != id
          else handles[id].key in m && m[handles[id].key] == id)
  }

  /** A cached handle is on exactly one list: the LRU list when only the cache refers to it. */
  ghost predicate ListsOk(handles: map<nat, Handle>, lru: seq<nat>, inUse: seq<nat>) {
    && NoDuplicates(lru) && NoDuplicates(inUse)
    && (forall id :: id in lru <==> id in handles && handles[id].inCache && handles[id].refs == 1)
    && (forall id :: id in inUse <==> id in handles && handles[id].inCache && handles[id].refs >= 2)
  }

  /** Every handle ever made is either alive or was passed to its deleter, once. */
  ghost predicate DeletedOk(handles: map<nat, Handle>, deleted: seq<nat>, nextId: nat) {
    && NoDuplicates(deleted)
    && (forall id :: id in handles ==> id !in deleted)
    && (forall id :: 0 <= id < nextId <==> id in handles || id in deleted)
  }

  lemma HandleChanged(handles: map<nat, Handle>, id: nat, h: Handle, deleted: seq<nat>, nextId: nat)
    requires DeletedOk(handles, deleted, nextId) && id in handles
    ensures DeletedOk(handles[id := h], deleted, nextId)
  {
  }

  lemma HandleFreed(handles: map<nat, Handle>, id: nat, deleted: seq<nat>, nextId: nat)
    requires DeletedOk(handles, deleted, nextId) && id in handles
    ensures DeletedOk(handles - {id}, deleted + [id], nextId)
  {
  }

  lemma ListRemoved(handles: map<nat, Handle>, lru: seq<nat>, inUse: seq<nat>, id: nat, handles': map<nat, Handle>)
    requires ListsOk(handles, lru, inUse) && id in handles
    requires handles' - {id} == handles - {id} && (id in handles' ==> !handles'[id].inCache)
    ensures ListsOk(handles', Without(lru, id), Without(inUse, id))
  {
    WithoutNoDuplicates(lru, id);
    WithoutNoDuplicates(inUse, id);
    forall x: nat | x != id ensures (x in handles' <==> x in handles) && (x in handles ==> handles'[x] == handles[x]) {
      assert x in handles <==> x in handles - {id};
      assert x in handles' <==> x in handles' - {id};
      assert x in handles ==> (handles - {id})[x] == handles[x];
      assert x in handles' ==> (handles' - {id})[x] == handles'[x];
    }
  }

  lemma MovedToLru(handles: map<nat, Handle>, lru: seq<nat>, inUse: seq<nat>, id: nat, h: Handle)
    requires ListsOk(handles, lru, inUse) && id in handles && handles[id].inCache && handles[id].refs >= 2 && h.inCache && h.refs == 1
    ensures ListsOk(handles[id := h], lru + [id], Without(inUse, id)) && id !in lru
  {
    WithoutNoDuplicates(inUse, id);
    assert id !in lru;
  }

  lemma MovedToInUse(handles: map<nat, Handle>, lru: seq<nat>, inUse: seq<nat>, id: nat, h: Handle)
    requires ListsOk(handles, lru, inUse) && id in handles && handles[id].inCache && handles[id].refs == 1 && h.inCache && h.refs == 2
    ensures ListsOk(handles[id := h], Without(lru, id), inUse + [id])
  {
    WithoutNoDuplicates(lru, id);
    assert id !in inUse;
  }

  lemma StaysInUse(handles: map<nat, Handle>, lru: seq<nat>, inUse: seq<nat>, id: nat, h: Handle)
    requires ListsOk(handles, lru, inUse) && id in handles && h.inCache == handles[id].inCache
    requires h.inCache ==> handles[id].refs >= 2 && h.refs >= 2
    ensures ListsOk(handles[id := h], lru, inUse)
  {
  }

  ghost predicate HashesOk(hash: HashFunction, handles: map<nat, Handle>) {
    forall id :: id in handles ==> handles[id].hash == hash(handles[id].key)
  }

  lemma HashesUpdated(hash: HashFunction, handles: map<nat, Handle>, id: nat, h: Handle)
    requires HashesOk(hash, handles) && h.hash == hash(h.key)
    ensures HashesOk(hash, handles[id := h])
  {
  }

  lemma HashesRemoved(hash: HashFunction, handles: map<nat, Handle>, id: nat)
    requires HashesOk(hash, handles)
    ensures HashesOk(hash, handles - {id})
  {
  }

  lemma HashIs(hash: HashFunction, handles: map<nat, Handle>, id: nat)
    requires HashesOk(hash, handles) && id in handles
    ensures handles[id].hash == hash(handles[id].key)
  {
  }

  lemma RefsUpdated(handles: map<nat, Handle>, clients: map<nat, nat>, nextId: nat, id: nat, h: Handle, n: nat)
    requires RefsOk(handles, clients, nextId) && id in handles && h.refs >= 1 && h.refs == n + if h.inCache then 1 else 0
    ensures RefsOk(handles[id := h], clients[id := n], nextId)
  {
  }

  lemma RefsRemoved(handles: map<nat, Handle>, clients: map<nat, nat>, nextId: nat, id: nat)
    requires RefsOk(handles, clients, nextId)
    ensures RefsOk(handles - {id}, clients - {id}, nextId)
  {
  }

  lemma RefsAre(handles: map<nat, Handle>, clients: map<nat, nat>, nextId: nat, id: nat)
    requires RefsOk(handles, clients, nextId) && (id in handles || id in clients)
    ensures id in handles && id in clients && id < nextId && handles[id].refs >= 1
    ensures handles[id].refs == clients[id] + if handles[id].inCache then 1 else 0
  {
  }

  lemma TableUpdated(handles: map<nat, Handle>, m: map<Bytes, nat>, leaving: Option<nat>, id: nat, h: Handle)
    requires TableOk(handles, m, leaving) && id in handles && h.key == handles[id].key && h.inCache == handles[id].inCache
    ensures TableOk(handles[id := h], m, leaving)
  {
  }

  lemma TableFreed(handles: map<nat, Handle>, m: map<Bytes, nat>, id: nat)
    requires TableOk(handles, m, None) && id in handles && !handles[id].inCache
    ensures TableOk(handles - {id}, m, None)
  {
  }

  /** The invariant and its parts. */
  lemma Parts(c: LRUCache, leaving: Option<nat>)
    requires c.ValidBut(leaving)
    ensures c.table.Valid() && RefsOk(c.handles, c.clients, c.nextId) && TableOk(c.handles, c.table.m, leaving)
    ensures ListsOk(c.handles, c.lru, c.inUse) && DeletedOk(c.handles, c.deleted, c.nextId) && c.usage == Usage(c.handles)
    ensures HashesOk(c.table.hash, c.handles) && OrderOk(c.lru, c.released)
  {
    hide RefsOk, TableOk, ListsOk, DeletedOk, Usage, HashesOk, OrderOk;
  }

  lemma Assemble(c: LRUCache, leaving: Option<nat>)
    requires c.table.Valid() && RefsOk(c.handles, c.clients, c.nextId) && TableOk(c.handles, c.table.m, leaving)
    requires ListsOk(c.handles, c.lru, c.inUse) && DeletedOk(c.handles, c.deleted, c.nextId) && c.usage == Usage(c.handles)
    requires HashesOk(c.table.hash, c.handles) && OrderOk(c.lru, c.released)
    ensures c.ValidBut(leaving)
    ensures leaving == None ==> c.Valid()
  {
    hide RefsOk, TableOk, ListsOk, DeletedOk, Usage, HashesOk, OrderOk;
  }

  lemma NothingLeaving(c: LRUCache)
    requires c.Valid()
    ensures c.ValidBut(None)
  {
    hide RefsOk, TableOk, ListsOk, DeletedOk, Usage, HashesOk, OrderOk;
  }

  class LRUCache {
    const capacity: nat
    const table: Table
    var usage: nat
    var lru: seq<nat>
    var inUse: seq<nat>
    var handles: map<nat, Handle>
    var nextId: nat

    /** The handles passed to their deleter, in order. */
    var deleted: seq<nat>

    /** The references that clients hold. */
    ghost var clients: map<nat, nat>

    /** The cached handles that their last client gave back, in order. */
    ghost var released: seq<nat>

    ghost predicate ValidBut(leaving: Option<nat>)
      reads this, table
    {
      && table.Valid() && RefsOk(handles, clients, nextId) && TableOk(handles, table.m, leaving)
      && ListsOk(handles, lru, inUse) && DeletedOk(handles, deleted, nextId) && usage == Usage(handles)
      && HashesOk(table.hash, handles) && OrderOk(lru, released)
    }

    ghost predicate Valid()
      reads this, table
    {
      ValidBut(None)
    }

    constructor (capacity: nat, hash: HashFunction)
      ensures Valid() && this.capacity == capacity && handles == map[] && released == [] && fresh(table) && table.hash == hash
    {
      this.capacity := capacity;
      table := new Table(hash);
      usage, lru, inUse, handles, nextId, deleted, clients, released := 0, [], [], map[], 0, [], map[], [];
    }

    /** One more client refers to a cached handle. */
    method Ref(id: nat)
      requires Valid() && id in handles && handles[id].inCache
      modifies this`handles, this`clients, this`lru, this`inUse
      ensures Valid() && id in old(clients) && clients == old(clients)[id := old(clients)[id] + 1]
      ensures handles == old(handles)[id := old(handles)[id].(refs := old(handles)[id].refs + 1)]
      ensures lru == if old(clients)[id] == 0 then Without(old(lru), id) else old(lru)
      ensures inUse == if old(clients)[id] == 0 then old(inUse) + [id] else old(inUse)
    {
      hide *;
      NothingLeaving(this);
      Parts(this, None);
      RefsAre(handles, clients, nextId, id);
      var h := handles[id];
      var h' := h.(refs := h.refs + 1);
      HandleUpdated(this, id, h', clients[id] + 1);
      if h.refs == 1 && h.inCache {
        MovedToInUse(handles, lru, inUse, id, h');
        OrderWithout(lru, released, id);
        lru, inUse := Without(lru, id), inUse + [id];
      } else {
        StaysInUse(handles, lru, inUse, id, h');
      }
      handles := handles[id := h'];
      clients := clients[id := clients[id] + 1];
      Assemble(this, None);
    }

    /** A client gives a reference back; the last one frees the handle. */
    method Release(id: nat)
      requires Valid() && id in clients && clients[id] >= 1
      modifies this`handles, this`clients, this`lru, this`inUse, this`deleted, this`released
      ensures Valid() && id in old(handles)
      ensures deleted == if old(clients)[id] == 1 && !old(handles)[id].inCache then old(deleted) + [id] else old(deleted)
      ensures id in handles ==> clients == old(clients)[id := old(clients)[id] - 1]
      ensures id !in handles ==> clients == old(clients) - {id}
      ensures handles == if old(handles)[id].refs == 1 then old(handles) - {id}
                         else old(handles)[id := old(handles)[id].(refs := old(handles)[id].refs - 1)]
      ensures var unused := old(handles)[id].inCache && old(clients)[id] == 1;
              && lru == old(lru) + (if unused then [id] else []) && released == old(released) + (if unused then [id] else [])
              && inUse == if unused then Without(old(inUse), id) else old(inUse)
    {
      hide *;
      NothingLeaving(this);
      Parts(this, None);
      RefsAre(handles, clients, nextId, id);
      var h := handles[id];
      if h.refs == 1 {
        HandleGone(this, id);
        handles, clients, deleted := handles - {id}, clients - {id}, deleted + [id];
        Assemble(this, None);
        return;
      }
      var h' := h.(refs := h.refs - 1);
      HandleUpdated(this, id, h', clients[id] - 1);
      if h.inCache && h'.refs == 1 {
        MovedToLru(handles, lru, inUse, id, h');
        OrderReleased(lru, released, id);
        lru, inUse, released := lru + [id], Without(inUse, id), released + [id];
      } else {
        StaysInUse(handles, lru, inUse, id, h');
      }
      handles := handles[id := h'];
      clients := clients[id := clients[id] - 1];
      Assemble(this, None);
    }

    /** Finish removing a handle that has left the table. */
    method FinishErase(id: nat)
      requires ValidBut(Some(id)) && id in handles && handles[id].inCache
      modifies this`handles, this`clients, this`lru, this`inUse, this`deleted, this`usage
      ensures Valid() && usage + old(handles)[id].charge == old(usage)
      ensures lru == Without(old(lru), id) && inUse == Without(old(inUse), id)
      ensures deleted == if id in old(clients) && old(clients)[id] == 0 then old(deleted) + [id] else old(deleted)
      ensures handles - {id} == old(handles) - {id} && clients - {id} == old(clients) - {id}
      ensures id in old(clients) && (old(clients)[id] == 0 ==> handles == old(handles) - {id} && clients == old(clients) - {id})
      ensures id in handles ==> !handles[id].inCache && id in clients && clients[id] >= 1
      ensures old(clients)[id] >= 1 ==> clients == old(clients) && handles == old(handles)[id := old(handles)[id].(inCache := false, refs := old(clients)[id])]
      ensures HeldKept(old(handles), old(clients), handles, clients)
    {
      hide *;
      Parts(this, Some(id));
      RefsAre(handles, clients, nextId, id);
      var h := handles[id];
      var h' := h.(inCache := false, refs := h.refs - 1);
      Erased(this, id, h');
      OrderWithout(lru, released, id);
      usage := usage - h.charge;
      lru, inUse := Without(lru, id), Without(inUse, id);
      if h'.refs == 0 {
        handles, clients, deleted := handles - {id}, clients - {id}, deleted + [id];
      } else {
        handles := handles[id := h'];
      }
      Assemble(this, None);
      EraseKeeps(old(handles), old(clients), id, h');
    }

    method Lookup(key: Bytes, h: nat) returns (r: Option<nat>)
      requires Valid() && h == table.hash(key)
      modifies this`handles, this`clients, this`lru, this`inUse
      ensures Valid() && r == if key in table.m then Some(table.m[key]) else None
      ensures r.Some? ==> r.value in handles && handles[r.value].key == key && r.value in old(clients)
                          && clients == old(clients)[r.value := old(clients)[r.value] + 1]
                          && lru == (if old(clients)[r.value] == 0 then Without(old(lru), r.value) else old(lru))
                          && inUse == (if old(clients)[r.value] == 0 then old(inUse) + [r.value] else old(inUse))
                          && r.value in old(handles)
                          && handles == old(handles)[r.value := old(handles)[r.value].(refs := old(handles)[r.value].refs + 1)]
      ensures r.None? ==> lru == old(lru) && inUse == old(inUse) && handles == old(handles) && clients == old(clients)
    {
      hide *;
      NothingLeaving(this);
      Parts(this, None);
      r := table.Lookup(key, h);
      if r.Some? {
        InTable(handles, table.m, None, key);
        RefsAre(handles, clients, nextId, r.value);
        Ref(r.value);
      }
    }

    /** Unmap the key.  Its handle leaves the lists and the usage, and is deleted iff no client holds it; without such a
        handle nothing at all changes. */
    method Erase(key: Bytes, h: nat)
      requires Valid() && h == table.hash(key)
      modifies this`handles, this`clients, this`lru, this`inUse, this`deleted, this`usage, table
      ensures Valid() && table.m == old(table.m) - {key}
      ensures key !in old(table.m) ==>
                handles == old(handles) && clients == old(clients) && lru == old(lru) && inUse == old(inUse) && deleted == old(deleted) && usage == old(usage)
      ensures key in old(table.m) ==>
                var id := old(table.m)[key];
                && id in old(handles) && id in old(clients) && lru == Without(old(lru), id) && inUse == Without(old(inUse), id)
                && deleted == old(deleted) + Freed(old(clients), Some(id)) && usage + old(handles)[id].charge == old(usage)
                && (old(clients)[id] == 0 ==> handles == old(handles) - {id} && clients == old(clients) - {id})
                && (old(clients)[id] >= 1 ==>
                      clients == old(clients) && handles == old(handles)[id := old(handles)[id].(inCache := false, refs := old(clients)[id])])
      ensures HeldKept(old(handles), old(clients), handles, clients)
    {
      hide *;
      NothingLeaving(this);
      Parts(this, None);
      HeldAll(handles, clients);
      ghost var before := table.m;
      var r := table.Remove(key, h);
      if r.Some? {
        InTable(handles, before, None, key);
        RefsAre(handles, clients, nextId, r.value);
        LeavesTable(handles, before, key);
        FreedIs(clients, r.value);
        Assemble(this, Some(r.value));
        FinishErase(r.value);
      } else {
        NothingRemoved(before, key);
        Assemble(this, None);
      }
    }

    /** Drop the least recently used unreferenced handle. */
    method EvictOldest()
      requires Valid() && lru != []
      modifies this`handles, this`clients, this`lru, this`inUse, this`deleted, this`usage, table
      ensures Valid() && lru == old(lru)[1..] && inUse == old(inUse)
      ensures old(lru)[0] in old(handles) && table.m == old(table.m) - {old(handles)[old(lru)[0]].key}
      ensures handles == old(handles) - {old(lru)[0]} && deleted == old(deleted) + [old(lru)[0]] && clients == old(clients) - {old(lru)[0]}
      ensures usage + old(handles)[old(lru)[0]].charge == old(usage) && HeldKept(old(handles), old(clients), handles, clients)
    {
      hide *;
      NothingLeaving(this);
      Parts(this, None);
      var id := lru[0];
      OnLru(handles, lru, inUse, table.m, id);
      RefsAre(handles, clients, nextId, id);
      HashIs(table.hash, handles, id);
      ghost var before := table.m;
      var r := table.Remove(handles[id].key, handles[id].hash);
      LeavesTable(handles, before, handles[id].key);
      Assemble(this, Some(id));
      OldestUnlinked(handles, lru, inUse);
      FinishErase(id);
    }

    /** Insert a handle for the caller; a cached handle with the same key leaves.  Then evict unreferenced handles,
        oldest first, just until the charge fits.  Nothing else is deleted, and what clients hold they keep. */
    method Insert(key: Bytes, h: nat, value: Bytes, charge: nat) returns (id: nat, ghost evicted: nat)
      requires Valid() && h == table.hash(key)
      modifies this`handles, this`clients, this`lru, this`inUse, this`deleted, this`usage, this`nextId, table
      ensures Valid() && id == old(nextId) && id in handles && handles[id].key == key && handles[id].value == value
      ensures id in clients && clients[id] == 1 && handles[id].charge == charge
      ensures HeldKept(old(handles), old(clients), handles, clients) && SameOn(old(handles), handles, lru)
      ensures if capacity > 0 then key in table.m && table.m[key] == id else key !in table.m || table.m[key] != id
      ensures var replaced := if capacity > 0 && key in old(table.m) then Some(old(table.m)[key]) else None;
              var unused := if replaced.Some? then Without(old(lru), replaced.value) else old(lru);
              && evicted <= |unused| && lru == unused[evicted..]
              && inUse == (if capacity == 0 then old(inUse) else if replaced.Some? then Without(old(inUse) + [id], replaced.value) else old(inUse) + [id])
              && deleted == old(deleted) + Freed(old(clients), replaced) + unused[..evicted]
              && (usage <= capacity || lru == [])
              && (evicted > 0 ==> unused[evicted - 1] in old(handles) && usage + old(handles)[unused[evicted - 1]].charge > capacity)
    {
      hide *;
      ghost var before, members, m := handles, clients, table.m;
      MappedKnown(this, key);
      id := AddHandle(key, h, value, charge);
      AddKeeps(before, members, id, handles[id]);
      LruKnown(this, before, id);
      NewClient(members, m, key, id);
      NothingFreed(members);
      ghost var h1, c1 := handles, clients;
      if capacity > 0 {
        EnterCache(id);
        KeptTwice(before, members, h1, c1, handles, clients);
        SameOnTwice(before, h1, handles, old(lru), lru);
      }
      ghost var unused, h2, c2 := lru, handles, clients;
      evicted := EvictUntilFits(id);
      KeptTwice(before, members, h2, c2, handles, clients);
      SameAt(before, h2, unused, evicted);
      SameOnTwice(before, h2, handles, unused, lru);
      Findable(this, id);
    }

    /** Evict just until the charge fits; a handle in use, such as `id`, stays. */
    method EvictUntilFits(ghost id: nat) returns (ghost evicted: nat)
      requires Valid() && id in handles && id in clients && clients[id] == 1
      modifies this`handles, this`clients, this`lru, this`inUse, this`deleted, this`usage, table
      ensures Valid() && id in handles && handles[id] == old(handles)[id] && id in clients && clients[id] == 1
      ensures HeldKept(old(handles), old(clients), handles, clients)
      ensures evicted <= |old(lru)| && lru == old(lru)[evicted..] && deleted == old(deleted) + old(lru)[..evicted]
      ensures SameOn(old(handles), handles, lru) && inUse == old(inUse)
      ensures usage <= capacity || lru == []
      ensures evicted > 0 ==> old(lru)[evicted - 1] in old(handles) && usage + old(handles)[old(lru)[evicted - 1]].charge > capacity
    {
      hide *;
      ghost var unused, before, members := lru, handles, clients;
      evicted := 0;
      HeldAll(handles, clients);
      SameItself(this);
      assert unused[..0] == [] && unused[0..] == unused && deleted + [] == deleted;
      while usage > capacity && lru != []
        invariant Valid() && id in handles && handles[id] == before[id] && id in clients && clients[id] == 1
        invariant HeldKept(before, members, handles, clients) && SameOn(before, handles, lru) && inUse == old(inUse)
        invariant evicted <= |unused| && lru == unused[evicted..] && deleted == old(deleted) + unused[..evicted]
        invariant evicted > 0 ==> unused[evicted - 1] in before && usage + before[unused[evicted - 1]].charge > capacity
        decreases |lru|
      {
        NotOldest(this, id);
        MinusOther(handles, clients, lru[0], id);
        ghost var h1, c1 := handles, clients;
        OldestSame(before, handles, lru);
        LruDistinct(this);
        SameOnRest(before, handles, lru);
        assert unused[evicted..][0] == unused[evicted] && unused[evicted..][1..] == unused[evicted + 1..];
        assert old(deleted) + unused[..evicted] + [unused[evicted]] == old(deleted) + unused[..evicted + 1];
        EvictOldest();
        KeptTwice(before, members, h1, c1, handles, clients);
        evicted := evicted + 1;
      }
    }

    /** A new handle, held by the caller only. */
    method AddHandle(key: Bytes, h: nat, value: Bytes, charge: nat) returns (id: nat)
      requires Valid() && h == table.hash(key)
      modifies this`handles, this`clients, this`nextId
      ensures Valid() && id == old(nextId) && id !in old(handles)
      ensures handles == old(handles)[id := Handle(key, h, value, charge, false, 1)] && clients == old(clients)[id := 1]
    {
      hide *;
      NothingLeaving(this);
      Parts(this, None);
      id := nextId;
      var handle := Handle(key, h, value, charge, false, 1);
      Created(this, id, handle);
      handles, clients, nextId := handles[id := handle], clients[id := 1], nextId + 1;
      Assemble(this, None);
    }

    /** The cache takes a reference of its own; a handle with the same key leaves. */
    method EnterCache(id: nat)
      requires Valid() && id in handles && !handles[id].inCache && id in clients && clients[id] == 1
      modifies this`handles, this`clients, this`lru, this`inUse, this`deleted, this`usage, table
      ensures Valid() && id in handles && id in clients && clients[id] == 1
      ensures handles[id] == old(handles)[id].(inCache := true, refs := 2)
      ensures lru == if old(handles)[id].key in old(table.m) then Without(old(lru), old(table.m)[old(handles)[id].key]) else old(lru)
      ensures deleted == old(deleted) + Freed(old(clients), if old(handles)[id].key in old(table.m) then Some(old(table.m)[old(handles)[id].key]) else None)
      ensures HeldKept(old(handles), old(clients), handles, clients) && SameOn(old(handles), handles, lru)
      ensures inUse == if old(handles)[id].key in old(table.m) then Without(old(inUse) + [id], old(table.m)[old(handles)[id].key]) else old(inUse) + [id]
    {
      hide *;
      NothingLeaving(this);
      Parts(this, None);
      RefsAre(handles, clients, nextId, id);
      HashIs(table.hash, handles, id);
      var handle := handles[id].(inCache := true, refs := 2);
      ghost var before := table.m;
      if handle.key in before {
        InTable(handles, before, None, handle.key);
      }
      Entered(this, id, handle);
      OnLruKnown(handles, lru, inUse, id);
      EnterKeeps(handles, clients, lru, id, handle);
      NothingFreed(clients);
      var previous := table.Insert(id, handle.key, handle.hash);
      usage, inUse, handles := usage + handle.charge, inUse + [id], handles[id := handle];
      Assemble(this, previous);
      if previous.Some? {
        UpdatedAt(old(handles), id, handle, previous.value);
        MinusOther(handles, clients, previous.value, id);
        FinishErase(previous.value);
        KeptOther(old(handles)[id := handle], handles, old(clients), clients, previous.value, id);
        KeptTwice(old(handles), old(clients), old(handles)[id := handle], old(clients), handles, clients);
        SameOnWithout(old(handles), old(handles)[id := handle], handles, old(lru), previous.value);
        FreedIs(old(clients), previous.value);
      }
    }

    /** Drop every unreferenced handle, oldest first, and nothing else. */
    method Prune()
      requires Valid()
      modifies this`handles, this`clients, this`lru, this`inUse, this`deleted, this`usage, table
      ensures Valid() && lru == [] && inUse == old(inUse) && deleted == old(deleted) + old(lru)
      ensures HeldKept(old(handles), old(clients), handles, clients)
    {
      hide *;
      HeldAll(handles, clients);
      assert old(lru)[0..] == old(lru) && old(deleted) + old(lru)[..0] == old(deleted);
      ghost var n := 0;
      while lru != []
        invariant Valid() && inUse == old(inUse) && HeldKept(old(handles), old(clients), handles, clients)
        invariant n <= |old(lru)| && lru == old(lru)[n..] && deleted == old(deleted) + old(lru)[..n]
        decreases |lru|
      {
        ghost var h1, c1 := handles, clients;
        assert old(lru)[n..][1..] == old(lru)[n + 1..];
        assert old(deleted) + old(lru)[..n] + [old(lru)[n]] == old(deleted) + old(lru)[..n + 1];
        EvictOldest();
        KeptTwice(old(handles), old(clients), h1, c1, handles, clients);
        n := n + 1;
      }
    }
  }

  // ------------------------------------------------------------------------------- what is kept

  /** Every handle that a client holds is still there, with the same key and value and as many references. */
  ghost predicate HeldKept(handles: map<nat, Handle>, clients: map<nat, nat>, handles': map<nat, Handle>, clients': map<nat, nat>) {
    forall c :: c in handles && c in clients && clients[c] >= 1 ==>
      && c in handles' && handles'[c].key == handles[c].key && handles'[c].value == handles[c].value
      && c in clients' && clients'[c] == clients[c]
  }

  lemma HeldAll(handles: map<nat, Handle>, clients: map<nat, nat>)
    ensures HeldKept(handles, clients, handles, clients)
  {
  }

  lemma KeptTwice(h0: map<nat, Handle>, c0: map<nat, nat>, h1: map<nat, Handle>, c1: map<nat, nat>, h2: map<nat, Handle>, c2: map<nat, nat>)
    requires HeldKept(h0, c0, h1, c1) && HeldKept(h1, c1, h2, c2)
    ensures HeldKept(h0, c0, h2, c2)
  {
  }

  lemma EraseKeeps(handles: map<nat, Handle>, clients: map<nat, nat>, id: nat, h: Handle)
    requires id in handles && id in clients && h == handles[id].(inCache := false, refs := h.refs)
    ensures HeldKept(handles, clients, handles[id := h], clients)
    ensures clients[id] == 0 ==> HeldKept(handles, clients, handles - {id}, clients - {id})
  {
  }

  lemma AddKeeps(handles: map<nat, Handle>, clients: map<nat, nat>, id: nat, h: Handle)
    requires id !in handles
    ensures HeldKept(handles, clients, handles[id := h], clients[id := 1])
  {
  }

  /** The handles on a list are as they were. */
  ghost predicate SameOn(handles: map<nat, Handle>, handles': map<nat, Handle>, ids: seq<nat>) {
    forall x :: x in ids ==> x in handles && x in handles' && handles'[x] == handles[x]
  }

  lemma SameOnTwice(h0: map<nat, Handle>, h1: map<nat, Handle>, h2: map<nat, Handle>, ids: seq<nat>, ids': seq<nat>)
    requires SameOn(h0, h1, ids) && SameOn(h1, h2, ids') && forall x :: x in ids' ==> x in ids
    ensures SameOn(h0, h2, ids')
  {
  }

  lemma SameOnRest(handles: map<nat, Handle>, handles': map<nat, Handle>, ids: seq<nat>)
    requires SameOn(handles, handles', ids) && NoDuplicates(ids) && ids != []
    ensures SameOn(handles, handles' - {ids[0]}, ids[1..])
  {
  }

  lemma SameOnWithout(h0: map<nat, Handle>, h1: map<nat, Handle>, h2: map<nat, Handle>, ids: seq<nat>, id: nat)
    requires SameOn(h0, h1, ids) && h2 - {id} == h1 - {id}
    ensures SameOn(h0, h2, Without(ids, id))
  {
    forall x | x in Without(ids, id) ensures x in h2 && h2[x] == h1[x] {
      assert x in h1 - {id} && (h1 - {id})[x] == h1[x];
      assert (h2 - {id})[x] == h2[x];
    }
  }

  lemma SameItself(c: LRUCache)
    requires c.Valid()
    ensures SameOn(c.handles, c.handles, c.lru)
  {
    hide RefsOk, TableOk, DeletedOk, Usage, HashesOk, NoDuplicates, OrderOk;
  }

  lemma SameAt(handles: map<nat, Handle>, handles': map<nat, Handle>, ids: seq<nat>, n: nat)
    requires SameOn(handles, handles', ids) && n <= |ids|
    ensures n > 0 ==> ids[n - 1] in handles && ids[n - 1] in handles' && handles'[ids[n - 1]] == handles[ids[n - 1]]
  {
    assert n > 0 ==> ids[n - 1] in ids;
  }

  lemma MappedKnown(c: LRUCache, key: Bytes)
    requires c.Valid()
    ensures key in c.table.m ==> c.table.m[key] in c.handles
  {
    hide RefsOk, ListsOk, DeletedOk, Usage, HashesOk, OrderOk;
  }

  lemma OldestSame(handles: map<nat, Handle>, handles': map<nat, Handle>, ids: seq<nat>)
    requires SameOn(handles, handles', ids) && ids != []
    ensures ids[0] in handles && ids[0] in handles' && handles'[ids[0]] == handles[ids[0]]
  {
    assert ids[0] in ids;
  }

  lemma LruDistinct(c: LRUCache)
    requires c.Valid()
    ensures NoDuplicates(c.lru)
  {
    hide RefsOk, TableOk, DeletedOk, Usage, HashesOk, NoDuplicates, OrderOk;
  }

  /** A new handle is not on the LRU list. */
  lemma LruKnown(c: LRUCache, handles: map<nat, Handle>, id: nat)
    requires c.Valid() && id !in handles && id in c.handles && !c.handles[id].inCache && c.handles == handles[id := c.handles[id]]
    ensures SameOn(handles, c.handles, c.lru)
  {
    hide RefsOk, TableOk, DeletedOk, Usage, HashesOk, NoDuplicates, OrderOk;
  }

  lemma OnLruKnown(handles: map<nat, Handle>, lru: seq<nat>, inUse: seq<nat>, id: nat)
    requires ListsOk(handles, lru, inUse) && id in handles && !handles[id].inCache
    ensures id !in lru && forall x :: x in lru ==> x in handles
  {
    hide NoDuplicates;
  }

  lemma EnterKeeps(handles: map<nat, Handle>, clients: map<nat, nat>, lru: seq<nat>, id: nat, h: Handle)
    requires id in handles && id !in lru && (forall x :: x in lru ==> x in handles) && h == handles[id].(inCache := true, refs := 2)
    ensures HeldKept(handles, clients, handles[id := h], clients) && SameOn(handles, handles[id := h], lru)
  {
  }

  /** A replaced handle is deleted if no client holds it. */
  ghost function Freed(clients: map<nat, nat>, replaced: Option<nat>): seq<nat> {
    if replaced.Some? && replaced.value in clients && clients[replaced.value] == 0 then [replaced.value] else []
  }

  lemma NothingFreed(clients: map<nat, nat>)
    ensures Freed(clients, None) == []
  {
  }

  lemma FreedIs(clients: map<nat, nat>, id: nat)
    ensures Freed(clients, Some(id)) == if id in clients && clients[id] == 0 then [id] else []
  {
  }

  lemma NewClient(clients: map<nat, nat>, m: map<Bytes, nat>, key: Bytes, id: nat)
    requires key in m ==> m[key] != id
    ensures key in m ==> Freed(clients[id := 1], Some(m[key])) == Freed(clients, Some(m[key]))
    ensures Freed(clients[id := 1], None) == Freed(clients, None)
  {
  }

  /** Everything but the lists, when a handle's reference count changes. */
  lemma HandleUpdated(c: LRUCache, id: nat, h: Handle, n: nat)
    requires c.Valid() && id in c.handles && h == c.handles[id].(refs := h.refs) && h.refs >= 1 && h.refs == n + if h.inCache then 1 else 0
    ensures RefsOk(c.handles[id := h], c.clients[id := n], c.nextId) && TableOk(c.handles[id := h], c.table.m, None)
    ensures DeletedOk(c.handles[id := h], c.deleted, c.nextId) && c.usage == Usage(c.handles[id := h])
    ensures HashesOk(c.table.hash, c.handles[id := h])
  {
    hide *;
    NothingLeaving(c);
    Parts(c, None);
    RefsUpdated(c.handles, c.clients, c.nextId, id, h, n);
    TableUpdated(c.handles, c.table.m, None, id, h);
    HandleChanged(c.handles, id, h, c.deleted, c.nextId);
    UsageUpdated(c.handles, id, h);
    SameCharge(c.handles[id], h);
    HashIs(c.table.hash, c.handles, id);
    HashesUpdated(c.table.hash, c.handles, id, h);
  }

  lemma SameCharge(h: Handle, h': Handle)
    requires h' == h.(refs := h'.refs)
    ensures h.Cached() == h'.Cached()
  {
  }

  /** A handle outside the cache loses its last reference. */
  lemma HandleGone(c: LRUCache, id: nat)
    requires c.Valid() && id in c.handles && !c.handles[id].inCache
    ensures RefsOk(c.handles - {id}, c.clients - {id}, c.nextId) && TableOk(c.handles - {id}, c.table.m, None)
    ensures DeletedOk(c.handles - {id}, c.deleted + [id], c.nextId) && c.usage == Usage(c.handles - {id})
    ensures HashesOk(c.table.hash, c.handles - {id}) && ListsOk(c.handles - {id}, c.lru, c.inUse)
  {
    hide *;
    NothingLeaving(c);
    Parts(c, None);
    RefsRemoved(c.handles, c.clients, c.nextId, id);
    TableFreed(c.handles, c.table.m, id);
    HandleFreed(c.handles, id, c.deleted, c.nextId);
    UsageWithout(c.handles, id);
    NotCharged(c.handles[id]);
    HashesRemoved(c.table.hash, c.handles, id);
    SetMinusTwice(c.handles, id);
    ListRemoved(c.handles, c.lru, c.inUse, id, c.handles - {id});
    NotListed(c.handles, c.lru, c.inUse, id);
  }

  lemma NotCharged(h: Handle)
    requires !h.inCache
    ensures h.Cached() == 0
  {
  }

  lemma SetMinusTwice(handles: map<nat, Handle>, id: nat)
    ensures (handles - {id}) - {id} == handles - {id} && id !in handles - {id}
  {
  }

  lemma NotListed(handles: map<nat, Handle>, lru: seq<nat>, inUse: seq<nat>, id: nat)
    requires ListsOk(handles, lru, inUse) && id in handles && !handles[id].inCache
    ensures Without(lru, id) == lru && Without(inUse, id) == inUse
  {
    AbsentStays(lru, id);
    AbsentStays(inUse, id);
  }

  lemma {:induction false} AbsentStays(s: seq<nat>, id: nat)
    requires id !in s
    ensures Without(s, id) == s
  {
    if s != [] {
      AbsentStays(s[1..], id);
    }
  }

  // ------------------------------------------------------------------------------- erasing

  lemma InTable(handles: map<nat, Handle>, m: map<Bytes, nat>, leaving: Option<nat>, key: Bytes)
    requires TableOk(handles, m, leaving) && key in m
    ensures m[key] in handles && handles[m[key]].inCache && handles[m[key]].key == key
  {
  }

  lemma LeavesTable(handles: map<nat, Handle>, m: map<Bytes, nat>, key: Bytes)
    requires TableOk(handles, m, None) && key in m
    ensures TableOk(handles, m - {key}, Some(m[key]))
  {
  }

  lemma NothingRemoved(m: map<Bytes, nat>, key: Bytes)
    requires key !in m
    ensures m - {key} == m
  {
  }

  lemma OnLru(handles: map<nat, Handle>, lru: seq<nat>, inUse: seq<nat>, m: map<Bytes, nat>, id: nat)
    requires ListsOk(handles, lru, inUse) && TableOk(handles, m, None) && id in lru
    ensures id in handles && handles[id].inCache && handles[id].refs == 1 && id !in inUse
    ensures handles[id].key in m && m[handles[id].key] == id
  {
  }

  lemma OldestUnlinked(handles: map<nat, Handle>, lru: seq<nat>, inUse: seq<nat>)
    requires ListsOk(handles, lru, inUse) && lru != []
    ensures Without(lru, lru[0]) == lru[1..] && Without(inUse, lru[0]) == inUse
  {
    assert lru[0] in lru && lru[0] !in inUse;
    assert lru[0] !in lru[1..];
    AbsentStays(lru[1..], lru[0]);
    AbsentStays(inUse, lru[0]);
  }

  lemma TableErased(handles: map<nat, Handle>, m: map<Bytes, nat>, id: nat, h: Handle)
    requires TableOk(handles, m, Some(id)) && id in handles && !h.inCache
    ensures TableOk(handles[id := h], m, None) && TableOk(handles - {id}, m, None)
  {
  }

  /** Everything, when a handle leaves the cache: it is freed if no client holds it. */
  lemma Erased(c: LRUCache, id: nat, h: Handle)
    requires c.ValidBut(Some(id)) && id in c.handles && c.handles[id].inCache && id in c.clients && c.handles[id].refs >= 1
    requires h == c.handles[id].(inCache := false, refs := c.handles[id].refs - 1)
    ensures c.usage >= c.handles[id].charge
    ensures var lru, inUse, usage := Without(c.lru, id), Without(c.inUse, id), c.usage - c.handles[id].charge;
            if h.refs == 0 then
              var handles := c.handles - {id};
              && RefsOk(handles, c.clients - {id}, c.nextId) && TableOk(handles, c.table.m, None) && ListsOk(handles, lru, inUse)
              && DeletedOk(handles, c.deleted + [id], c.nextId) && usage == Usage(handles) && HashesOk(c.table.hash, handles)
            else
              var handles := c.handles[id := h];
              && RefsOk(handles, c.clients, c.nextId) && TableOk(handles, c.table.m, None) && ListsOk(handles, lru, inUse)
              && DeletedOk(handles, c.deleted, c.nextId) && usage == Usage(handles) && HashesOk(c.table.hash, handles)
  {
    hide *;
    Parts(c, Some(id));
    RefsAre(c.handles, c.clients, c.nextId, id);
    TableErased(c.handles, c.table.m, id, h);
    HashIs(c.table.hash, c.handles, id);
    Charged(c.handles[id]);
    UsageWithout(c.handles, id);
    if h.refs == 0 {
      RefsRemoved(c.handles, c.clients, c.nextId, id);
      HandleFreed(c.handles, id, c.deleted, c.nextId);
      HashesRemoved(c.table.hash, c.handles, id);
      SetMinusTwice(c.handles, id);
      ListRemoved(c.handles, c.lru, c.inUse, id, c.handles - {id});
    } else {
      RefsUpdated(c.handles, c.clients, c.nextId, id, h, c.clients[id]);
      SameClient(c.clients, id);
      HandleChanged(c.handles, id, h, c.deleted, c.nextId);
      HashesUpdated(c.table.hash, c.handles, id, h);
      UsageUpdated(c.handles, id, h);
      NotCharged(h);
      UpdateMinus(c.handles, id, h);
      ListRemoved(c.handles, c.lru, c.inUse, id, c.handles[id := h]);
    }
  }

  lemma Charged(h: Handle)
    requires h.inCache
    ensures h.Cached() == h.charge
  {
  }

  lemma SameClient(clients: map<nat, nat>, id: nat)
    requires id in clients
    ensures clients[id := clients[id]] == clients
  {
  }

  lemma UpdateMinus(handles: map<nat, Handle>, id: nat, h: Handle)
    ensures handles[id := h] - {id} == handles - {id} && handles[id := h][id] == h && id in handles[id := h]
  {
  }

  // ------------------------------------------------------------------------------ inserting

  /** A new, uncached handle. */
  lemma Created(c: LRUCache, id: nat, h: Handle)
    requires c.Valid() && id == c.nextId && !h.inCache && h.refs == 1 && h.hash == c.table.hash(h.key)
    ensures id !in c.handles && RefsOk(c.handles[id := h], c.clients[id := 1], id + 1) && TableOk(c.handles[id := h], c.table.m, None)
    ensures ListsOk(c.handles[id := h], c.lru, c.inUse) && DeletedOk(c.handles[id := h], c.deleted, id + 1)
    ensures c.usage == Usage(c.handles[id := h]) && HashesOk(c.table.hash, c.handles[id := h])
  {
    hide *;
    NothingLeaving(c);
    Parts(c, None);
    NewRefs(c.handles, c.clients, id, h);
    NewTable(c.handles, c.table.m, id, h);
    NewLists(c.handles, c.lru, c.inUse, id, h);
    NewDeleted(c.handles, c.deleted, id, h);
    UsageUpdated(c.handles, id, h);
    NotCharged(h);
    HashesUpdated(c.table.hash, c.handles, id, h);
  }

  lemma NewRefs(handles: map<nat, Handle>, clients: map<nat, nat>, id: nat, h: Handle)
    requires RefsOk(handles, clients, id) && !h.inCache && h.refs == 1
    ensures id !in handles && RefsOk(handles[id := h], clients[id := 1], id + 1)
  {
  }

  lemma NewTable(handles: map<nat, Handle>, m: map<Bytes, nat>, id: nat, h: Handle)
    requires TableOk(handles, m, None) && id !in handles && !h.inCache
    ensures TableOk(handles[id := h], m, None)
  {
  }

  lemma NewLists(handles: map<nat, Handle>, lru: seq<nat>, inUse: seq<nat>, id: nat, h: Handle)
    requires ListsOk(handles, lru, inUse) && id !in handles && !h.inCache
    ensures ListsOk(handles[id := h], lru, inUse)
  {
  }

  lemma NewDeleted(handles: map<nat, Handle>, deleted: seq<nat>, id: nat, h: Handle)
    requires DeletedOk(handles, deleted, id)
    ensures DeletedOk(handles[id := h], deleted, id + 1)
  {
  }

  /** The handle enters the cache under its key. */
  lemma Entered(c: LRUCache, id: nat, h: Handle)
    requires c.Valid() && id in c.handles && !c.handles[id].inCache && id in c.clients && c.clients[id] == 1
    requires h == c.handles[id].(inCache := true, refs := 2)
    ensures var handles := c.handles[id := h];
            && RefsOk(handles, c.clients, c.nextId) && ListsOk(handles, c.lru, c.inUse + [id]) && DeletedOk(handles, c.deleted, c.nextId)
            && c.usage + h.charge == Usage(handles) && HashesOk(c.table.hash, handles)
            && TableOk(handles, c.table.m[h.key := id], if h.key in c.table.m then Some(c.table.m[h.key]) else None)
            && (h.key in c.table.m ==> c.table.m[h.key] != id)
  {
    hide *;
    NothingLeaving(c);
    Parts(c, None);
    RefsUpdated(c.handles, c.clients, c.nextId, id, h, 1);
    SameClient(c.clients, id);
    EnterLists(c.handles, c.lru, c.inUse, id, h);
    EnterTable(c.handles, c.table.m, id, h);
    HandleChanged(c.handles, id, h, c.deleted, c.nextId);
    UsageUpdated(c.handles, id, h);
    NotCharged(c.handles[id]);
    Charged(h);
    HashIs(c.table.hash, c.handles, id);
    HashesUpdated(c.table.hash, c.handles, id, h);
  }

  lemma EnterLists(handles: map<nat, Handle>, lru: seq<nat>, inUse: seq<nat>, id: nat, h: Handle)
    requires ListsOk(handles, lru, inUse) && id in handles && !handles[id].inCache && h.inCache && h.refs == 2
    ensures ListsOk(handles[id := h], lru, inUse + [id])
  {
    assert id !in inUse;
  }

  lemma EnterTable(handles: map<nat, Handle>, m: map<Bytes, nat>, id: nat, h: Handle)
    requires TableOk(handles, m, None) && id in handles && !handles[id].inCache && h.inCache && h.key == handles[id].key
    ensures TableOk(handles[id := h], m[h.key := id], if h.key in m then Some(m[h.key]) else None)
    ensures h.key in m ==> m[h.key] != id
  {
  }

  lemma UpdatedAt(handles: map<nat, Handle>, id: nat, h: Handle, other: nat)
    requires other in handles && other != id
    ensures other in handles[id := h] && handles[id := h][other] == handles[other] && handles[id := h][id] == h
  {
  }

  lemma MinusOther(handles: map<nat, Handle>, clients: map<nat, nat>, id: nat, other: nat)
    requires id != other
    ensures other in handles ==> other in handles - {id} && (handles - {id})[other] == handles[other]
    ensures other in clients ==> other in clients - {id} && (clients - {id})[other] == clients[other]
  {
  }

  lemma KeptOther(h: map<nat, Handle>, h': map<nat, Handle>, c: map<nat, nat>, c': map<nat, nat>, id: nat, other: nat)
    requires id != other && h' - {id} == h - {id} && c' - {id} == c - {id} && other in h && other in c
    ensures other in h' && h'[other] == h[other] && other in c' && c'[other] == c[other]
  {
    assert other in h - {id} && (h' - {id})[other] == (h - {id})[other];
    assert other in c - {id} && (c' - {id})[other] == (c - {id})[other];
  }

  /** A handle that a client holds is not on the LRU list. */
  lemma NotOldest(c: LRUCache, id: nat)
    requires c.Valid() && id in c.handles && id in c.clients && c.clients[id] >= 1 && c.lru != []
    ensures c.lru[0] != id
  {
    hide *;
    NothingLeaving(c);
    Parts(c, None);
    OnLru(c.handles, c.lru, c.inUse, c.table.m, c.lru[0]);
    RefsAre(c.handles, c.clients, c.nextId, id);
  }

  lemma Findable(c: LRUCache, id: nat)
    requires c.Valid() && id in c.handles
    ensures c.handles[id].inCache <==> c.handles[id].key in c.table.m && c.table.m[c.handles[id].key] == id
  {
    hide RefsOk, ListsOk, DeletedOk, Usage, HashesOk, OrderOk;
  }
}
