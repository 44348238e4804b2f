/** The pool cache itself: a list of entries and a map into it, changed under one
    lock. Each method is one critical section. */
module PoolCaching {
  import opened Basics
  import opened Pools

  class PooledEntry {
    const id: TenantId
    const pool: Pool
    var lastUsed: Time

    constructor (id: TenantId, pool: Pool, lastUsed: Time)
      ensures this.id == id && this.pool == pool && this.lastUsed == lastUsed
    {
      this.id, this.pool, this.lastUsed := id, pool, lastUsed;
    }

    ghost predicate Holds(s: Slot)
      reads this
    {
      id == s.id && pool == s.pool && lastUsed == s.lastUsed
    }
  }

  ghost function Ids(slots: seq<Slot>): set<TenantId> {
    set s | s in slots :: s.id
  }

  lemma IdsAt(slots: seq<Slot>, id: TenantId)
    ensures id in Ids(slots) <==> exists i :: 0 <= i < |slots| && slots[i].id == id
  {
    if i :| 0 <= i < |slots| && slots[i].id == id { assert slots[i] in slots; }
  }

  lemma IdsWithout(slots: seq<Slot>, i: nat)
    requires i < |slots| && IdsDistinct(slots)
    ensures IdsDistinct(Without(slots, i)) && Ids(Without(slots, i)) == Ids(slots) - {slots[i].id}
  {
    var rest := Without(slots, i);
    assert forall j :: 0 <= j < |rest| ==> rest[j] == if j < i then slots[j] else slots[j + 1];
    forall a, b | SameId(rest, a, b) ensures a == b {
      assert SameId(slots, if a < i then a else a + 1, if b < i then b else b + 1);
    }
    forall id ensures id in Ids(rest) <==> id in Ids(slots) && id != slots[i].id {
      IdsAt(rest, id);
      IdsAt(slots, id);
      if j :| 0 <= j < |slots| && slots[j].id == id {
        if j != i { assert rest[if j < i then j else j - 1].id == id; }
      }
      if j :| 0 <= j < |rest| && rest[j].id == id {
        var k := if j < i then j else j + 1;
        assert slots[k].id == id && (SameId(slots, k, i) <==> id == slots[i].id);
      }
    }
  }

  lemma IdsPushed(slots: seq<Slot>, slot: Slot)
    requires IdsDistinct(slots) && slot.id !in Ids(slots)
    ensures IdsDistinct([slot] + slots) && Ids([slot] + slots) == Ids(slots) + {slot.id}
  {
    forall i | 0 <= i < |slots| ensures slots[i].id != slot.id { IdsAt(slots, slot.id); }
    assert ([slot] + slots)[0] == slot;
    assert forall j :: 0 < j < |[slot] + slots| ==> ([slot] + slots)[j] == slots[j - 1];
    forall i, j | SameId([slot] + slots, i, j) ensures i == j {
      if i > 0 && j > 0 { assert SameId(slots, i - 1, j - 1); }
    }
    forall s | s in slots ensures s in [slot] + slots {}
  }

  lemma CappedStep(slots: seq<Slot>, max: nat)
    requires |slots| > max
    ensures var init := slots[..|slots| - 1];
      Capped(init, max) == Capped(slots, max) && Evicted(slots, max) == [slots[|slots| - 1].pool] + Evicted(init, max)
  {
    assert slots[..|slots| - 1][..max] == slots[..max];
  }

  /** One turn of the sweep loop, before and after. */
  lemma SweepStep(start: seq<Slot>, slots: seq<Slot>, i: nat, cutoff: Time)
    requires 0 < i <= |start| && i <= |slots| && slots[..i] == start[..i]
    ensures slots[i - 1] == start[i - 1] && slots[..i - 1] == start[..i - 1]
    ensures Without(slots, i - 1)[..i - 1] == start[..i - 1] && Without(slots, i - 1)[i - 1..] == slots[i..]
    ensures slots[i - 1..] == [slots[i - 1]] + slots[i..]
    ensures var old', last := start[..i - 1], start[i - 1];
      && SweptSlots(start[..i], cutoff) == SweptSlots(old', cutoff) + (if last.lastUsed < cutoff then [] else [last])
      && SweptPools(start[..i], cutoff)
         == (if last.lastUsed < cutoff then [last.pool] else []) + SweptPools(old', cutoff)
  {
    assert slots[i - 1] == slots[..i][i - 1] == start[..i][i - 1];
    assert slots[..i - 1] == slots[..i][..i - 1] == start[..i][..i - 1];
    assert start[..i][..i - 1] == start[..i - 1];
  }

  class PoolCache {
    const maxPools: nat
    const idleTTL: Time
    var ll: seq<PooledEntry>         // front is the most recently used
    var items: map<TenantId, PooledEntry>
    var closed: seq<Pool>            // every Close() issued, in order
    ghost var slots: seq<Slot>       // the list's contents

    /** List and map are a bijection, one entry per tenant. */
    ghost predicate Valid()
      reads this`ll, this`items, this`slots, ll
    {
      && maxPools > 0
      && |ll| == |slots| && IdsDistinct(slots) && items.Keys == Ids(slots)
      && forall i {:trigger Linked(i)} :: 0 <= i < |ll| ==> Linked(i)
    }

    ghost predicate Linked(i: int)
      reads this`ll, this`items, this`slots, ll
    {
      && 0 <= i < |ll| && i < |slots|
      && ll[i].Holds(slots[i]) && slots[i].id in items && items[slots[i].id] == ll[i]
    }

    constructor (maxPools: int, idleTTL: Time)
      ensures Valid() && slots == [] && closed == []
      ensures this.maxPools == NewConfig(maxPools, idleTTL).maxPools
      ensures this.idleTTL == NewConfig(maxPools, idleTTL).idleTTL
    {
      var c := NewConfig(maxPools, idleTTL);
      this.maxPools, this.idleTTL := c.maxPools, c.idleTTL;
      ll, items, closed, slots := [], map[], [], [];
    }

    method PositionOf(id: TenantId) returns (i: nat)
      requires Valid() && id in items
      ensures i < |ll| && ll[i] == items[id] && slots[i].id == id && IndexOf(slots, id) == Some(i)
    {
      IdsAt(slots, id);
      ghost var k :| 0 <= k < |slots| && slots[k].id == id;
      assert Linked(k) && IndexOf(slots, id).Some?;
      assert SameId(slots, IndexOf(slots, id).value, k);
      i := 0;
      while ll[i] != items[id]
        invariant i <= k
        invariant forall j :: 0 <= j < i ==> ll[j] != items[id]
        decreases k - i
      {
        i := i + 1;
      }
      assert Linked(i) && SameId(slots, i, k);
    }

    lemma NotListed(id: TenantId)
      requires Valid() && id !in items
      ensures IndexOf(slots, id).None?
    {
      IdsAt(slots, id);
    }

    /** removeLocked: unlink, forget and close the entry at `i`. */
    method RemoveAt(i: nat)
      requires Valid() && i < |ll|
      modifies this`ll, this`items, this`closed, this`slots
      ensures Valid() && slots == Without(old(slots), i)
      ensures ll == old(ll)[..i] + old(ll)[i + 1..]
      ensures closed == old(closed) + [old(slots)[i].pool]
    {
      IdsWithout(slots, i);
      var e := ll[i];
      assert Linked(i);
      ll := ll[..i] + ll[i + 1..];
      slots := Without(slots, i);
      items := items - {e.id};
      closed := closed + [e.pool];
      forall j | 0 <= j < |ll| ensures Linked(j) {
        var k := if j < i then j else j + 1;
        assert old(Linked(k)) && !SameId(old(slots), k, i);
        assert ll[j] == old(ll)[k] && slots[j] == old(slots)[k];
      }
    }

    /** Stamp and move to front. */
    method Use(id: TenantId, now: Time) returns (pool: Pool)
      requires Valid() && id in items
      modifies this`ll, this`slots, items[id]
      ensures Valid() && IndexOf(old(slots), id).Some?
      ensures var i := IndexOf(old(slots), id).value;
        i < |old(slots)| && slots == Touched(old(slots), i, now) && pool == old(slots)[i].pool
      ensures slots != [] && slots[0] == Slot(id, pool, now)
    {
      var i := PositionOf(id);
      var e := ll[i];
      assert Linked(i);
      IdsWithout(slots, i);
      IdsPushed(Without(slots, i), slots[i].(lastUsed := now));
      e.lastUsed := now;
      ll := [e] + (ll[..i] + ll[i + 1..]);
      slots := Touched(slots, i, now);
      pool := e.pool;
      forall j | 0 <= j < |ll| ensures Linked(j) {
        if j > 0 {
          var k := if j <= i then j - 1 else j;
          assert old(Linked(k)) && !SameId(old(slots), k, i);
          assert ll[j] == old(ll)[k] && slots[j] == old(slots)[k];
        }
      }
    }

    /** get's first critical section. */
    method Lookup(id: TenantId, now: Time) returns (pool: Option<Pool>)
      requires Valid()
      modifies this`ll, this`slots, ll
      ensures Valid() && pool.Some? == IndexOf(old(slots), id).Some?
      ensures match IndexOf(old(slots), id)
        case None => slots == old(slots)
        case Some(i) => i < |old(slots)| && slots == Touched(old(slots), i, now) && pool == Some(old(slots)[i].pool)
      ensures pool.Some? ==> slots != [] && slots[0] == Slot(id, pool.value, now)
    {
      if id in items {
        ghost var i := PositionOf(id);
        var p := Use(id, now);
        return Some(p);
      }
      NotListed(id);
      return None;
    }

    method RemoveBack()
      requires Valid() && |ll| > 0
      modifies this`ll, this`items, this`closed, this`slots
      ensures Valid() && slots == old(slots)[..|old(slots)| - 1]
      ensures closed == old(closed) + [old(slots)[|old(slots)| - 1].pool]
      ensures ll == old(ll)[..|old(ll)| - 1]
    {
      assert Without(slots, |ll| - 1) == slots[..|ll| - 1];
      RemoveAt(|ll| - 1);
    }

    /** evictOverCapLocked. */
    method EvictOverCap()
      requires Valid()
      modifies this`ll, this`items, this`closed, this`slots
      ensures Valid()
      ensures slots == Capped(old(slots), maxPools)
      ensures closed == old(closed) + Evicted(old(slots), maxPools)
    {
      ghost var start := slots;
      while |ll| > maxPools
        invariant Valid() && Capped(slots, maxPools) == Capped(start, maxPools)
        invariant closed + Evicted(slots, maxPools) == old(closed) + Evicted(start, maxPools)
        decreases |ll|
      {
        CappedStep(slots, maxPools);
        RemoveBack();
      }
    }

    method PushFront(id: TenantId, pool: Pool, now: Time)
      requires Valid() && id !in items
      modifies this`ll, this`items, this`slots
      ensures Valid() && slots == [Slot(id, pool, now)] + old(slots)
    {
      var e := new PooledEntry(id, pool, now);
      IdsPushed(slots, Slot(id, pool, now));
      ll := [e] + ll;
      slots := [Slot(id, pool, now)] + slots;
      items := items[id := e];
      forall j | 0 <= j < |ll| ensures Linked(j) {
        if j > 0 {
          assert old(Linked(j - 1)) && ll[j] == old(ll)[j - 1] && slots[j] == old(slots)[j - 1];
          IdsAt(old(slots), id);
        }
      }
    }

    /** Another caller's pool is cached: use it and close ours. */
    method Discard(id: TenantId, pool: Pool, now: Time) returns (kept: Pool)
      requires Valid() && id in items
      modifies this`ll, this`slots, this`closed, ll
      ensures Valid() && IndexOf(old(slots), id).Some? && closed == old(closed) + [pool]
      ensures var i := IndexOf(old(slots), id).value;
        i < |old(slots)| && kept == old(slots)[i].pool && slots == Touched(old(slots), i, now)
    {
      ghost var i := PositionOf(id);
      kept := Use(id, now);
      closed := closed + [pool];
    }

    /** No pool is cached: keep ours, and evict over the cap. */
    method Keep(id: TenantId, pool: Pool, now: Time)
      requires Valid() && id !in items
      modifies this`ll, this`items, this`slots, this`closed
      ensures Valid() && IndexOf(old(slots), id).None?
      ensures slots == Capped([Slot(id, pool, now)] + old(slots), maxPools)
      ensures closed == old(closed) + Evicted([Slot(id, pool, now)] + old(slots), maxPools)
    {
      NotListed(id);
      PushFront(id, pool, now);
      EvictOverCap();
    }

    /** get's second critical section: keep the pool dialled outside the lock, or
        close it when another caller's is already cached. */
    method Install(id: TenantId, pool: Pool, now: Time) returns (kept: Pool)
      requires Valid()
      modifies this, ll
      ensures Valid()
      ensures match IndexOf(old(slots), id)
        case Some(i) =>
          && i < |old(slots)| && kept == old(slots)[i].pool
          && slots == Touched(old(slots), i, now) && closed == old(closed) + [pool]
        case None =>
          var pushed := [Slot(id, pool, now)] + old(slots);
          kept == pool && slots == Capped(pushed, maxPools) && closed == old(closed) + Evicted(pushed, maxPools)
      ensures slots != [] && slots[0] == Slot(id, kept, now)
    {
      if id in items {
        kept := Discard(id, pool, now);
      } else {
        Keep(id, pool, now);
        kept := pool;
      }
    }

    /** close: evict one tenant. */
    method Close(id: TenantId)
      requires Valid()
      modifies this`ll, this`items, this`closed, this`slots
      ensures Valid()
      ensures match IndexOf(old(slots), id)
        case None => slots == old(slots) && closed == old(closed)
        case Some(i) =>
          && i < |old(slots)| && slots == Without(old(slots), i)
          && closed == old(closed) + [old(slots)[i].pool]
    {
      if id in items {
        var i := PositionOf(id);
        RemoveAt(i);
      } else {
        NotListed(id);
      }
    }

    /** One entry of the sweep. */
    method SweepAt(i: nat, cutoff: Time)
      requires Valid() && i < |ll|
      modifies this`ll, this`items, this`closed, this`slots
      ensures Valid()
      ensures old(slots)[i].lastUsed < cutoff ==>
        slots == Without(old(slots), i) && closed == old(closed) + [old(slots)[i].pool]
      ensures old(slots)[i].lastUsed >= cutoff ==> slots == old(slots) && closed == old(closed)
    {
      assert Linked(i);
      if ll[i].lastUsed < cutoff { RemoveAt(i); }
    }

    /** sweepIdle: from the back, past every entry. */
    method SweepIdle(now: Time)
      requires Valid()
      modifies this`ll, this`items, this`closed, this`slots
      ensures Valid()
      ensures slots == SweptSlots(old(slots), now - idleTTL)
      ensures closed == old(closed) + SweptPools(old(slots), now - idleTTL)
    {
      ghost var start := slots;
      var cutoff := now - idleTTL;
      var i := |ll|;
      assert start[..i] == start;
      while i > 0
        invariant i <= |start| && i <= |ll| == |slots|
        invariant Valid() && slots[..i] == start[..i]
        invariant SweptSlots(start, cutoff) == SweptSlots(start[..i], cutoff) + slots[i..]
        invariant old(closed) + SweptPools(start, cutoff) == closed + SweptPools(start[..i], cutoff)
        decreases i
      {
        SweepStep(start, slots, i, cutoff);
        SweepAt(i - 1, cutoff);
        i := i - 1;
      }
    }

    /** closeAll: front to back. */
    method CloseAll()
      requires Valid()
      modifies this`ll, this`items, this`closed, this`slots
      ensures Valid() && slots == []
      ensures closed == old(closed) + PoolsOf(old(slots))
    {
      ghost var pools := PoolsOf(slots);
      ghost var ids: set<TenantId> := {};
      var entries := items;
      for i := 0 to |ll|
        invariant ll == old(ll) && slots == old(slots) && closed == old(closed) + pools[..i]
        invariant items == old(items) - ids && forall id :: id in ids <==> exists j :: 0 <= j < i && slots[j].id == id
      {
        var e := ll[i];
        assert old(Linked(i));
        items := items - {e.id};
        closed := closed + [e.pool];
        ids := ids + {e.id};
        assert pools[..i + 1] == pools[..i] + [e.pool];
      }
      assert pools[..|ll|] == pools;
      forall id | id in items ensures false { IdsAt(slots, id); }
      assert items == map[];
      ll, slots := [], [];
    }
  }
}
