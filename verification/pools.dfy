/** The per-tenant pool cache as a machine over its critical sections. */
module Pools {
  import opened Basics

  type Pool = nat    // one number per pool ever built

  datatype Slot = Slot(id: TenantId, pool: Pool, lastUsed: Time)

  // ---- The list, most recently used first -------------------------------------

  ghost function IndexOf(slots: seq<Slot>, id: TenantId): Option<nat> {
    if exists i :: 0 <= i < |slots| && slots[i].id == id
    then var i :| 0 <= i < |slots| && slots[i].id == id; Some(i)
    else None
  }

  function Without(slots: seq<Slot>, i: nat): seq<Slot>
    requires i < |slots|
  {
    slots[..i] + slots[i + 1..]
  }

  /** Stamp and move to front. */
  function Touched(slots: seq<Slot>, i: nat, now: Time): seq<Slot>
    requires i < |slots|
  {
    [slots[i].(lastUsed := now)] + Without(slots, i)
  }

  function PoolsOf(slots: seq<Slot>): seq<Pool> {
    seq(|slots|, i requires 0 <= i < |slots| => slots[i].pool)
  }

  /** What eviction leaves, and what it closes, back first. */
  function Capped(slots: seq<Slot>, max: nat): seq<Slot> {
    if |slots| <= max then slots else slots[..max]
  }

  function Evicted(slots: seq<Slot>, max: nat): seq<Pool>
    decreases |slots|
  {
    if |slots| <= max then [] else [slots[|slots| - 1].pool] + Evicted(slots[..|slots| - 1], max)
  }

  /** The idle sweep walks from the back and drops every slot older than the cutoff. */
  function SweptSlots(slots: seq<Slot>, cutoff: Time): seq<Slot> {
    if slots == [] then []
    else
      var last, init := slots[|slots| - 1], SweptSlots(slots[..|slots| - 1], cutoff);
      if last.lastUsed < cutoff then init else init + [last]
  }

  function SweptPools(slots: seq<Slot>, cutoff: Time): seq<Pool> {
    if slots == [] then []
    else
      var last, init := slots[|slots| - 1], SweptPools(slots[..|slots| - 1], cutoff);
      if last.lastUsed < cutoff then [last.pool] + init else init
  }

  // ---- The machine ------------------------------------------------------------

  /** `flights` are pools built and not yet installed, with the tenant each was
      dialled for; `owner` remembers that for every pool ever built. */
  datatype State = State(
    slots: seq<Slot>, closed: seq<Pool>, flights: map<Pool, TenantId>,
    owner: map<Pool, TenantId>, next: Pool, clock: Time)

  datatype Config = Config(maxPools: nat, idleTTL: Time)

  /** newPoolCache: unset sizes and windows take their defaults. */
  function NewConfig(maxPools: int, idleTTL: Time): (c: Config)
    ensures c.maxPools > 0 && c.idleTTL > 0
    ensures c.maxPools == if maxPools > 0 then maxPools else 200
    ensures c.idleTTL == if idleTTL > 0 then idleTTL else 10 * 60 * 1_000_000_000
  {
    Config(if maxPools <= 0 then 200 else maxPools, if idleTTL <= 0 then 600_000_000_000 else idleTTL)
  }

  /** get contributes three kinds of step: a hit inside the first critical
      section, a build outside any lock, and an install in the second. */
  datatype Step =
    | Hit(id: TenantId, now: Time)
    | Build(tenant: TenantId)
    | Install(pool: Pool, now: Time)
    | Close(id: TenantId)
    | SweepIdle(now: Time)
    | CloseAll

  ghost function Swept(s: State, cutoff: Time, now: Time): State {
    s.(slots := SweptSlots(s.slots, cutoff), closed := s.closed + SweptPools(s.slots, cutoff), clock := now)
  }

  ghost predicate Enabled(s: State, step: Step) {
    match step
    case Hit(id, now) => now >= s.clock && IndexOf(s.slots, id).Some?
    case Install(pool, now) => now >= s.clock && pool in s.flights
    case SweepIdle(now) => now >= s.clock
    case _ => true
  }

  ghost function Next(c: Config, s: State, step: Step): State
    requires Enabled(s, step)
  {
    match step
    case Hit(id, now) => s.(slots := Touched(s.slots, IndexOf(s.slots, id).value, now), clock := now)
    case Build(id) => s.(flights := s.flights[s.next := id], owner := s.owner[s.next := id], next := s.next + 1)
    case Install(pool, now) =>
      var landed := s.(flights := s.flights - {pool}, clock := now);
      (match IndexOf(s.slots, s.flights[pool])
       case Some(i) => landed.(slots := Touched(s.slots, i, now), closed := s.closed + [pool])
       case None =>
         var pushed := [Slot(s.flights[pool], pool, now)] + s.slots;
         landed.(slots := Capped(pushed, c.maxPools), closed := s.closed + Evicted(pushed, c.maxPools)))
    case Close(id) =>
      (match IndexOf(s.slots, id)
       case Some(i) => s.(slots := Without(s.slots, i), closed := s.closed + [s.slots[i].pool])
       case None => s)
    case SweepIdle(now) =>
      Swept(s, now - c.idleTTL, now)
    case CloseAll => s.(slots := [], closed := s.closed + PoolsOf(s.slots))
  }

  /** The pool a hit or an install hands to its caller. */
  ghost function Returned(s: State, step: Step): Pool
    requires Enabled(s, step) && (step.Hit? || step.Install?)
  {
    match step
    case Hit(id, _) => s.slots[IndexOf(s.slots, id).value].pool
    case Install(pool, _) =>
      match IndexOf(s.slots, s.flights[pool]) case Some(i) => s.slots[i].pool case None => pool
  }

  // ---- The invariant ----------------------------------------------------------

  ghost predicate SameId(slots: seq<Slot>, i: int, j: int) {
    0 <= i < |slots| && 0 <= j < |slots| && slots[i].id == slots[j].id
  }

  ghost predicate IdsDistinct(slots: seq<Slot>) {
    forall i, j {:trigger SameId(slots, i, j)} :: SameId(slots, i, j) ==> i == j
  }

  ghost predicate Recency(slots: seq<Slot>, clock: Time) {
    && (forall i :: 0 <= i < |slots| ==> slots[i].lastUsed <= clock)
    && (forall i, j :: 0 <= i < j < |slots| ==> slots[i].lastUsed >= slots[j].lastUsed)
  }

  ghost function Places(s: State, p: Pool): nat {
    (if p in s.flights then 1 else 0) + multiset(PoolsOf(s.slots))[p] + multiset(s.closed)[p]
  }

  /** Every pool ever built is in flight, cached once, or closed once. */
  ghost predicate OnePlace(s: State) {
    forall p: Pool :: Places(s, p) == if p < s.next then 1 else 0
  }

  ghost predicate Owned(s: State) {
    && (forall p :: p in s.flights ==> p in s.owner && s.owner[p] == s.flights[p])
    && (forall i :: 0 <= i < |s.slots| ==> s.slots[i].pool in s.owner && s.owner[s.slots[i].pool] == s.slots[i].id)
  }

  ghost predicate Inv(c: Config, s: State) {
    && c.maxPools > 0
    && IdsDistinct(s.slots) && |s.slots| <= c.maxPools && Recency(s.slots, s.clock) && Owned(s) && OnePlace(s)
  }

  ghost const Start := State([], [], map[], map[], 0, 0)

  // ---- Conservation of pools --------------------------------------------------

  lemma PoolsOfAppend(a: seq<Slot>, b: seq<Slot>)
    ensures PoolsOf(a + b) == PoolsOf(a) + PoolsOf(b)
  {
  }

  lemma PoolsWithout(slots: seq<Slot>, i: nat)
    requires i < |slots|
    ensures multiset(PoolsOf(slots)) == multiset(PoolsOf(Without(slots, i))) + multiset{slots[i].pool}
  {
    var a, b := slots[..i], slots[i + 1..];
    assert slots == a + [slots[i]] + b;
    PoolsOfAppend(a, b);
    PoolsOfAppend(a + [slots[i]], b);
    PoolsOfAppend(a, [slots[i]]);
    assert PoolsOf([slots[i]]) == [slots[i].pool];
  }

  lemma PoolsTouched(slots: seq<Slot>, i: nat, now: Time)
    requires i < |slots|
    ensures multiset(PoolsOf(Touched(slots, i, now))) == multiset(PoolsOf(slots))
  {
    PoolsWithout(slots, i);
    var head := [slots[i].(lastUsed := now)];
    PoolsOfAppend(head, Without(slots, i));
    assert PoolsOf(head) == [slots[i].pool];
  }

  lemma LastApart(slots: seq<Slot>)
    requires slots != []
    ensures var init, last := slots[..|slots| - 1], slots[|slots| - 1];
      slots == init + [last] && multiset(PoolsOf(slots)) == multiset(PoolsOf(init)) + multiset{last.pool}
  {
    var init, last := slots[..|slots| - 1], slots[|slots| - 1];
    assert slots == init + [last];
    PoolsOfAppend(init, [last]);
    assert PoolsOf([last]) == [last.pool];
  }

  lemma {:induction false} PoolsCapped(slots: seq<Slot>, max: nat)
    ensures multiset(PoolsOf(slots)) == multiset(PoolsOf(Capped(slots, max))) + multiset(Evicted(slots, max))
    decreases |slots|
  {
    if |slots| > max {
      LastApart(slots);
      PoolsCapped(slots[..|slots| - 1], max);
      CappedInit(slots, max);
    }
  }

  lemma CappedInit(slots: seq<Slot>, max: nat)
    requires |slots| > max
    ensures var init := slots[..|slots| - 1];
      && Capped(init, max) == Capped(slots, max)
      && multiset(Evicted(slots, max)) == multiset{slots[|slots| - 1].pool} + multiset(Evicted(init, max))
  {
    assert slots[..|slots| - 1][..max] == slots[..max];
  }

  lemma {:induction false} PoolsSwept(slots: seq<Slot>, cutoff: Time)
    ensures multiset(PoolsOf(slots))
         == multiset(PoolsOf(SweptSlots(slots, cutoff))) + multiset(SweptPools(slots, cutoff))
  {
    if slots != [] {
      var init, last := slots[..|slots| - 1], slots[|slots| - 1];
      LastApart(slots);
      PoolsSwept(init, cutoff);
      if last.lastUsed >= cutoff {
        PoolsOfAppend(SweptSlots(init, cutoff), [last]);
        assert PoolsOf([last]) == [last.pool];
      }
    }
  }

  // ---- Order ------------------------------------------------------------------

  ghost predicate Ordered(slots: seq<Slot>) {
    forall i, j :: 0 <= i < j < |slots| ==> slots[i].lastUsed >= slots[j].lastUsed
  }

  lemma {:induction false} SweepKeepsRecent(slots: seq<Slot>, cutoff: Time)
    requires forall i :: 0 <= i < |slots| ==> slots[i].lastUsed >= cutoff
    ensures SweptSlots(slots, cutoff) == slots
  {
    if slots != [] {
      var n := |slots| - 1;
      SweepKeepsRecent(slots[..n], cutoff);
      assert slots[..n] + [slots[n]] == slots;
    }
  }

  /** On a list in recency order the sweep keeps a prefix and drops exactly the
      suffix older than the cutoff. */
  lemma {:induction false} SweepTakesSuffix(slots: seq<Slot>, cutoff: Time) returns (n: nat)
    requires Ordered(slots)
    ensures n <= |slots| && SweptSlots(slots, cutoff) == slots[..n]
    ensures forall i :: 0 <= i < |slots| ==> (slots[i].lastUsed < cutoff <==> n <= i)
  {
    var m := |slots|;
    if slots == [] || slots[m - 1].lastUsed >= cutoff {
      n := m;
      SweepKeepsRecent(slots, cutoff);
      assert slots[..n] == slots;
    } else {
      var init := slots[..m - 1];
      n := SweepTakesSuffix(init, cutoff);
      assert init[..n] == slots[..n];
      forall i | 0 <= i < m ensures slots[i].lastUsed < cutoff <==> n <= i {
        if i < m - 1 { assert slots[i] == init[i]; }
      }
    }
  }

  lemma WithoutInOrder(slots: seq<Slot>, i: nat, clock: Time)
    requires i < |slots| && IdsDistinct(slots) && Recency(slots, clock)
    ensures IdsDistinct(Without(slots, i)) && Recency(Without(slots, i), clock)
    ensures forall j :: 0 <= j < |slots| - 1 ==> Without(slots, i)[j].id != slots[i].id
  {
    var rest := Without(slots, i);
    assert forall j :: 0 <= j < |rest| ==> rest[j] == if j < i then slots[j] else slots[j + 1];
    forall a, b | SameId(rest, a, b) ensures a == b {
      assert SameId(slots, if a < i then a else a + 1, if b < i then b else b + 1);
    }
    forall j | 0 <= j < |rest| ensures rest[j].id != slots[i].id {
      assert !SameId(slots, if j < i then j else j + 1, i);
    }
  }

  lemma PushInOrder(slots: seq<Slot>, slot: Slot, clock: Time)
    requires IdsDistinct(slots) && Recency(slots, clock) && slot.lastUsed >= clock
    requires forall i :: 0 <= i < |slots| ==> slots[i].id != slot.id
    ensures IdsDistinct([slot] + slots) && Recency([slot] + slots, slot.lastUsed)
  {
    var pushed := [slot] + slots;
    assert forall j :: 0 < j < |pushed| ==> pushed[j] == slots[j - 1];
    forall i, j | SameId(pushed, i, j) ensures i == j {
      if i > 0 && j > 0 { assert SameId(slots, i - 1, j - 1); }
    }
  }

  lemma PrefixInOrder(slots: seq<Slot>, n: nat, clock: Time)
    requires n <= |slots| && IdsDistinct(slots) && Recency(slots, clock)
    ensures IdsDistinct(slots[..n]) && Recency(slots[..n], clock)
  {
    forall i, j | SameId(slots[..n], i, j) ensures i == j { assert SameId(slots, i, j); }
  }

  lemma TouchedInOrder(slots: seq<Slot>, i: nat, clock: Time, now: Time)
    requires i < |slots| && IdsDistinct(slots) && Recency(slots, clock) && now >= clock
    ensures IdsDistinct(Touched(slots, i, now)) && Recency(Touched(slots, i, now), now)
  {
    WithoutInOrder(slots, i, clock);
    PushInOrder(Without(slots, i), slots[i].(lastUsed := now), clock);
  }

  /** Eviction cuts to the cap, and what it closes are exactly the pools behind the
      cut, from the back, none of them used later than one it keeps. */
  lemma {:induction false} EvictionTakesOldest(slots: seq<Slot>, max: nat, clock: Time)
    requires Recency(slots, clock)
    ensures var kept, n := Capped(slots, max), Min(|slots|, max);
      && kept == slots[..n] && |Evicted(slots, max)| == |slots| - n
      && (forall j :: 0 <= j < |slots| - n ==> Evicted(slots, max)[j] == slots[|slots| - 1 - j].pool)
      && (forall i, j :: 0 <= i < n <= j < |slots| ==> slots[i].lastUsed >= slots[j].lastUsed)
    decreases |slots|
  {
    if |slots| > max {
      var init := slots[..|slots| - 1];
      PrefixRecent(slots, |slots| - 1, clock);
      EvictionTakesOldest(init, max, clock);
    }
  }

  lemma PrefixRecent(slots: seq<Slot>, n: nat, clock: Time)
    requires n <= |slots| && Recency(slots, clock)
    ensures Recency(slots[..n], clock)
  {
  }

  // ---- Every step keeps the invariant ------------------------------------------

  lemma CachedIsNotClosed(s: State, p: Pool)
    requires OnePlace(s) && p in PoolsOf(s.slots)
    ensures p !in s.closed && p !in s.flights && p < s.next
  {
    assert Places(s, p) == if p < s.next then 1 else 0;
    assert multiset(PoolsOf(s.slots))[p] >= 1;
    assert multiset(s.closed)[p] == 0;
  }

  lemma SlotPool(slots: seq<Slot>, i: nat)
    requires i < |slots|
    ensures slots[i].pool in PoolsOf(slots)
  {
    assert PoolsOf(slots)[i] == slots[i].pool;
  }

  lemma HitKeepsInv(c: Config, s: State, id: TenantId, now: Time)
    requires Inv(c, s) && Enabled(s, Hit(id, now))
    ensures Inv(c, Next(c, s, Hit(id, now)))
  {
    var i := IndexOf(s.slots, id).value;
    var s' := Next(c, s, Hit(id, now));
    TouchedInOrder(s.slots, i, s.clock, now);
    PoolsTouched(s.slots, i, now);
    forall p: Pool ensures Places(s', p) == Places(s, p) {}
  }

  lemma BuildKeepsInv(c: Config, s: State, id: TenantId)
    requires Inv(c, s)
    ensures Inv(c, Next(c, s, Build(id)))
  {
    var s' := Next(c, s, Build(id));
    assert Places(s, s.next) == 0;
    forall p: Pool ensures Places(s', p) == if p < s'.next then 1 else 0 {
      assert Places(s, p) == if p < s.next then 1 else 0;
    }
    forall i | 0 <= i < |s.slots| ensures s.slots[i].pool != s.next {
      SlotPool(s.slots, i);
      CachedIsNotClosed(s, s.slots[i].pool);
    }
  }

  lemma DiscardKeepsInv(c: Config, s: State, pool: Pool, now: Time)
    requires Inv(c, s) && Enabled(s, Install(pool, now)) && IndexOf(s.slots, s.flights[pool]).Some?
    ensures Inv(c, Next(c, s, Install(pool, now)))
  {
    var s' := Next(c, s, Install(pool, now));
    var i := IndexOf(s.slots, s.flights[pool]).value;
    TouchedInOrder(s.slots, i, s.clock, now);
    PoolsTouched(s.slots, i, now);
    forall p: Pool ensures Places(s', p) == Places(s, p) {}
  }

  lemma LandKeepsPlaces(c: Config, s: State, pool: Pool, now: Time)
    requires Inv(c, s) && Enabled(s, Install(pool, now)) && IndexOf(s.slots, s.flights[pool]).None?
    ensures OnePlace(Next(c, s, Install(pool, now)))
  {
    var s' := Next(c, s, Install(pool, now));
    var slot := Slot(s.flights[pool], pool, now);
    var pushed := [slot] + s.slots;
    PoolsCapped(pushed, c.maxPools);
    PoolsOfAppend([slot], s.slots);
    assert PoolsOf([slot]) == [pool];
    forall p: Pool ensures Places(s', p) == if p < s'.next then 1 else 0 {
      assert Places(s, p) == if p < s.next then 1 else 0;
      assert multiset(PoolsOf(pushed))[p] == (if p == pool then 1 else 0) + multiset(PoolsOf(s.slots))[p];
    }
  }

  lemma LandKeepsInv(c: Config, s: State, pool: Pool, now: Time)
    requires Inv(c, s) && Enabled(s, Install(pool, now)) && IndexOf(s.slots, s.flights[pool]).None?
    ensures Inv(c, Next(c, s, Install(pool, now)))
  {
    var slot := Slot(s.flights[pool], pool, now);
    var pushed := [slot] + s.slots;
    PushInOrder(s.slots, slot, s.clock);
    PrefixInOrder(pushed, if |pushed| <= c.maxPools then |pushed| else c.maxPools, now);
    assert pushed[..|pushed|] == pushed;
    LandKeepsPlaces(c, s, pool, now);
  }

  lemma InstallKeepsInv(c: Config, s: State, pool: Pool, now: Time)
    requires Inv(c, s) && Enabled(s, Install(pool, now))
    ensures Inv(c, Next(c, s, Install(pool, now)))
  {
    if IndexOf(s.slots, s.flights[pool]).Some? {
      DiscardKeepsInv(c, s, pool, now);
    } else {
      LandKeepsInv(c, s, pool, now);
    }
  }

  lemma CloseKeepsInv(c: Config, s: State, id: TenantId)
    requires Inv(c, s)
    ensures Inv(c, Next(c, s, Close(id)))
  {
    var i := IndexOf(s.slots, id);
    if i.Some? {
      var s' := Next(c, s, Close(id));
      WithoutInOrder(s.slots, i.value, s.clock);
      PoolsWithout(s.slots, i.value);
      forall p: Pool ensures Places(s', p) == Places(s, p) {}
    }
  }

  lemma SweepKeepsInv(c: Config, s: State, cutoff: Time, now: Time)
    requires Inv(c, s) && now >= s.clock
    ensures Inv(c, Swept(s, cutoff, now))
  {
    var s' := Swept(s, cutoff, now);
    var n := SweepTakesSuffix(s.slots, cutoff);
    PrefixInOrder(s.slots, n, s.clock);
    PoolsSwept(s.slots, cutoff);
    forall p: Pool ensures Places(s', p) == Places(s, p) {}
  }

  lemma CloseAllKeepsInv(c: Config, s: State)
    requires Inv(c, s)
    ensures Inv(c, Next(c, s, CloseAll))
  {
    var s' := Next(c, s, CloseAll);
    forall p: Pool ensures Places(s', p) == Places(s, p) {}
  }

  lemma StepKeepsInv(c: Config, s: State, step: Step)
    requires Inv(c, s) && Enabled(s, step)
    ensures Inv(c, Next(c, s, step))
  {
    match step
    case Hit(id, now) => HitKeepsInv(c, s, id, now);
    case Build(id) => BuildKeepsInv(c, s, id);
    case Install(pool, now) => InstallKeepsInv(c, s, pool, now);
    case Close(id) => CloseKeepsInv(c, s, id);
    case SweepIdle(now) => SweepKeepsInv(c, s, now - c.idleTTL, now);
    case CloseAll => CloseAllKeepsInv(c, s);
  }

  ghost predicate Runs(c: Config, s: State, steps: seq<Step>)
    decreases |steps|
  {
    steps == [] || (Enabled(s, steps[0]) && Runs(c, Next(c, s, steps[0]), steps[1..]))
  }

  ghost function After(c: Config, s: State, steps: seq<Step>): State
    requires Runs(c, s, steps)
    decreases |steps|
  {
    if steps == [] then s else After(c, Next(c, s, steps[0]), steps[1..])
  }

  lemma {:induction false} RunKeepsInv(c: Config, s: State, steps: seq<Step>)
    requires Inv(c, s) && Runs(c, s, steps)
    ensures Inv(c, After(c, s, steps))
    decreases |steps|
  {
    if steps != [] {
      StepKeepsInv(c, s, steps[0]);
      RunKeepsInv(c, Next(c, s, steps[0]), steps[1..]);
    }
  }

  /** Under any interleaving from an empty cache: one slot per tenant, never
      more than the cap, in recency order, and every pool ever built in exactly
      one of flight, cache and closed, where it was put at most once. */
  lemma EveryInterleaving(c: Config, steps: seq<Step>)
    requires c.maxPools > 0 && Runs(c, Start, steps)
    ensures var s := After(c, Start, steps);
      && IdsDistinct(s.slots) && |s.slots| <= c.maxPools && Recency(s.slots, s.clock)
      && forall p: Pool :: (if p in s.flights then 1 else 0) + multiset(PoolsOf(s.slots))[p] + multiset(s.closed)[p]
           == if p < s.next then 1 else 0
  {
    forall p: Pool ensures Places(Start, p) == 0 {}
    RunKeepsInv(c, Start, steps);
    var s := After(c, Start, steps);
    forall p: Pool ensures (if p in s.flights then 1 else 0) + multiset(PoolsOf(s.slots))[p] + multiset(s.closed)[p]
                     == if p < s.next then 1 else 0
    {
      assert Places(s, p) == if p < s.next then 1 else 0;
    }
  }

  /** get hands out a pool that was dialled for the tenant asked for, is cached
      under it, and has never been closed. */
  lemma GetReturnsLive(c: Config, s: State, step: Step)
    requires Inv(c, s) && Enabled(s, step) && (step.Hit? || step.Install?)
    ensures var s', p := Next(c, s, step), Returned(s, step);
      && p !in s'.closed && p in PoolsOf(s'.slots) && p in s'.owner
      && s'.owner[p] == (if step.Hit? then step.id else s.flights[step.pool])
  {
    var s', p := Next(c, s, step), Returned(s, step);
    StepKeepsInv(c, s, step);
    assert s'.slots[0].pool == p;
    SlotPool(s'.slots, 0);
    CachedIsNotClosed(s', p);
  }

  /** The dial outside the lock is not once per tenant: two concurrent misses
      both dial. Of a dialled pool the cache keeps it exactly when the tenant was
      not cached by the time it landed, and otherwise closes it at once. */
  lemma InstallKeepsIff(c: Config, s: State, pool: Pool, now: Time)
    requires Inv(c, s) && Enabled(s, Install(pool, now))
    ensures var s' := Next(c, s, Install(pool, now));
      && (pool in PoolsOf(s'.slots) <==> IndexOf(s.slots, s.flights[pool]).None?)
      && (pool in s'.closed <==> IndexOf(s.slots, s.flights[pool]).Some?)
  {
    var s' := Next(c, s, Install(pool, now));
    InstallKeepsInv(c, s, pool, now);
    assert Places(s', pool) == 1 by { assert Places(s, pool) == 1; }
    if IndexOf(s.slots, s.flights[pool]).None? {
      assert s'.slots[0].pool == pool;
      SlotPool(s'.slots, 0);
      CachedIsNotClosed(s', pool);
    } else {
      assert s'.closed[|s'.closed| - 1] == pool;
      if pool in PoolsOf(s'.slots) { CachedIsNotClosed(s', pool); }
    }
  }

  lemma TwoMissesTwoDials(c: Config, id: TenantId)
    requires c.maxPools > 0
    ensures var s2 := Next(c, Next(c, Start, Build(id)), Build(id));
      && Enabled(s2, Install(0, 0))
      && var s3 := Next(c, s2, Install(0, 0));
         && Enabled(s3, Install(1, 0))
         && var s4 := Next(c, s3, Install(1, 0));
            s4.next == 2 && s4.closed == [1] && s4.slots == [Slot(id, 0, 0)]
  {
    var s2 := Next(c, Next(c, Start, Build(id)), Build(id));
    var s3 := Next(c, s2, Install(0, 0));
    assert s3.slots == [Slot(id, 0, 0)];
    assert s3.slots[0].id == id && IndexOf(s3.slots, id) == Some(0);
  }
}
