/** The pool cache as a cache by use: what each slot's stamp means, and which pools
    every step keeps, in terms of when their tenants were last asked for. */
module PoolUse {
  import opened Basics
  import opened Pools

  // ---- When a tenant was last asked for ---------------------------------------------

  /** The tenant that a step hands a pool to, and when. */
  ghost predicate Uses(s: State, step: Step, id: TenantId, now: Time) {
    match step
    case Hit(i, t) => i == id && t == now
    case Install(p, t) => p in s.flights && s.flights[p] == id && t == now
    case _ => false
  }

  /** Uses[id] is the last time the tenant was handed a pool. */
  ghost function Used(s: State, step: Step, uses: map<TenantId, Time>): map<TenantId, Time> {
    match step
    case Hit(id, now) => uses[id := now]
    case Install(p, now) => if p in s.flights then uses[s.flights[p] := now] else uses
    case _ => uses
  }

  lemma UsedMeans(s: State, step: Step, uses: map<TenantId, Time>, id: TenantId)
    ensures forall now :: Uses(s, step, id, now) ==> id in Used(s, step, uses) && Used(s, step, uses)[id] == now
    ensures (forall now :: !Uses(s, step, id, now)) ==>
      (id in Used(s, step, uses) <==> id in uses) && (id in uses ==> Used(s, step, uses)[id] == uses[id])
  {
    match step
    case Hit(i, t) => assert i == id ==> Uses(s, step, id, t);
    case Install(p, t) => assert p in s.flights && s.flights[p] == id ==> Uses(s, step, id, t);
    case Build(_) =>
    case Close(_) =>
    case SweepIdle(_) =>
    case CloseAll =>
  }

  /** Every slot is stamped with its tenant's last use. */
  ghost predicate Stamped(slots: seq<Slot>, uses: map<TenantId, Time>) {
    forall slot :: slot in slots ==> slot.id in uses && slot.lastUsed == uses[slot.id]
  }

  // ---- Slots as a set ------------------------------------------------------------------

  lemma WithoutSet(slots: seq<Slot>, i: nat)
    requires i < |slots| && IdsDistinct(slots)
    ensures forall slot :: slot in Without(slots, i) <==> slot in slots && slot.id != slots[i].id
  {
    var rest := Without(slots, i);
    forall slot | slot in slots && slot.id != slots[i].id ensures slot in rest {
      var j :| 0 <= j < |slots| && slots[j] == slot;
      assert slot == rest[if j < i then j else j - 1];
    }
    forall slot | slot in rest ensures slot in slots && slot.id != slots[i].id {
      var j :| 0 <= j < |rest| && rest[j] == slot;
      var k := if j < i then j else j + 1;
      assert slots[k] == slot && (SameId(slots, k, i) <==> slot.id == slots[i].id);
    }
  }

  /** Stamping puts the tenant's slot at the front and leaves the others. */
  lemma TouchedSet(slots: seq<Slot>, i: nat, now: Time)
    requires i < |slots| && IdsDistinct(slots)
    ensures var t := Touched(slots, i, now);
      && t[0] == Slot(slots[i].id, slots[i].pool, now)
      && forall slot :: slot in t <==> slot == t[0] || (slot in slots && slot.id != slots[i].id)
  {
    WithoutSet(slots, i);
    var t := Touched(slots, i, now);
    assert t[1..] == Without(slots, i);
    assert forall slot :: slot in t <==> slot == t[0] || slot in t[1..];
  }

  lemma {:induction false} SweptSet(slots: seq<Slot>, cutoff: Time)
    ensures forall slot :: slot in SweptSlots(slots, cutoff) <==> slot in slots && slot.lastUsed >= cutoff
  {
    if slots != [] {
      var n := |slots| - 1;
      SweptSet(slots[..n], cutoff);
      assert forall slot :: slot in slots <==> slot in slots[..n] || slot == slots[n];
    }
  }

  // ---- What each step keeps -------------------------------------------------------------

  ghost predicate Caches(s: State, id: TenantId) {
    exists slot :: slot in s.slots && slot.id == id
  }

  lemma IndexIsCached(s: State, id: TenantId)
    ensures IndexOf(s.slots, id).Some? <==> Caches(s, id)
  {
    if IndexOf(s.slots, id).Some? { assert s.slots[IndexOf(s.slots, id).value] in s.slots; }
    if slot :| slot in s.slots && slot.id == id {
      var i :| 0 <= i < |s.slots| && s.slots[i] == slot;
    }
  }

  /** A hit, or a pool that lands for a tenant cached meanwhile: that tenant comes to the
      front, stamped now, with the pool it had; every other slot is as it was. */
  lemma UseMovesToFront(c: Config, s: State, step: Step, id: TenantId, now: Time)
    requires Inv(c, s) && Enabled(s, step) && Uses(s, step, id, now) && Caches(s, id)
    ensures var s' := Next(c, s, step);
      && s'.slots != [] && s'.slots[0].id == id && s'.slots[0].lastUsed == now
      && (exists slot :: slot in s.slots && slot.id == id && s'.slots[0].pool == slot.pool)
      && (forall slot :: slot in s'.slots <==> slot == s'.slots[0] || (slot in s.slots && slot.id != id))
  {
    IndexIsCached(s, id);
    var i := IndexOf(s.slots, id).value;
    TouchedSet(s.slots, i, now);
    assert s.slots[i] in s.slots;
  }

  /** A pool that lands for a tenant not cached: it comes to the front; nothing else
      goes while there is room, and otherwise what goes was last used no later than
      anything that stays. */
  lemma LandingEvictsLeastUsed(c: Config, s: State, p: Pool, now: Time)
    requires Inv(c, s) && Enabled(s, Install(p, now)) && !Caches(s, s.flights[p])
    ensures var s' := Next(c, s, Install(p, now));
      && s'.slots != [] && s'.slots[0] == Slot(s.flights[p], p, now)
      && |s'.slots| == Min(|s.slots| + 1, c.maxPools)
      && (forall slot :: slot in s'.slots ==> slot == s'.slots[0] || slot in s.slots)
      && (|s.slots| < c.maxPools ==> forall slot :: slot in s.slots ==> slot in s'.slots)
      && (forall gone, kept :: gone in s.slots && gone !in s'.slots && kept in s'.slots ==>
            gone.lastUsed <= kept.lastUsed)
  {
    IndexIsCached(s, s.flights[p]);
    var slot := Slot(s.flights[p], p, now);
    var pushed := [slot] + s.slots;
    var n := Min(|pushed|, c.maxPools);
    forall i | 0 <= i < |s.slots| ensures s.slots[i].id != slot.id { assert s.slots[i] in s.slots; }
    PushInOrder(s.slots, slot, s.clock);
    assert Next(c, s, Install(p, now)).slots == pushed[..n] by { assert pushed[..|pushed|] == pushed; }
    CutByUse(pushed, n, now);
    assert forall x :: x in pushed <==> x == slot || x in s.slots;
    if |s.slots| < c.maxPools { assert pushed[..n] == pushed; }
  }

  lemma CutByUse(slots: seq<Slot>, n: nat, clock: Time)
    requires n <= |slots| && Recency(slots, clock)
    ensures forall gone, kept :: gone in slots && gone !in slots[..n] && kept in slots[..n] ==>
      gone.lastUsed <= kept.lastUsed
  {
    forall m | 0 <= m < n ensures slots[m] in slots[..n] { assert slots[..n][m] == slots[m]; }
    forall gone, kept | gone in slots && gone !in slots[..n] && kept in slots[..n]
      ensures gone.lastUsed <= kept.lastUsed
    {
      var j :| 0 <= j < |slots| && slots[j] == gone;
      var i :| 0 <= i < n && slots[..n][i] == kept;
    }
  }

  /** Close takes that tenant's slot, the idle sweep exactly those not used since the
      window began, close-all every one, and a dial none. */
  lemma OthersKept(c: Config, s: State, step: Step)
    requires Inv(c, s) && Enabled(s, step)
    ensures var s' := Next(c, s, step);
      && (step.Build? ==> s'.slots == s.slots)
      && (step.Close? ==> forall slot :: slot in s'.slots <==> slot in s.slots && slot.id != step.id)
      && (step.SweepIdle? ==> forall slot ::
            slot in s'.slots <==> slot in s.slots && slot.lastUsed >= step.now - c.idleTTL)
      && (step.CloseAll? ==> s'.slots == [])
  {
    match step
    case Close(id) =>
      IndexIsCached(s, id);
      var i := IndexOf(s.slots, id);
      if i.Some? { WithoutSet(s.slots, i.value); }
    case SweepIdle(now) => SweptSet(s.slots, now - c.idleTTL);
    case Build(_) =>
    case CloseAll =>
    case Hit(_, _) =>
    case Install(_, _) =>
  }

  // ---- Over every run ----------------------------------------------------------------------

  lemma StepStaysStamped(c: Config, s: State, step: Step, uses: map<TenantId, Time>)
    requires Inv(c, s) && Enabled(s, step) && Stamped(s.slots, uses)
    ensures Stamped(Next(c, s, step).slots, Used(s, step, uses))
  {
    match step
    case Hit(id, now) =>
      IndexIsCached(s, id);
      UseMovesToFront(c, s, step, id, now);
    case Install(p, now) =>
      if Caches(s, s.flights[p]) {
        UseMovesToFront(c, s, step, s.flights[p], now);
      } else {
        LandingEvictsLeastUsed(c, s, p, now);
      }
    case Build(_) => OthersKept(c, s, step);
    case Close(_) => OthersKept(c, s, step);
    case SweepIdle(_) => OthersKept(c, s, step);
    case CloseAll => OthersKept(c, s, step);
  }

  /** The last uses after a run. */
  ghost function LastUses(c: Config, s: State, steps: seq<Step>, uses: map<TenantId, Time>): map<TenantId, Time>
    requires Runs(c, s, steps)
    decreases |steps|
  {
    if steps == [] then uses else LastUses(c, Next(c, s, steps[0]), steps[1..], Used(s, steps[0], uses))
  }

  lemma {:induction false} RunStaysStamped(c: Config, s: State, steps: seq<Step>, uses: map<TenantId, Time>)
    requires Inv(c, s) && Runs(c, s, steps) && Stamped(s.slots, uses)
    ensures Inv(c, After(c, s, steps)) && Stamped(After(c, s, steps).slots, LastUses(c, s, steps, uses))
    decreases |steps|
  {
    if steps != [] {
      StepKeepsInv(c, s, steps[0]);
      StepStaysStamped(c, s, steps[0], uses);
      RunStaysStamped(c, Next(c, s, steps[0]), steps[1..], Used(s, steps[0], uses));
    }
  }

  /** On every run from an empty cache, every slot is stamped with the last time its
      tenant was handed a pool, and the list runs from the last used to the least. */
  lemma StampsAreUses(c: Config, steps: seq<Step>)
    requires c.maxPools > 0 && Runs(c, Start, steps)
    ensures var s, uses := After(c, Start, steps), LastUses(c, Start, steps, map[]);
      && (forall slot :: slot in s.slots ==> slot.id in uses && slot.lastUsed == uses[slot.id])
      && (forall i, j :: 0 <= i < j < |s.slots| ==>
            s.slots[i].id in uses && s.slots[j].id in uses && uses[s.slots[i].id] >= uses[s.slots[j].id])
  {
    forall p: Pool ensures Places(Start, p) == 0 {}
    RunStaysStamped(c, Start, steps, map[]);
    var s := After(c, Start, steps);
    forall i | 0 <= i < |s.slots| ensures s.slots[i] in s.slots {}
  }

  /** So, on every run, an idle sweep keeps exactly the tenants used within the window,
      and an installation that evicts closes those used longest ago. */
  lemma LeastRecentlyUsedGoes(c: Config, steps: seq<Step>, last: Step)
    requires c.maxPools > 0 && Runs(c, Start, steps) && Enabled(After(c, Start, steps), last)
    ensures var s, uses := After(c, Start, steps), LastUses(c, Start, steps, map[]);
      var s', uses' := Next(c, s, last), Used(s, last, uses);
      && (last.SweepIdle? ==> forall id ::
            Caches(s', id) <==> Caches(s, id) && id in uses && uses[id] >= last.now - c.idleTTL)
      && (last.Install? ==> forall gone, kept :: Caches(s, gone) && !Caches(s', gone) && Caches(s', kept) ==>
            gone in uses' && kept in uses' && uses'[gone] <= uses'[kept])
  {
    StampsAreUses(c, steps);
    forall p: Pool ensures Places(Start, p) == 0 {}
    RunKeepsInv(c, Start, steps);
    var s, uses := After(c, Start, steps), LastUses(c, Start, steps, map[]);
    var s', uses' := Next(c, s, last), Used(s, last, uses);
    StepStaysStamped(c, s, last, uses);
    if last.SweepIdle? { OthersKept(c, s, last); SweptByUse(s, s', uses, last.now - c.idleTTL); }
    if last.Install? { EvictedByUse(c, s, last.pool, last.now, uses); }
  }

  lemma SweptByUse(s: State, s': State, uses: map<TenantId, Time>, cutoff: Time)
    requires Stamped(s.slots, uses) && IdsDistinct(s.slots)
    requires forall slot :: slot in s'.slots <==> slot in s.slots && slot.lastUsed >= cutoff
    ensures forall id :: Caches(s', id) <==> Caches(s, id) && id in uses && uses[id] >= cutoff
  {
    forall id ensures Caches(s', id) <==> Caches(s, id) && id in uses && uses[id] >= cutoff {
      if slot :| slot in s.slots && slot.id == id && id in uses && uses[id] >= cutoff {
        assert slot in s'.slots;
      }
      if Caches(s', id) { var slot :| slot in s'.slots && slot.id == id; }
    }
  }

  lemma EvictedByUse(c: Config, s: State, p: Pool, now: Time, uses: map<TenantId, Time>)
    requires Inv(c, s) && Enabled(s, Install(p, now)) && Stamped(s.slots, uses)
    ensures var s', uses' := Next(c, s, Install(p, now)), Used(s, Install(p, now), uses);
      forall gone, kept :: Caches(s, gone) && !Caches(s', gone) && Caches(s', kept) ==>
        gone in uses' && kept in uses' && uses'[gone] <= uses'[kept]
  {
    var s', uses' := Next(c, s, Install(p, now)), Used(s, Install(p, now), uses);
    StepStaysStamped(c, s, Install(p, now), uses);
    var id := s.flights[p];
    if Caches(s, id) { UseMovesToFront(c, s, Install(p, now), id, now); } else { LandingEvictsLeastUsed(c, s, p, now); }
    forall gone, kept | Caches(s, gone) && !Caches(s', gone) && Caches(s', kept)
      ensures gone in uses' && kept in uses' && uses'[gone] <= uses'[kept]
    {
      var g :| g in s.slots && g.id == gone;
      var k :| k in s'.slots && k.id == kept;
      assert g !in s'.slots;
      assert s'.slots[0] in s'.slots;
    }
  }
}
