/** The resolver's two caches as one machine: Open looks a record up and then asks
    for a pool, Close drops the pool and then the record, and everything else goes
    on in between. */
module CloseReload {
  import opened Basics
  import R = Registry
  import P = Pools

  /** A record in the hands of an Open, between its Lookup and its pool. */
  datatype Held = Held(id: TenantId, readAt: Time)

  /** `from` remembers of every pool when the record it was dialled from was read. */
  datatype State = State(reg: R.State, pools: P.State, held: map<nat, Held>, from: map<P.Pool, Time>)

  datatype Config = Config(reg: R.Config, pools: P.Config)

  datatype Step =
    | Serve(open: nat, id: TenantId, now: Time)
    | Finish(open: nat, load: nat, now: Time)
    | Reg(regStep: R.Step)          // a load begins, reads or fails; an invalidation
    | GiveUp(open: nat)             // status, schema or dial
    | Hit(open: nat, now: Time)
    | Dial(open: nat)
    | Install(pool: P.Pool, now: Time)
    | Pool(poolStep: P.Step)        // close, idle sweep, close all

  ghost predicate Enabled(c: Config, s: State, step: Step) {
    match step
    case Serve(o, id, now) => o !in s.held && R.Enabled(c.reg, s.reg, R.Serve(id, now)) && id in s.reg.cache
    case Finish(o, l, now) => o !in s.held && R.Enabled(c.reg, s.reg, R.Finish(l, now))
    case Reg(r) => (r.Begin? || r.Read? || r.Fail? || r.Drop?) && R.Enabled(c.reg, s.reg, r)
    case GiveUp(o) => o in s.held
    case Hit(o, now) => o in s.held && P.Enabled(s.pools, P.Hit(s.held[o].id, now))
    case Dial(o) => o in s.held && P.IndexOf(s.pools.slots, s.held[o].id).None?
    case Install(p, now) => P.Enabled(s.pools, P.Install(p, now))
    case Pool(q) => (q.Close? || q.SweepIdle? || q.CloseAll?) && P.Enabled(s.pools, q)
  }

  ghost function Next(c: Config, truth: R.Truth, s: State, step: Step): State
    requires Enabled(c, s, step)
  {
    match step
    case Serve(o, id, now) =>
      s.(reg := R.Next(c.reg, truth, s.reg, R.Serve(id, now)), held := s.held[o := Held(id, s.reg.cache[id].readAt)])
    case Finish(o, l, now) =>
      s.(reg := R.Next(c.reg, truth, s.reg, R.Finish(l, now)),
         held := s.held[o := Held(s.reg.loads[l].id, s.reg.loads[l].read.value.at)])
    case Reg(r) => s.(reg := R.Next(c.reg, truth, s.reg, r))
    case GiveUp(o) => s.(held := s.held - {o})
    case Hit(o, now) =>
      s.(pools := P.Next(c.pools, s.pools, P.Hit(s.held[o].id, now)), held := s.held - {o})
    case Dial(o) =>
      s.(pools := P.Next(c.pools, s.pools, P.Build(s.held[o].id)), held := s.held - {o},
         from := s.from[s.pools.next := s.held[o].readAt])
    case Install(p, now) => s.(pools := P.Next(c.pools, s.pools, P.Install(p, now)))
    case Pool(q) => s.(pools := P.Next(c.pools, s.pools, q))
  }

  /** The tenant whose Open a step ends with a pool, and that pool. */
  ghost predicate Returns(c: Config, s: State, step: Step, id: TenantId) {
    && Enabled(c, s, step)
    && ((step.Hit? && s.held[step.open].id == id) || (step.Install? && s.pools.flights[step.pool] == id))
  }

  ghost function Returned(c: Config, s: State, step: Step, id: TenantId): P.Pool
    requires Returns(c, s, step, id)
  {
    if step.Hit? then P.Returned(s.pools, P.Hit(id, step.now)) else P.Returned(s.pools, P.Install(step.pool, step.now))
  }

  // ---- What a reachable state looks like ------------------------------------------

  /** Every pool in flight or cached is remembered. */
  ghost predicate PoolsDialled(s: State) {
    && (forall p :: p in s.pools.flights ==> p in s.from)
    && (forall id, p :: (id, p) in Pairs(s.pools.slots) ==> p in s.from)
  }

  ghost predicate Inv(c: Config, truth: R.Truth, s: State) {
    && R.Inv(c.reg, truth, s.reg)
    && (forall o :: o in s.held ==> s.held[o].readAt <= s.reg.clock)
    && (forall p :: p in s.from ==> p < s.pools.next && s.from[p] <= s.reg.clock)
    && PoolsDialled(s)
  }

  ghost const Start := State(R.Start, P.Start, map[], map[])

  ghost predicate Runs(c: Config, truth: R.Truth, s: State, steps: seq<Step>)
    decreases |steps|
  {
    steps == [] || (Enabled(c, s, steps[0]) && Runs(c, truth, Next(c, truth, s, steps[0]), steps[1..]))
  }

  ghost function After(c: Config, truth: R.Truth, s: State, steps: seq<Step>): State
    requires Runs(c, truth, s, steps)
    decreases |steps|
  {
    if steps == [] then s else After(c, truth, Next(c, truth, s, steps[0]), steps[1..])
  }

  // ---- Where cached pools come from --------------------------------------------------

  /** Which tenant's pools are cached. */
  ghost function Pairs(slots: seq<P.Slot>): set<(TenantId, P.Pool)> {
    set slot | slot in slots :: (slot.id, slot.pool)
  }

  lemma PairsAt(slots: seq<P.Slot>, i: nat)
    requires i < |slots|
    ensures (slots[i].id, slots[i].pool) in Pairs(slots)
  {
    assert slots[i] in slots;
  }

  lemma TouchedPairs(slots: seq<P.Slot>, i: nat, now: Time)
    requires i < |slots|
    ensures Pairs(P.Without(slots, i)) <= Pairs(slots) && Pairs(P.Touched(slots, i, now)) <= Pairs(slots)
  {
    PairsAt(slots, i);
    assert forall slot :: slot in P.Without(slots, i) ==> slot in slots;
    forall slot | slot in P.Touched(slots, i, now) ensures (slot.id, slot.pool) in Pairs(slots) {
      if slot != slots[i].(lastUsed := now) { assert slot in P.Without(slots, i); }
    }
  }

  lemma {:induction false} SweptPairs(slots: seq<P.Slot>, cutoff: Time)
    ensures forall slot :: slot in P.SweptSlots(slots, cutoff) ==> slot in slots
  {
    if slots != [] { SweptPairs(slots[..|slots| - 1], cutoff); }
  }

  /** Hits, builds, closing and sweeping bring no pool into the cache. */
  lemma PoolStepPairs(c: P.Config, s: P.State, q: P.Step)
    requires P.Enabled(s, q) && !q.Install?
    ensures Pairs(P.Next(c, s, q).slots) <= Pairs(s.slots)
  {
    match q
    case Hit(id, now) => TouchedPairs(s.slots, P.IndexOf(s.slots, id).value, now);
    case Close(id) =>
      var i := P.IndexOf(s.slots, id);
      if i.Some? { TouchedPairs(s.slots, i.value, 0); }
    case SweepIdle(now) => SweptPairs(s.slots, now - c.idleTTL);
    case Build(_) =>
    case CloseAll =>
  }

  /** An installation may bring in the pool that lands, for its own tenant. */
  lemma InstallPairs(c: P.Config, s: P.State, p: P.Pool, now: Time)
    requires P.Enabled(s, P.Install(p, now))
    ensures Pairs(P.Next(c, s, P.Install(p, now)).slots) <= Pairs(s.slots) + {(s.flights[p], p)}
  {
    var i := P.IndexOf(s.slots, s.flights[p]);
    if i.Some? {
      TouchedPairs(s.slots, i.value, now);
    } else {
      var more := [P.Slot(s.flights[p], p, now)] + s.slots;
      assert forall slot :: slot in P.Capped(more, c.maxPools) ==> slot in more;
    }
  }

  /** The pool handed out is the tenant's cached one, or the one that lands. */
  lemma ReturnedPair(c: Config, s: State, step: Step, id: TenantId)
    requires Returns(c, s, step, id)
    ensures var p := Returned(c, s, step, id);
      (id, p) in Pairs(s.pools.slots) || (step.Install? && p == step.pool)
  {
    var i := P.IndexOf(s.pools.slots, id);
    if i.Some? { PairsAt(s.pools.slots, i.value); }
  }

  // ---- What every step keeps ---------------------------------------------------------

  lemma RegClock(c: R.Config, truth: R.Truth, s: R.State, r: R.Step)
    requires R.Enabled(c, s, r)
    ensures R.Next(c, truth, s, r).clock >= s.clock
  {
  }

  /** A dial in flight or cached, of any tenant, after a step of the pools. */
  lemma PoolsStayDialled(c: Config, s: State, s': State, q: P.Step)
    requires PoolsDialled(s) && P.Enabled(s.pools, q) && !q.Build?
    requires s'.pools == P.Next(c.pools, s.pools, q) && s'.from == s.from
    ensures PoolsDialled(s') && s'.pools.next == s.pools.next
  {
    if q.Install? { InstallPairs(c.pools, s.pools, q.pool, q.now); } else { PoolStepPairs(c.pools, s.pools, q); }
  }

  lemma RegStepKeepsInv(c: Config, truth: R.Truth, s: State, r: R.Step, s': State)
    requires Inv(c, truth, s) && R.Enabled(c.reg, s.reg, r) && s' == s.(reg := R.Next(c.reg, truth, s.reg, r))
    ensures Inv(c, truth, s')
  {
    R.StepKeepsInv(c.reg, truth, s.reg, r);
    RegClock(c.reg, truth, s.reg, r);
  }

  lemma StepKeepsInv(c: Config, truth: R.Truth, s: State, step: Step)
    requires Inv(c, truth, s) && Enabled(c, s, step)
    ensures Inv(c, truth, Next(c, truth, s, step))
  {
    var s' := Next(c, truth, s, step);
    match step
    case Serve(o, id, now) =>
      RegStepKeepsInv(c, truth, s, R.Serve(id, now), s.(reg := s'.reg));
      assert R.EntrySound(c.reg, truth, s.reg, id);
    case Finish(o, l, now) =>
      RegStepKeepsInv(c, truth, s, R.Finish(l, now), s.(reg := s'.reg));
      assert R.LoadSound(truth, s.reg, l);
    case Reg(r) => RegStepKeepsInv(c, truth, s, r, s');
    case GiveUp(o) =>
    case Hit(o, now) => PoolsStayDialled(c, s, s', P.Hit(s.held[o].id, now));
    case Dial(o) =>
    case Install(p, now) => PoolsStayDialled(c, s, s', P.Install(p, now));
    case Pool(q) => PoolsStayDialled(c, s, s', q);
  }

  /** The state after any run from the start keeps it. */
  lemma {:induction false} RunKeepsInv(c: Config, truth: R.Truth, s: State, steps: seq<Step>)
    requires Inv(c, truth, s) && Runs(c, truth, s, steps)
    ensures Inv(c, truth, After(c, truth, s, steps))
    decreases |steps|
  {
    if steps != [] {
      StepKeepsInv(c, truth, s, steps[0]);
      RunKeepsInv(c, truth, Next(c, truth, s, steps[0]), steps[1..]);
    }
  }

  /** Nothing of the tenant, held, in flight or cached, was read before t. */
  ghost predicate ReadSince(s: State, id: TenantId, t: Time) {
    && R.ReadSince(s.reg, id, t)
    && (forall o :: o in s.held && s.held[o].id == id ==> s.held[o].readAt >= t)
    && (forall p :: p in s.pools.flights && s.pools.flights[p] == id ==> p in s.from && s.from[p] >= t)
    && (forall p :: (id, p) in Pairs(s.pools.slots) ==> p in s.from && s.from[p] >= t)
    && (forall p :: p in s.from ==> p < s.pools.next)
  }

  lemma PoolsStayFresh(c: Config, s: State, s': State, q: P.Step, id: TenantId, t: Time)
    requires ReadSince(s, id, t) && P.Enabled(s.pools, q) && !q.Build?
    requires s'.reg == s.reg && s'.pools == P.Next(c.pools, s.pools, q) && s'.from == s.from
    requires forall o :: o in s'.held ==> o in s.held && s'.held[o] == s.held[o]
    ensures ReadSince(s', id, t)
  {
    if q.Install? { InstallPairs(c.pools, s.pools, q.pool, q.now); } else { PoolStepPairs(c.pools, s.pools, q); }
  }

  lemma StepReadsSince(c: Config, truth: R.Truth, s: State, step: Step, id: TenantId, t: Time)
    requires ReadSince(s, id, t) && Enabled(c, s, step)
    ensures ReadSince(Next(c, truth, s, step), id, t)
  {
    var s' := Next(c, truth, s, step);
    match step
    case Serve(o, i, now) => R.StepReadsSince(c.reg, truth, s.reg, R.Serve(i, now), id, t);
    case Finish(o, l, now) => R.StepReadsSince(c.reg, truth, s.reg, R.Finish(l, now), id, t);
    case Reg(r) => R.StepReadsSince(c.reg, truth, s.reg, r, id, t);
    case GiveUp(o) =>
    case Hit(o, now) => PoolsStayFresh(c, s, s', P.Hit(s.held[o].id, now), id, t);
    case Dial(o) =>
    case Install(p, now) => PoolsStayFresh(c, s, s', P.Install(p, now), id, t);
    case Pool(q) => PoolsStayFresh(c, s, s', q, id, t);
  }

  lemma {:induction false} RunReadsSince(c: Config, truth: R.Truth, s: State, steps: seq<Step>, id: TenantId, t: Time)
    requires ReadSince(s, id, t) && Runs(c, truth, s, steps)
    ensures ReadSince(After(c, truth, s, steps), id, t)
    decreases |steps|
  {
    if steps != [] {
      StepReadsSince(c, truth, s, steps[0], id, t);
      RunReadsSince(c, truth, Next(c, truth, s, steps[0]), steps[1..], id, t);
    }
  }

  // ---- Close ---------------------------------------------------------------------------

  /** A run and a last step that hand out a pool dialled from a record read before t. */
  ghost predicate ReturnsOld(c: Config, truth: R.Truth, s: State, id: TenantId, t: Time, steps: seq<Step>, last: Step) {
    && Runs(c, truth, s, steps)
    && var s' := After(c, truth, s, steps);
       Returns(c, s', last, id)
       && var p := Returned(c, s', last, id);
          p in s'.from ==> s'.from[p] < t
  }

  /** Every pool handed out for the tenant from here on was dialled from a record
      read at or after t. */
  ghost predicate OnlyReloaded(c: Config, truth: R.Truth, s: State, id: TenantId, t: Time) {
    forall steps, last :: !ReturnsOld(c, truth, s, id, t, steps, last)
  }

  /** Of the tenant nothing is left that an Open could still use: no load that has
      read, no Open holding a record, no dial in flight, no pool in the cache. */
  ghost predicate Clear(s: State, id: TenantId) {
    && R.NoneRead(s.reg, id)
    && (forall o :: o in s.held ==> s.held[o].id != id)
    && (forall p :: p in s.pools.flights ==> s.pools.flights[p] != id)
    && (forall p :: (id, p) !in Pairs(s.pools.slots))
  }

  lemma ClearReloads(c: Config, truth: R.Truth, s: State, id: TenantId, t: Time, steps: seq<Step>, last: Step)
    requires Inv(c, truth, s) && Enabled(c, s, Reg(R.Drop(id, t))) && Clear(s, id)
    ensures !ReturnsOld(c, truth, Next(c, truth, s, Reg(R.Drop(id, t))), id, t, steps, last)
  {
    var s1 := Next(c, truth, s, Reg(R.Drop(id, t)));
    if Runs(c, truth, s1, steps) {
      var s2 := After(c, truth, s1, steps);
      RunReadsSince(c, truth, s1, steps, id, t);
      if Returns(c, s2, last, id) { ReturnedPair(c, s2, last, id); }
    }
  }

  // ---- What is left can come back --------------------------------------------------

  /** All pools so far were dialled from records read before t. */
  ghost predicate AllOld(s: State, t: Time) {
    forall p :: p in s.from ==> s.from[p] < t
  }

  lemma StepThenReturnsOld(c: Config, truth: R.Truth, s: State, step: Step, id: TenantId, t: Time,
                           steps: seq<Step>, last: Step)
    requires Enabled(c, s, step) && ReturnsOld(c, truth, Next(c, truth, s, step), id, t, steps, last)
    ensures ReturnsOld(c, truth, s, id, t, [step] + steps, last)
  {
    assert ([step] + steps)[1..] == steps;
  }

  /** A dial in flight lands and is handed out, or the cached pool is. */
  lemma FlightReturnsOld(c: Config, truth: R.Truth, s: State, id: TenantId, t: Time, p: P.Pool)
    requires AllOld(s, t) && PoolsDialled(s) && p in s.pools.flights && s.pools.flights[p] == id
    ensures !OnlyReloaded(c, truth, s, id, t)
  {
    var last := Install(p, s.pools.clock);
    assert After(c, truth, s, []) == s;
    ReturnedPair(c, s, last, id);
    assert ReturnsOld(c, truth, s, id, t, [], last);
  }

  /** An Open holding a record hits the cached pool, or dials from its record. */
  lemma HeldReturnsOld(c: Config, truth: R.Truth, s: State, id: TenantId, t: Time, o: nat)
    requires AllOld(s, t) && PoolsDialled(s) && o in s.held && s.held[o].id == id
    requires s.held[o].readAt < t || P.IndexOf(s.pools.slots, id).Some?
    ensures !OnlyReloaded(c, truth, s, id, t)
  {
    if P.IndexOf(s.pools.slots, id).Some? {
      var last := Hit(o, s.pools.clock);
      assert After(c, truth, s, []) == s;
      ReturnedPair(c, s, last, id);
      assert ReturnsOld(c, truth, s, id, t, [], last);
    } else {
      var s' := Next(c, truth, s, Dial(o));
      FlightReturnsOld(c, truth, s', id, t, s.pools.next);
      var steps, last :| ReturnsOld(c, truth, s', id, t, steps, last);
      StepThenReturnsOld(c, truth, s, Dial(o), id, t, steps, last);
    }
  }

  lemma UnusedKey(keys: set<nat>) returns (k: nat)
    ensures k !in keys
  {
    k := 0;
    var rest := keys;
    while rest != {}
      invariant rest <= keys && forall x :: x in keys && x !in rest ==> x < k
      decreases |rest|
    {
      var x :| x in rest;
      rest := rest - {x};
      if x >= k { k := x + 1; }
    }
  }

  /** A load that has read lands in an Open's hands. */
  lemma LoadReturnsOld(c: Config, truth: R.Truth, s: State, id: TenantId, t: Time, l: nat)
    requires AllOld(s, t) && PoolsDialled(s) && R.Enabled(c.reg, s.reg, R.Finish(l, t)) && s.reg.loads[l].id == id
    requires s.reg.loads[l].read.value.at < t || P.IndexOf(s.pools.slots, id).Some?
    ensures !OnlyReloaded(c, truth, s, id, t)
  {
    var o := UnusedKey(s.held.Keys);
    var finish := Finish(o, l, t);
    var s' := Next(c, truth, s, finish);
    HeldReturnsOld(c, truth, s', id, t, o);
    var steps, last :| ReturnsOld(c, truth, s', id, t, steps, last);
    StepThenReturnsOld(c, truth, s, finish, id, t, steps, last);
  }

  /** A cached pool is handed to the next Open, freshly loaded record or not. */
  lemma CachedReturnsOld(c: Config, truth: R.Truth, s: State, id: TenantId, t: Time)
    requires AllOld(s, t) && PoolsDialled(s) && R.Timely(c.reg, s.reg, t) && c.reg.longest >= 0 && id !in s.reg.cache
    requires P.IndexOf(s.pools.slots, id).Some?
    ensures !OnlyReloaded(c, truth, s, id, t)
  {
    var l := UnusedKey(s.reg.loads.Keys);
    var begin, read := Reg(R.Begin(l, id, t)), Reg(R.Read(l, t));
    var s1 := Next(c, truth, s, begin);
    var s2 := Next(c, truth, s1, read);
    LoadReturnsOld(c, truth, s2, id, t, l);
    var steps, last :| ReturnsOld(c, truth, s2, id, t, steps, last);
    StepThenReturnsOld(c, truth, s1, read, id, t, steps, last);
    StepThenReturnsOld(c, truth, s, begin, id, t, [read] + steps, last);
  }

  lemma PairIsIndexed(slots: seq<P.Slot>, id: TenantId, p: P.Pool)
    requires (id, p) in Pairs(slots)
    ensures P.IndexOf(slots, id).Some?
  {
    var slot :| slot in slots && slot.id == id && slot.pool == p;
    var i :| 0 <= i < |slots| && slots[i] == slot;
  }

  lemma NotClearReturnsOld(c: Config, truth: R.Truth, s: State, id: TenantId, t: Time)
    requires Inv(c, truth, s) && Enabled(c, s, Reg(R.Drop(id, t))) && t > s.reg.clock && c.reg.longest >= 0
    requires !Clear(s, id)
    ensures !OnlyReloaded(c, truth, Next(c, truth, s, Reg(R.Drop(id, t))), id, t)
  {
    var s1 := Next(c, truth, s, Reg(R.Drop(id, t)));
    if p :| p in s.pools.flights && s.pools.flights[p] == id {
      FlightReturnsOld(c, truth, s1, id, t, p);
    } else if o :| o in s.held && s.held[o].id == id {
      HeldReturnsOld(c, truth, s1, id, t, o);
    } else if !R.NoneRead(s.reg, id) {
      var l :| l in s.reg.loads && s.reg.loads[l].id == id && s.reg.loads[l].read.Some?;
      assert R.LoadSound(truth, s.reg, l);
      LoadReturnsOld(c, truth, s1, id, t, l);
    } else {
      var p :| (id, p) in Pairs(s.pools.slots);
      PairIsIndexed(s.pools.slots, id, p);
      CachedReturnsOld(c, truth, s1, id, t);
    }
  }

  /** However Close's two drops are spread out, and whatever ran before and between
      them, every pool handed out for the tenant after the second was dialled from a
      record read after it if and only if, at that moment, no load that has read, no
      Open holding a record, no dial in flight and no cached pool of the tenant was
      left. */
  lemma CloseReloadsIff(c: Config, truth: R.Truth, s: State, id: TenantId, t: Time)
    requires Inv(c, truth, s) && Enabled(c, s, Reg(R.Drop(id, t))) && t > s.reg.clock && c.reg.longest >= 0
    ensures OnlyReloaded(c, truth, Next(c, truth, s, Reg(R.Drop(id, t))), id, t) <==> Clear(s, id)
  {
    if Clear(s, id) {
      forall steps, last ensures !ReturnsOld(c, truth, Next(c, truth, s, Reg(R.Drop(id, t))), id, t, steps, last) {
        ClearReloads(c, truth, s, id, t, steps, last);
      }
    } else {
      NotClearReturnsOld(c, truth, s, id, t);
    }
  }

  lemma CloseEmptiesSlot(c: P.Config, s: P.State, id: TenantId)
    requires P.IdsDistinct(s.slots)
    ensures forall p :: (id, p) !in Pairs(P.Next(c, s, P.Close(id)).slots)
  {
    var i := P.IndexOf(s.slots, id);
    var after := P.Next(c, s, P.Close(id)).slots;
    forall slot | slot in after ensures slot.id != id {
      var j :| 0 <= j < |after| && after[j] == slot;
      if i.Some? {
        var k := if j < i.value then j else j + 1;
        assert after[j] == s.slots[k] && (P.SameId(s.slots, k, i.value) <==> slot.id == id);
      }
    }
  }

  /** The two drops back to back: the cached pool is gone, so only what is in flight
      counts. */
  lemma CloseAtOnceReloadsIff(c: Config, truth: R.Truth, s: State, id: TenantId, t: Time)
    requires Inv(c, truth, s) && P.IdsDistinct(s.pools.slots) && t > s.reg.clock && c.reg.longest >= 0
    requires Enabled(c, s, Reg(R.Drop(id, t)))
    ensures var closed := Next(c, truth, s, Pool(P.Close(id)));
      && Enabled(c, closed, Reg(R.Drop(id, t)))
      && (OnlyReloaded(c, truth, Next(c, truth, closed, Reg(R.Drop(id, t))), id, t) <==>
            && R.NoneRead(s.reg, id)
            && (forall o :: o in s.held ==> s.held[o].id != id)
            && (forall p :: p in s.pools.flights ==> s.pools.flights[p] != id))
  {
    var closed := Next(c, truth, s, Pool(P.Close(id)));
    StepKeepsInv(c, truth, s, Pool(P.Close(id)));
    CloseEmptiesSlot(c.pools, s.pools, id);
    CloseReloadsIff(c, truth, closed, id, t);
  }

  /** The machine only ever takes steps of the pool cache. */
  lemma {:induction false} RunKeepsPools(c: Config, truth: R.Truth, s: State, steps: seq<Step>)
    requires P.Inv(c.pools, s.pools) && Runs(c, truth, s, steps)
    ensures P.Inv(c.pools, After(c, truth, s, steps).pools)
    decreases |steps|
  {
    if steps != [] {
      match steps[0] {
        case Hit(o, now) => P.StepKeepsInv(c.pools, s.pools, P.Hit(s.held[o].id, now));
        case Dial(o) => P.StepKeepsInv(c.pools, s.pools, P.Build(s.held[o].id));
        case Install(p, now) => P.StepKeepsInv(c.pools, s.pools, P.Install(p, now));
        case Pool(q) => P.StepKeepsInv(c.pools, s.pools, q);
        case _ =>
      }
      RunKeepsPools(c, truth, Next(c, truth, s, steps[0]), steps[1..]);
    }
  }

  /** On every run from empty caches. */
  lemma CloseOnEveryRun(c: Config, truth: R.Truth, steps: seq<Step>, id: TenantId, t: Time)
    requires c.pools.maxPools > 0 && c.reg.longest >= 0 && Runs(c, truth, Start, steps)
    requires var s := After(c, truth, Start, steps); Enabled(c, s, Reg(R.Drop(id, t))) && t > s.reg.clock
    ensures var s := After(c, truth, Start, steps);
      var closed := Next(c, truth, s, Pool(P.Close(id)));
      && (OnlyReloaded(c, truth, Next(c, truth, s, Reg(R.Drop(id, t))), id, t) <==> Clear(s, id))
      && (OnlyReloaded(c, truth, Next(c, truth, closed, Reg(R.Drop(id, t))), id, t) <==>
            && R.NoneRead(s.reg, id)
            && (forall o :: o in s.held ==> s.held[o].id != id)
            && (forall p :: p in s.pools.flights ==> s.pools.flights[p] != id))
  {
    forall p: P.Pool ensures P.Places(P.Start, p) == 0 {}
    RunKeepsInv(c, truth, Start, steps);
    RunKeepsPools(c, truth, Start, steps);
    CloseReloadsIff(c, truth, After(c, truth, Start, steps), id, t);
    CloseAtOnceReloadsIff(c, truth, After(c, truth, Start, steps), id, t);
  }
}
