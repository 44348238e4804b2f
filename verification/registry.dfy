/** The tenant registry: a short-lived cache whose loads run outside its lock. */
module Registry {
  import opened Basics


  datatype Status = Provisioning | Active | Suspended | Deleting | Deleted | Unknown

  /** A loader's result; a load that errors returns nothing and caches nothing. */
  datatype Record = Record(status: Status, schemaVersion: int)

  datatype Entry = Entry(rec: Record, fetchedAt: Time)

  // ---- Every interleaving of lookups, loads and invalidations ---------------------

  /** `truth(id, t)` is the control-plane value at instant t. */
  type Truth = (TenantId, Time) -> Record

  datatype Reading = Reading(rec: Record, at: Time)

  /** A load in flight; it reads the control plane once, somewhere inside. */
  datatype Load = Load(id: TenantId, began: Time, read: Option<Reading>)

  /** An entry together with the instant its value was read. */
  datatype Kept = Kept(entry: Entry, readAt: Time)

  datatype State = State(cache: map<TenantId, Kept>, loads: map<nat, Load>, clock: Time)

  datatype Config = Config(ttl: Time, longest: Time)

  datatype Step =
    | Serve(id: TenantId, now: Time)
    | Begin(load: nat, id: TenantId, now: Time)
    | Read(load: nat, now: Time)
    | Finish(load: nat, now: Time)
    | Fail(load: nat)
    | Drop(id: TenantId, now: Time)

  /** No load in flight is older than the longest load. */
  ghost predicate Timely(c: Config, s: State, now: Time) {
    now >= s.clock && forall l :: l in s.loads ==> now - s.loads[l].began <= c.longest
  }

  ghost predicate FreshAt(c: Config, s: State, id: TenantId, now: Time) {
    id in s.cache && now - s.cache[id].entry.fetchedAt < c.ttl
  }

  ghost predicate Enabled(c: Config, s: State, step: Step) {
    match step
    case Serve(id, now) => Timely(c, s, now) && FreshAt(c, s, id, now)
    case Begin(l, id, now) => Timely(c, s, now) && l !in s.loads && !FreshAt(c, s, id, now)
    case Read(l, now) => Timely(c, s, now) && l in s.loads && s.loads[l].read.None?
    case Finish(l, now) => Timely(c, s, now) && l in s.loads && s.loads[l].read.Some?
    case Fail(l) => l in s.loads
    case Drop(_, now) => Timely(c, s, now)
  }

  ghost function Next(c: Config, truth: Truth, s: State, step: Step): State
    requires Enabled(c, s, step)
  {
    match step
    case Serve(_, now) => s.(clock := now)
    case Begin(l, id, now) => s.(loads := s.loads[l := Load(id, now, None)], clock := now)
    case Read(l, now) =>
      s.(loads := s.loads[l := s.loads[l].(read := Some(Reading(truth(s.loads[l].id, now), now)))], clock := now)
    case Finish(l, now) =>
      var r := s.loads[l].read.value;
      s.(cache := s.cache[s.loads[l].id := Kept(Entry(r.rec, now), r.at)], loads := s.loads - {l}, clock := now)
    case Fail(l) => s.(loads := s.loads - {l})
    case Drop(id, now) => s.(cache := s.cache - {id}, clock := now)
  }

  /** What Lookup returns, on a hit or after its load. */
  ghost function Returned(c: Config, s: State, step: Step): Record
    requires Enabled(c, s, step) && (step.Serve? || step.Finish?)
  {
    if step.Serve? then s.cache[step.id].entry.rec else s.loads[step.load].read.value.rec
  }

  ghost function Subject(c: Config, s: State, step: Step): TenantId
    requires Enabled(c, s, step) && (step.Serve? || step.Finish?)
  {
    if step.Serve? then step.id else s.loads[step.load].id
  }

  ghost predicate EntrySound(c: Config, truth: Truth, s: State, id: TenantId) {
    && id in s.cache
    && var k := s.cache[id];
       k.entry.rec == truth(id, k.readAt) && k.readAt <= k.entry.fetchedAt <= s.clock
       && k.entry.fetchedAt - k.readAt <= c.longest
  }

  ghost predicate LoadSound(truth: Truth, s: State, l: nat) {
    && l in s.loads && s.loads[l].began <= s.clock
    && match s.loads[l].read
       case None => true
       case Some(r) => r.rec == truth(s.loads[l].id, r.at) && s.loads[l].began <= r.at <= s.clock
  }

  ghost predicate Inv(c: Config, truth: Truth, s: State) {
    && (forall id {:trigger EntrySound(c, truth, s, id)} :: id in s.cache ==> EntrySound(c, truth, s, id))
    && (forall l {:trigger LoadSound(truth, s, l)} :: l in s.loads ==> LoadSound(truth, s, l))
  }

  ghost predicate Runs(c: Config, truth: Truth, s: State, steps: seq<Step>)
    decreases |steps|
  {
    steps == [] || (Enabled(c, s, steps[0]) && Runs(c, truth, Next(c, truth, s, steps[0]), steps[1..]))
  }

  ghost function After(c: Config, truth: Truth, s: State, steps: seq<Step>): State
    requires Runs(c, truth, s, steps)
    decreases |steps|
  {
    if steps == [] then s else After(c, truth, Next(c, truth, s, steps[0]), steps[1..])
  }

  lemma StepKeepsInv(c: Config, truth: Truth, s: State, step: Step)
    requires Inv(c, truth, s) && Enabled(c, s, step)
    ensures Inv(c, truth, Next(c, truth, s, step))
  {
    var s' := Next(c, truth, s, step);
    forall id | id in s'.cache ensures EntrySound(c, truth, s', id) {
      if step.Finish? && id == s.loads[step.load].id {
        assert LoadSound(truth, s, step.load);
      } else {
        assert EntrySound(c, truth, s, id);
      }
    }
    forall l | l in s'.loads ensures LoadSound(truth, s', l) {
      if !(step.Begin? && l == step.load) { assert LoadSound(truth, s, l); }
    }
  }

  lemma {:induction false} RunKeepsInv(c: Config, truth: Truth, s: State, steps: seq<Step>)
    requires Inv(c, truth, s) && Runs(c, truth, s, steps)
    ensures Inv(c, truth, After(c, truth, s, steps))
    decreases |steps|
  {
    if steps != [] {
      StepKeepsInv(c, truth, s, steps[0]);
      RunKeepsInv(c, truth, Next(c, truth, s, steps[0]), steps[1..]);
    }
  }

  ghost const Start := State(map[], map[], 0)

  /** Bounded staleness: whatever a Lookup returns at time t was the control
      plane's value at some instant no earlier than t - ttl - the longest load. */
  lemma BoundedStaleness(c: Config, truth: Truth, steps: seq<Step>, last: Step) returns (at: Time)
    requires c.ttl >= 0 && Runs(c, truth, Start, steps)
    requires Enabled(c, After(c, truth, Start, steps), last) && (last.Serve? || last.Finish?)
    ensures var s := After(c, truth, Start, steps);
      && Returned(c, s, last) == truth(Subject(c, s, last), at)
      && last.now - c.ttl - c.longest <= at <= last.now
  {
    RunKeepsInv(c, truth, Start, steps);
    var s := After(c, truth, Start, steps);
    if last.Serve? {
      assert EntrySound(c, truth, s, last.id);
      at := s.cache[last.id].readAt;
    } else {
      assert LoadSound(truth, s, last.load);
      at := s.loads[last.load].read.value.at;
    }
  }

  // ---- What the cache is for -----------------------------------------------------

  /** A load of the tenant landing, or its invalidation. */
  ghost predicate Renews(s: State, step: Step, id: TenantId) {
    || (step.Drop? && step.id == id)
    || (step.Finish? && step.load in s.loads && s.loads[step.load].id == id)
  }

  /** Nothing else touches a tenant's entry. */
  lemma EntryStays(c: Config, truth: Truth, s: State, step: Step, id: TenantId)
    requires Enabled(c, s, step) && !Renews(s, step, id)
    ensures var s' := Next(c, truth, s, step);
      (id in s'.cache <==> id in s.cache) && (id in s.cache ==> s'.cache[id] == s.cache[id])
  {
  }

  ghost predicate NoneRenews(c: Config, truth: Truth, s: State, steps: seq<Step>, id: TenantId)
    requires Runs(c, truth, s, steps)
    decreases |steps|
  {
    steps == [] || (!Renews(s, steps[0], id) && NoneRenews(c, truth, Next(c, truth, s, steps[0]), steps[1..], id))
  }

  lemma {:induction false} EntryLasts(c: Config, truth: Truth, s: State, steps: seq<Step>, id: TenantId)
    requires Runs(c, truth, s, steps) && NoneRenews(c, truth, s, steps, id) && id in s.cache
    ensures var s' := After(c, truth, s, steps); id in s'.cache && s'.cache[id] == s.cache[id]
    decreases |steps|
  {
    if steps != [] {
      EntryStays(c, truth, s, steps[0], id);
      EntryLasts(c, truth, Next(c, truth, s, steps[0]), steps[1..], id);
    }
  }

  /** A loaded record is served from the cache for exactly one ttl from the moment it
      landed, whatever goes on for other tenants; only then does a Lookup load again. */
  lemma LoadedServesOneTtl(c: Config, truth: Truth, s: State, l: nat, t: Time, steps: seq<Step>, now: Time, unused: nat)
    requires Enabled(c, s, Finish(l, t))
    requires var s1 := Next(c, truth, s, Finish(l, t));
      Runs(c, truth, s1, steps) && NoneRenews(c, truth, s1, steps, s.loads[l].id)
    requires var s2 := After(c, truth, Next(c, truth, s, Finish(l, t)), steps);
      Timely(c, s2, now) && unused !in s2.loads
    ensures var s2, id := After(c, truth, Next(c, truth, s, Finish(l, t)), steps), s.loads[l].id;
      && (Enabled(c, s2, Serve(id, now)) <==> now - t < c.ttl)
      && (Enabled(c, s2, Begin(unused, id, now)) <==> now - t >= c.ttl)
      && (now - t < c.ttl ==> Returned(c, s2, Serve(id, now)) == s.loads[l].read.value.rec)
  {
    EntryLasts(c, truth, Next(c, truth, s, Finish(l, t)), steps, s.loads[l].id);
  }

  // ---- After an invalidation ----------------------------------------------------

  ghost predicate NoneRead(s: State, id: TenantId) {
    forall l :: l in s.loads && s.loads[l].id == id ==> s.loads[l].read.None?
  }

  /** Everything held or in flight for `id` was read at or after `t`. */
  ghost predicate ReadSince(s: State, id: TenantId, t: Time) {
    && s.clock >= t
    && (id in s.cache ==> s.cache[id].readAt >= t)
    && (forall l :: l in s.loads && s.loads[l].id == id && s.loads[l].read.Some? ==> s.loads[l].read.value.at >= t)
  }

  lemma StepReadsSince(c: Config, truth: Truth, s: State, step: Step, id: TenantId, t: Time)
    requires ReadSince(s, id, t) && Enabled(c, s, step)
    ensures ReadSince(Next(c, truth, s, step), id, t)
  {
  }

  lemma {:induction false} RunReadsSince(c: Config, truth: Truth, s: State, steps: seq<Step>, id: TenantId, t: Time)
    requires ReadSince(s, id, t) && Runs(c, truth, s, steps)
    ensures ReadSince(After(c, truth, s, steps), id, t)
    decreases |steps|
  {
    if steps != [] {
      StepReadsSince(c, truth, s, steps[0], id, t);
      RunReadsSince(c, truth, Next(c, truth, s, steps[0]), steps[1..], id, t);
    }
  }

  /** No continuation of `s` ever holds a value of `id` read before `t`. */
  ghost predicate NeverStale(c: Config, truth: Truth, s: State, id: TenantId, t: Time) {
    forall steps :: Runs(c, truth, s, steps) ==>
      var s' := After(c, truth, s, steps); id in s'.cache ==> s'.cache[id].readAt >= t
  }

  /** An invalidation takes full effect exactly when no load of that tenant has
      already read its value: a load begun but still to read does no harm, one
      that has read lands afterwards and puts the old value back. */
  lemma InvalidateTakesEffectIff(c: Config, truth: Truth, s: State, id: TenantId, t: Time)
    requires Inv(c, truth, s) && Enabled(c, s, Drop(id, t)) && t > s.clock
    ensures NeverStale(c, truth, Next(c, truth, s, Drop(id, t)), id, t) <==> NoneRead(s, id)
  {
    var s1 := Next(c, truth, s, Drop(id, t));
    if NoneRead(s, id) {
      forall steps | Runs(c, truth, s1, steps)
        ensures var s' := After(c, truth, s1, steps); id in s'.cache ==> s'.cache[id].readAt >= t
      {
        RunReadsSince(c, truth, s1, steps, id, t);
      }
    } else {
      var l :| l in s.loads && s.loads[l].id == id && s.loads[l].read.Some?;
      assert LoadSound(truth, s, l);
      var finish := Finish(l, t);
      var s2 := Next(c, truth, s1, finish);
      assert [finish][1..] == [] && Runs(c, truth, s2, []) && After(c, truth, s2, []) == s2;
      assert Runs(c, truth, s1, [finish]) && After(c, truth, s1, [finish]) == s2;
      assert s2.cache[id].readAt < t;
    }
  }

  /** So a Lookup served after an undisturbed invalidation returns a value read
      after it. */
  lemma LookupAfterInvalidate(c: Config, truth: Truth, s: State, id: TenantId, t: Time, steps: seq<Step>,
                              last: Step) returns (at: Time)
    requires Inv(c, truth, s) && Enabled(c, s, Drop(id, t)) && NoneRead(s, id)
    requires Runs(c, truth, Next(c, truth, s, Drop(id, t)), steps)
    requires var s' := After(c, truth, Next(c, truth, s, Drop(id, t)), steps);
      Enabled(c, s', last) && (last.Serve? || last.Finish?) && Subject(c, s', last) == id
    ensures var s' := After(c, truth, Next(c, truth, s, Drop(id, t)), steps);
      Returned(c, s', last) == truth(id, at) && t <= at <= last.now
  {
    var s1 := Next(c, truth, s, Drop(id, t));
    StepKeepsInv(c, truth, s, Drop(id, t));
    RunKeepsInv(c, truth, s1, steps);
    RunReadsSince(c, truth, s1, steps, id, t);
    var s' := After(c, truth, s1, steps);
    if last.Serve? {
      assert EntrySound(c, truth, s', id);
      at := s'.cache[id].readAt;
    } else {
      assert LoadSound(truth, s', last.load);
      at := s'.loads[last.load].read.value.at;
    }
  }

  // ---- The cache itself, a critical section at a time -----------------------------

  class CachingRegistry {
    const ttl: Time
    var cache: map<TenantId, Entry>
    ghost var readAt: map<TenantId, Time>  // when each entry's value was read

    ghost predicate Valid()
      reads this
    {
      readAt.Keys == cache.Keys
    }

    /** The machine's cache. */
    ghost function View(): map<TenantId, Kept>
      reads this
      requires Valid()
    {
      map id | id in cache :: Kept(cache[id], readAt[id])
    }

    constructor (ttl: Time)
      ensures Valid() && this.ttl == ttl && View() == Start.cache
    {
      this.ttl, cache, readAt := ttl, map[], map[];
    }

    /** Lookup's first critical section: the machine can serve from the cache, and
        this is what it serves, or a load must begin. */
    method Cached(id: TenantId, now: Time, ghost c: Config, ghost s: State, ghost load: nat) returns (r: Option<Record>)
      requires Valid() && s.cache == View() && c.ttl == ttl && Timely(c, s, now) && load !in s.loads
      ensures r.Some? <==> Enabled(c, s, Serve(id, now))
      ensures r.None? <==> Enabled(c, s, Begin(load, id, now))
      ensures r.Some? ==> r.value == Returned(c, s, Serve(id, now))
    {
      if id in cache && now - cache[id].fetchedAt < ttl { return Some(cache[id].rec); }
      return None;
    }

    /** Lookup's second critical section, after a load that the machine can finish:
        the cache becomes the machine's, and the record is what Lookup returns. */
    method Fill(id: TenantId, rec: Record, now: Time, ghost c: Config, ghost truth: Truth, ghost s: State,
                ghost load: nat)
      requires Valid() && s.cache == View() && Enabled(c, s, Finish(load, now))
      requires s.loads[load].id == id && rec == Returned(c, s, Finish(load, now))
      modifies this
      ensures Valid() && View() == Next(c, truth, s, Finish(load, now)).cache
    {
      cache := cache[id := Entry(rec, now)];
      readAt := readAt[id := s.loads[load].read.value.at];
    }

    method Invalidate(id: TenantId, now: Time, ghost c: Config, ghost truth: Truth, ghost s: State)
      requires Valid() && s.cache == View() && Enabled(c, s, Drop(id, now))
      modifies this
      ensures Valid() && View() == Next(c, truth, s, Drop(id, now)).cache
    {
      cache, readAt := cache - {id}, readAt - {id};
    }
  }
}
