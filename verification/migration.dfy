/** The tenant migration runner: each tenant's database is moved forward and the
    reached version mirrored into the registry, under failures, crashes and
    concurrent runners. */
module Migration {
  import opened Basics

  /** The highest version among the embedded migration files. */
  ghost predicate IsHighest(files: set<nat>, v: nat) {
    v in files && forall f :: f in files ==> f <= v
  }

  method ExpectedVersion(files: set<nat>) returns (v: Option<nat>)
    ensures v.None? <==> forall f :: f in files ==> f == 0
    ensures v.Some? ==> v.value > 0 && IsHighest(files, v.value)
  {
    var highest := 0;
    var todo := files;
    while todo != {}
      invariant todo <= files && (highest == 0 || highest in files)
      invariant forall f :: f in files && f !in todo ==> f <= highest
      decreases |todo|
    {
      var f :| f in todo;
      if f > highest { highest := f; }
      todo := todo - {f};
    }
    return if highest == 0 then None else Some(highest);
  }

  // ---- Concurrent runners as a machine -------------------------------------------

  /** A runner's hold on one tenant: the files its binary carries and, once goose
      has finished, the version it read back. */
  datatype Job = Job(tenant: TenantId, files: set<nat>, reached: Option<nat>)

  datatype State = State(
    applied: map<TenantId, nat>,    // goose version of each tenant database
    recorded: map<TenantId, nat>,   // tenant_databases.schema_version
    jobs: map<nat, Job>)          // by runner transaction

  /** A provisioned tenant is registered at version zero before its database
      exists. */
  datatype Step =
    | Register(tenant: TenantId)
    | CreateDatabase(tenant: TenantId)
    | Lock(job: nat, tenant: TenantId, files: set<nat>)
    | Advance(tenant: TenantId, version: nat)
    | ReadBack(job: nat)
    | Commit(job: nat)
    | Abandon(job: nat)

  /** A version, zero where there is none. */
  function At(m: map<TenantId, nat>, t: TenantId): nat { if t in m then m[t] else 0 }

  ghost predicate Locked(s: State, t: TenantId) {
    exists j :: j in s.jobs && s.jobs[j].tenant == t
  }

  /** for update skip locked: at most one transaction holds a tenant. One
      migration moves a database strictly forward, and goose runs on even when the
      transaction that started it has gone, so advancing needs no lock. Up has
      returned when no file of the runner is left to apply. */
  ghost predicate Enabled(s: State, step: Step) {
    match step
    case Register(t) => t !in s.recorded
    case CreateDatabase(t) => t in s.recorded && t !in s.applied
    case Lock(j, t, files) => j !in s.jobs && t in s.recorded && !Locked(s, t)
    case Advance(t, v) => t in s.applied && v > s.applied[t]
    case ReadBack(j) =>
      && j in s.jobs && s.jobs[j].tenant in s.applied
      && forall f :: f in s.jobs[j].files ==> f <= s.applied[s.jobs[j].tenant]
    case Commit(j) => j in s.jobs && s.jobs[j].reached.Some?
    case Abandon(j) => j in s.jobs
  }

  ghost function Next(s: State, step: Step): State
    requires Enabled(s, step)
  {
    match step
    case Register(t) => s.(recorded := s.recorded[t := 0])
    case CreateDatabase(t) => s.(applied := s.applied[t := 0])
    case Lock(j, t, files) => s.(jobs := s.jobs[j := Job(t, files, None)])
    case Advance(t, v) => s.(applied := s.applied[t := v])
    case ReadBack(j) => s.(jobs := s.jobs[j := s.jobs[j].(reached := Some(s.applied[s.jobs[j].tenant]))])
    case Commit(j) =>
      s.(recorded := s.recorded[s.jobs[j].tenant := s.jobs[j].reached.value], jobs := s.jobs - {j})
    case Abandon(j) => s.(jobs := s.jobs - {j})
  }

  ghost predicate TenantSound(s: State, t: TenantId) {
    t in s.recorded && s.recorded[t] <= At(s.applied, t)
  }

  ghost predicate JobSound(s: State, j: nat) {
    && j in s.jobs
    && var job := s.jobs[j];
       && TenantSound(s, job.tenant)
       && (job.reached.Some? ==>
             && job.tenant in s.applied && s.recorded[job.tenant] <= job.reached.value <= s.applied[job.tenant]
             && forall f :: f in job.files ==> f <= job.reached.value)
  }

  ghost predicate SameTenant(s: State, i: nat, j: nat) {
    i in s.jobs && j in s.jobs && s.jobs[i].tenant == s.jobs[j].tenant
  }

  /** A recorded version has been reached by its database, and so has every
      version a job is about to record; one job per tenant. */
  ghost predicate Inv(s: State) {
    && (forall t {:trigger TenantSound(s, t)} :: t in s.recorded ==> TenantSound(s, t))
    && (forall j {:trigger JobSound(s, j)} :: j in s.jobs ==> JobSound(s, j))
    && (forall i, j {:trigger SameTenant(s, i, j)} :: SameTenant(s, i, j) ==> i == j)
  }

  lemma StepKeepsInv(s: State, step: Step)
    requires Inv(s) && Enabled(s, step)
    ensures Inv(Next(s, step))
  {
    var s' := Next(s, step);
    forall t | t in s'.recorded ensures TenantSound(s', t) {
      assert step.Commit? ==> JobSound(s, step.job);
      assert t in s.recorded ==> TenantSound(s, t);
    }
    forall i, j | SameTenant(s', i, j) ensures i == j {
      assert i in s.jobs && j in s.jobs ==> (SameTenant(s, i, j) ==> i == j);
    }
    forall j | j in s'.jobs ensures JobSound(s', j) {
      if step.Lock? && j == step.job {
        assert TenantSound(s, step.tenant);
      } else {
        assert JobSound(s, j);
        assert step.Commit? ==> !SameTenant(s, j, step.job);
      }
    }
  }

  ghost predicate Forward(s: State, s': State, t: TenantId) {
    && (t in s.applied ==> t in s'.applied && s.applied[t] <= s'.applied[t])
    && (t in s.recorded ==> t in s'.recorded && s.recorded[t] <= s'.recorded[t])
  }

  /** Databases and recorded versions only move forward. */
  lemma StepMovesForward(s: State, step: Step, t: TenantId)
    requires Inv(s) && Enabled(s, step)
    ensures Forward(s, Next(s, step), t)
  {
    if step.Commit? { assert JobSound(s, step.job); }
  }

  /** A commit leaves its tenant recorded at, and applied to, at least every
      migration its runner carries. */
  lemma CommitReaches(s: State, j: nat, f: nat)
    requires Inv(s) && Enabled(s, Commit(j)) && f in s.jobs[j].files
    ensures var s', t := Next(s, Commit(j)), s.jobs[j].tenant;
      t in s'.recorded && t in s'.applied && f <= s'.recorded[t] <= s'.applied[t]
  {
    assert JobSound(s, j);
  }

  ghost predicate OneStep(s: State, s': State) {
    exists step :: Enabled(s, step) && s' == Next(s, step)
  }

  /** A history of states, each one step after the last. */
  ghost predicate History(h: seq<State>) {
    h != [] && Inv(h[0]) && forall i :: 0 < i < |h| ==> OneStep(h[i - 1], h[i])
  }

  lemma OneStepHolds(s: State, s': State, t: TenantId)
    requires Inv(s) && OneStep(s, s')
    ensures Inv(s') && Forward(s, s', t)
  {
    var step :| Enabled(s, step) && s' == Next(s, step);
    StepKeepsInv(s, step);
    StepMovesForward(s, step, t);
  }

  lemma {:induction false} HistoryHolds(h: seq<State>, i: nat)
    requires History(h) && i < |h|
    ensures Inv(h[i])
    decreases i
  {
    if i > 0 {
      HistoryHolds(h, i - 1);
      OneStepHolds(h[i - 1], h[i], 0);
    }
  }

  lemma {:induction false} HistoryForward(h: seq<State>, i: nat, j: nat, t: TenantId)
    requires History(h) && i <= j < |h|
    ensures Forward(h[i], h[j], t)
    decreases j
  {
    if i < j {
      HistoryForward(h, i, j - 1, t);
      HistoryHolds(h, j - 1);
      OneStepHolds(h[j - 1], h[j], t);
    }
  }

  /** In every history, whatever was recorded at one point has been applied by
      the database at that point and at every later one; a positive version means
      that there is a database. */
  lemma RecordedIsApplied(h: seq<State>, i: nat, j: nat, t: TenantId)
    requires History(h) && i <= j < |h| && t in h[i].recorded
    ensures h[i].recorded[t] <= At(h[j].applied, t) && (h[i].recorded[t] > 0 ==> t in h[j].applied)
  {
    HistoryHolds(h, i);
    assert TenantSound(h[i], t);
    HistoryForward(h, i, j, t);
  }

  // ---- One complete run of one runner ---------------------------------------------

  datatype Outcome = Outcome(tenant: TenantId, version: nat)

  /** What goes wrong in a run: tenants held by another runner, the version after
      which a tenant's next migration fails, tenants whose new version cannot be
      written back. */
  datatype Faults = Faults(held: set<TenantId>, stops: map<TenantId, nat>, unrecorded: set<TenantId>)

  const NoFaults := Faults({}, map[], {})

  /** A missing database, or a migration that fails before the highest version. */
  predicate Stuck(applied: map<TenantId, nat>, t: TenantId, highest: nat, faults: Faults) {
    t !in applied || (applied[t] < highest && t in faults.stops && faults.stops[t] < highest)
  }

  /** Where the database ends up; what was applied before a failure stays. */
  function Reached(applied: map<TenantId, nat>, t: TenantId, highest: nat, faults: Faults): nat
    requires t in applied
  {
    var goal := if Stuck(applied, t, highest, faults) then faults.stops[t] else highest;
    if goal > applied[t] then goal else applied[t]
  }

  /** One tenant before and after a run. */
  ghost predicate Handled(t: TenantId, highest: nat, held: bool, failed: bool, a0: map<TenantId, nat>,
                          r0: map<TenantId, nat>, a: map<TenantId, nat>, r: map<TenantId, nat>) {
    && t in r0 && t in r && At(a0, t) <= At(a, t)
    && (if held then !failed && r[t] == r0[t] && At(a, t) == At(a0, t)
        else if failed then r[t] == r0[t] && (At(a, t) == At(a0, t) || At(a, t) <= highest)
        else t in a0 && t in a && r[t] == a[t] && a[t] == if a0[t] > highest then a0[t] else highest)
  }

  /** A tenant still to come. */
  ghost predicate Untouched(t: TenantId, a0: map<TenantId, nat>, r0: map<TenantId, nat>,
                            a: map<TenantId, nat>, r: map<TenantId, nat>) {
    t in r0 && t in r && r[t] == r0[t] && At(a, t) == At(a0, t)
  }

  class Fleet {
    var applied: map<TenantId, nat>
    var recorded: map<TenantId, nat>

    ghost predicate Valid()
      reads this
    {
      forall t :: t in recorded ==> recorded[t] <= At(applied, t)
    }

    constructor (applied: map<TenantId, nat>, recorded: map<TenantId, nat>)
      ensures this.applied == applied && this.recorded == recorded
    {
      this.applied, this.recorded := applied, recorded;
    }

    /** migrateOneTenant. A held row is skipped, with no error and version zero. */
    method MigrateOne(t: TenantId, highest: nat, faults: Faults) returns (version: nat, ok: bool)
      requires Valid() && t in recorded
      modifies this
      ensures Valid()
      ensures ok <==> t in faults.held || (!Stuck(old(applied), t, highest, faults) && t !in faults.unrecorded)
      ensures applied == if t in faults.held || t !in old(applied) then old(applied)
                         else old(applied)[t := Reached(old(applied), t, highest, faults)]
      ensures recorded == if ok && t !in faults.held then old(recorded)[t := applied[t]] else old(recorded)
      ensures version == if t in faults.held || Stuck(old(applied), t, highest, faults) then 0 else applied[t]
    {
      if t in faults.held { return 0, true; }
      if t !in applied { return 0, false; }
      if applied[t] < highest && t in faults.stops && faults.stops[t] < highest {
        applied := applied[t := if faults.stops[t] > applied[t] then faults.stops[t] else applied[t]];
        return 0, false;
      }
      applied := applied[t := if applied[t] < highest then highest else applied[t]];
      version := applied[t];
      if t in faults.unrecorded { return version, false; }
      recorded := recorded[t := version];
      return version, true;
    }

    /** runTenantMigrations: every tenant in turn, past individual failures. A run
        that reports no failure leaves every tenant at the highest version exactly
        when each tenant it found held by another runner was already there: a held
        tenant is reported as migrated regardless. */
    method RunAll(tenants: seq<TenantId>, highest: nat, faults: Faults)
          returns (migrated: seq<Outcome>, failed: seq<TenantId>)
      requires Valid() && Distinct(tenants) && forall t :: t in tenants ==> t in recorded
      modifies this
      ensures Valid() && recorded.Keys == old(recorded).Keys && applied.Keys == old(applied).Keys
      ensures forall t :: t in tenants ==>
        Handled(t, highest, t in faults.held, t in failed, old(applied), old(recorded), applied, recorded)
      ensures forall t ::
        t in failed <==> t in tenants && Fails(t, highest, old(applied), faults)
      ensures forall t :: t in tenants && t in faults.held ==> Outcome(t, 0) in migrated
      ensures failed == [] ==>
        ((forall t :: t in tenants ==> recorded[t] >= highest) <==>
         (forall t :: t in tenants && t in faults.held ==> old(recorded)[t] >= highest))
    {
      migrated, failed := [], [];
      ghost var a0, r0 := applied, recorded;
      for n := 0 to |tenants|
        invariant Valid() && recorded.Keys == r0.Keys && applied.Keys == a0.Keys
        invariant forall i :: n <= i < |tenants| ==> Untouched(tenants[i], a0, r0, applied, recorded)
        invariant forall i :: 0 <= i < n ==>
          Handled(tenants[i], highest, tenants[i] in faults.held, tenants[i] in failed, a0, r0, applied, recorded)
        invariant forall t :: t in failed <==> t in tenants[..n] && Fails(t, highest, a0, faults)
        invariant forall i :: 0 <= i < n && tenants[i] in faults.held ==> Outcome(tenants[i], 0) in migrated
      {
        var t := tenants[n];
        ghost var a, r, failedBefore := applied, recorded, failed;
        assert Untouched(t, a0, r0, a, r);
        var version, ok := MigrateOne(t, highest, faults);
        if ok { migrated := migrated + [Outcome(t, version)]; } else { failed := failed + [t]; }
        assert ok <==> !Fails(t, highest, a0, faults);
        FailedSoFar(tenants, n, highest, a0, faults, failedBefore, failed);
        OthersKept(tenants, n, highest, faults, failedBefore, failed, a0, r0, a, r, applied, recorded);
      }
      assert tenants[..|tenants|] == tenants;
      assert forall t :: t in tenants ==> Handled(t, highest, t in faults.held, t in failed, a0, r0, applied, recorded);
      if failed == [] { NoFailureMeans(tenants, highest, faults, a0, r0, applied, recorded); }
    }
  }

  ghost predicate Fails(t: TenantId, highest: nat, a0: map<TenantId, nat>, faults: Faults) {
    t !in faults.held && (t in faults.unrecorded || Stuck(a0, t, highest, faults))
  }

  lemma FailedSoFar(tenants: seq<TenantId>, n: nat, highest: nat, a0: map<TenantId, nat>, faults: Faults,
                    before: seq<TenantId>, failed: seq<TenantId>)
    requires n < |tenants| && forall t :: t in before <==> t in tenants[..n] && Fails(t, highest, a0, faults)
    requires failed == if Fails(tenants[n], highest, a0, faults) then before + [tenants[n]] else before
    ensures forall t :: t in failed <==> t in tenants[..n + 1] && Fails(t, highest, a0, faults)
  {
    assert tenants[..n + 1] == tenants[..n] + [tenants[n]];
  }

  /** Migrating one tenant moves no other. */
  lemma OthersKept(tenants: seq<TenantId>, n: nat, highest: nat, faults: Faults, before: seq<TenantId>,
                   failed: seq<TenantId>,
                   a0: map<TenantId, nat>, r0: map<TenantId, nat>, a: map<TenantId, nat>, r: map<TenantId, nat>,
                   a': map<TenantId, nat>, r': map<TenantId, nat>)
    requires n < |tenants| && Distinct(tenants) && a'.Keys == a.Keys && r'.Keys == r.Keys
    requires (forall t :: t in a && t != tenants[n] ==> a'[t] == a[t])
    requires (forall t :: t in r && t != tenants[n] ==> r'[t] == r[t])
    requires forall t :: t != tenants[n] ==> (t in failed <==> t in before)
    requires forall i :: n <= i < |tenants| ==> Untouched(tenants[i], a0, r0, a, r)
    requires forall i :: 0 <= i < n ==>
      Handled(tenants[i], highest, tenants[i] in faults.held, tenants[i] in before, a0, r0, a, r)
    ensures forall i :: n < i < |tenants| ==> Untouched(tenants[i], a0, r0, a', r')
    ensures forall i :: 0 <= i < n ==>
      Handled(tenants[i], highest, tenants[i] in faults.held, tenants[i] in failed, a0, r0, a', r')
  {
    forall i | n < i < |tenants| ensures Untouched(tenants[i], a0, r0, a', r') {
      assert Untouched(tenants[i], a0, r0, a, r) && tenants[n] != tenants[i];
    }
    forall i | 0 <= i < n
      ensures Handled(tenants[i], highest, tenants[i] in faults.held, tenants[i] in failed, a0, r0, a', r')
    {
      assert Handled(tenants[i], highest, tenants[i] in faults.held, tenants[i] in before, a0, r0, a, r);
      assert tenants[i] != tenants[n];
    }
  }

  lemma NoFailureMeans(tenants: seq<TenantId>, highest: nat, faults: Faults, a0: map<TenantId, nat>,
                       r0: map<TenantId, nat>, a: map<TenantId, nat>, r: map<TenantId, nat>)
    requires forall t :: t in tenants ==> Handled(t, highest, t in faults.held, false, a0, r0, a, r)
    ensures forall t :: t in tenants ==> t in r && t in r0
    ensures (forall t :: t in tenants ==> r[t] >= highest) <==>
      (forall t :: t in tenants && t in faults.held ==> r0[t] >= highest)
  {
    forall t | t in tenants ensures t in r && t in r0 && (r[t] >= highest <==> t !in faults.held || r0[t] >= highest) {
      assert Handled(t, highest, t in faults.held, false, a0, r0, a, r);
    }
  }

  /** A second run with nothing held and nothing failing brings everyone whose
      database exists to the highest version, whatever the first one left behind. */
  method Rerun(fleet: Fleet, tenants: seq<TenantId>, highest: nat, faults: Faults) returns (failed: seq<TenantId>)
    requires fleet.Valid() && Distinct(tenants) && forall t :: t in tenants ==> t in fleet.recorded
    modifies fleet
    ensures fleet.Valid() && forall t :: t in failed <==> t in tenants && t !in old(fleet.applied)
    ensures forall t :: t in tenants && t in old(fleet.applied) ==>
      t in fleet.recorded && t in fleet.applied && fleet.recorded[t] == fleet.applied[t] >= highest
  {
    var migrated0, failed0 := fleet.RunAll(tenants, highest, faults);
    var migrated1, failed1 := fleet.RunAll(tenants, highest, NoFaults);
    failed := failed1;
  }
}
