/** Resolver.Open: the status and schema rules, and what they guarantee when the
    record comes from the cache and the version from the migration runner. */
module Resolver {
  import opened Basics
  import R = Registry
  import M = Migration

  datatype Handle = Writable | ReadOnly

  datatype OpenResult = Opened(handle: Handle) | TenantUnavailable | TenantNotFound | SchemaOutdated

  /** Open up to the pool: statuses first, then an exact version match. */
  method Decide(rec: R.Record, expected: int) returns (r: OpenResult)
    ensures r == Opened(Writable) <==> rec.status == R.Active && rec.schemaVersion == expected
    ensures r == Opened(ReadOnly) <==> rec.status == R.Suspended && rec.schemaVersion == expected
    ensures r == SchemaOutdated <==>
      (rec.status == R.Active || rec.status == R.Suspended) && rec.schemaVersion != expected
    ensures r == TenantUnavailable <==> rec.status == R.Provisioning || rec.status == R.Deleting
    ensures r == TenantNotFound <==> rec.status == R.Deleted || rec.status == R.Unknown
  {
    var readOnly := false;
    match rec.status {
      case Active =>
      case Suspended => readOnly := true;
      case Provisioning => return TenantUnavailable;
      case Deleting => return TenantUnavailable;
      case Deleted => return TenantNotFound;
      case Unknown => return TenantNotFound;
    }
    if rec.schemaVersion != expected { return SchemaOutdated; }
    return Opened(if readOnly then ReadOnly else Writable);
  }

  ghost predicate Serves(rec: R.Record, expected: int) {
    (rec.status == R.Active || rec.status == R.Suspended) && rec.schemaVersion == expected
  }

  /** The control plane through time: `when` places instants in a migration
      history, and the loader reads the recorded version (zero when there is none). */
  ghost predicate ReadsHistory(truth: R.Truth, h: seq<M.State>, when: Time -> nat) {
    && M.History(h)
    && (forall t :: when(t) < |h|)
    && (forall t, u :: t <= u ==> when(t) <= when(u))
    && (forall id, t :: truth(id, t).schemaVersion ==
          if id in h[when(t)].recorded then h[when(t)].recorded[id] else 0)
  }

  /** However stale the cached record and whatever runners, failures and crashes
      lie behind it, a tenant that Open serves has at least the expected
      migrations applied at the moment it is served. */
  lemma ServedIsMigrated(c: R.Config, truth: R.Truth, steps: seq<R.Step>, last: R.Step,
                         h: seq<M.State>, when: Time -> nat, expected: int)
    requires c.ttl >= 0 && R.Runs(c, truth, R.Start, steps)
    requires R.Enabled(c, R.After(c, truth, R.Start, steps), last) && (last.Serve? || last.Finish?)
    requires ReadsHistory(truth, h, when) && expected > 0
    requires Serves(R.Returned(c, R.After(c, truth, R.Start, steps), last), expected)
    ensures var id := R.Subject(c, R.After(c, truth, R.Start, steps), last);
      id in h[when(last.now)].applied && h[when(last.now)].applied[id] >= expected
  {
    var id := R.Subject(c, R.After(c, truth, R.Start, steps), last);
    var at := R.BoundedStaleness(c, truth, steps, last);
    assert when(at) <= when(last.now);
    assert truth(id, at).schemaVersion == expected;
    M.RecordedIsApplied(h, when(at), when(last.now), id);
  }
}
