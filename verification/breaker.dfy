/** The circuit breaker in front of a provider, the retry loop that runs through it,
    and the loop's back-off. Times and durations are in nanoseconds. */
module CircuitBreaker {
  datatype Phase = Closed | Open | HalfOpen

  /** The breaker's fields. A threshold that is not positive disables it. */
  datatype Circuit = Circuit(threshold: int, cooldown: int, fails: int, phase: Phase, openUntil: int)

  ghost predicate Admits(c: Circuit, now: int) {
    c.threshold <= 0 || c.phase != Open || now >= c.openUntil
  }

  ghost function Tripped(c: Circuit, now: int): Circuit {
    c.(phase := Open, fails := 0, openUntil := now + c.cooldown)
  }

  /** The breaker while an admitted call runs: an open one is on trial. */
  ghost function Entered(c: Circuit): Circuit {
    if c.threshold > 0 && c.phase == Open then c.(phase := HalfOpen) else c
  }

  /** The breaker once a call has ended at `end`. */
  ghost function Recorded(c: Circuit, failed: bool, end: int): Circuit {
    if c.threshold <= 0 then c
    else if !failed then c.(fails := 0, phase := Closed)
    else if c.phase == HalfOpen || c.fails + 1 >= c.threshold then Tripped(c, end)
    else c.(fails := c.fails + 1)
  }

  class Breaker {
    const threshold: int
    const cooldown: int
    var fails: int
    var phase: Phase
    var openUntil: int

    ghost function View(): Circuit
      reads this
    {
      Circuit(threshold, cooldown, fails, phase, openUntil)
    }

    constructor (threshold: int, cooldown: int)
      ensures View() == Circuit(threshold, cooldown, 0, Closed, 0)
    {
      this.threshold, this.cooldown := threshold, cooldown;
      fails, phase, openUntil := 0, Closed, 0;
    }

    method Allow(now: int) returns (ok: bool)
      modifies this
      ensures ok == Admits(old(View()), now)
      ensures View() == if ok then Entered(old(View())) else old(View())
    {
      if threshold <= 0 { return true; }
      if phase == Open {
        if now < openUntil { return false; }
        phase := HalfOpen;
      }
      return true;
    }

    method Record(failed: bool, now: int)
      modifies this
      ensures View() == Recorded(old(View()), failed, now)
    {
      if threshold <= 0 { return; }
      if !failed {
        fails, phase := 0, Closed;
        return;
      }
      if phase == HalfOpen {
        Trip(now);
        return;
      }
      fails := fails + 1;
      if fails >= threshold { Trip(now); }
    }

    method Trip(now: int)
      modifies this
      ensures View() == Tripped(old(View()), now)
    {
      phase, fails, openUntil := Open, 0, now + cooldown;
    }
  }

  // ---- Sequential use -------------------------------------------------------------

  /** One pass of a caller: it asks at `start`; if admitted, the raw call ends at
      `end` with the given outcome. */
  datatype Attempt = Attempt(start: int, end: int, failed: bool)

  ghost function Step(c: Circuit, a: Attempt): Circuit {
    if Admits(c, a.start) then Recorded(Entered(c), a.failed, a.end) else c
  }

  ghost function After(c: Circuit, run: seq<Attempt>): Circuit
    decreases |run|
  {
    if run == [] then c else After(Step(c, run[0]), run[1..])
  }

  /** The raw calls of a run that ended in the given outcome. */
  ghost function Calls(c: Circuit, run: seq<Attempt>, failed: bool): nat
    decreases |run|
  {
    if run == [] then 0
    else
      (if Admits(c, run[0].start) && run[0].failed == failed then 1 else 0)
      + Calls(Step(c, run[0]), run[1..], failed)
  }

  /** Each attempt starts once the one before it is over. */
  ghost predicate Sequential(run: seq<Attempt>) {
    && (forall i :: 0 <= i < |run| ==> run[i].start <= run[i].end)
    && (forall i, j :: 0 <= i < j < |run| ==> run[i].end <= run[j].start)
  }

  /** Between two calls. */
  ghost predicate AtRest(c: Circuit) {
    && c.phase != HalfOpen && 0 <= c.fails
    && (c.threshold > 0 ==> c.fails < c.threshold) && (c.phase == Open ==> c.fails == 0)
  }

  lemma {:induction false} AfterAppend(c: Circuit, a: seq<Attempt>, b: seq<Attempt>)
    ensures After(c, a + b) == After(After(c, a), b)
    ensures forall f :: Calls(c, a + b, f) == Calls(c, a, f) + Calls(After(c, a), b, f)
    decreases |a|
  {
    if a == [] {
      assert a + b == b;
    } else {
      assert (a + b)[0] == a[0] && (a + b)[1..] == a[1..] + b;
      AfterAppend(Step(c, a[0]), a[1..], b);
    }
  }

  lemma {:induction false} StaysAtRest(c: Circuit, run: seq<Attempt>)
    requires AtRest(c)
    ensures AtRest(After(c, run)) && After(c, run).threshold == c.threshold && After(c, run).cooldown == c.cooldown
    decreases |run|
  {
    if run != [] { StaysAtRest(Step(c, run[0]), run[1..]); }
  }

  /** While disabled, the breaker admits every call and never moves. */
  lemma {:induction false} DisabledAdmitsAll(c: Circuit, run: seq<Attempt>)
    requires c.threshold <= 0
    ensures After(c, run) == c && Calls(c, run, true) + Calls(c, run, false) == |run|
  {
    if run != [] { DisabledAdmitsAll(c, run[1..]); }
  }

  // ---- What trips it ------------------------------------------------------------------

  /** Among the failures carried in and the calls of the run, no `threshold` failures
      come in a row. */
  ghost predicate NoStreak(threshold: int, carried: int, run: seq<Attempt>)
    decreases |run|
  {
    carried < threshold
    && (run == [] || NoStreak(threshold, if run[0].failed then carried + 1 else 0, run[1..]))
  }

  /** A closed breaker stays closed, and admits every call, exactly as long as no
      `threshold` failures come in a row; a success wipes the count. */
  lemma {:induction false} StaysClosedIff(c: Circuit, run: seq<Attempt>)
    requires c.threshold > 0 && c.phase == Closed && 0 <= c.fails < c.threshold
    ensures (forall k :: 0 <= k <= |run| ==> After(c, run[..k]).phase == Closed)
       <==> NoStreak(c.threshold, c.fails, run)
    ensures NoStreak(c.threshold, c.fails, run) ==> Calls(c, run, true) + Calls(c, run, false) == |run|
    decreases |run|
  {
    if run != [] {
      var d, rest := Step(c, run[0]), run[1..];
      forall k | 0 <= k <= |rest| ensures After(c, run[..k + 1]) == After(d, rest[..k]) {
        assert run[..k + 1][0] == run[0] && run[..k + 1][1..] == rest[..k];
      }
      assert run[..0] == [] && rest[..0] == [];
      if d.phase == Closed {
        StaysClosedIff(d, rest);
        ClosedAfterFirst(c, run);
      } else {
        assert After(c, run[..1]) == After(d, rest[..0]) == d;
      }
    } else {
      assert run[..0] == [];
    }
  }

  lemma ClosedAfterFirst(c: Circuit, run: seq<Attempt>)
    requires run != [] && c.phase == Closed
    requires forall k :: 0 <= k <= |run| - 1 ==> After(c, run[..k + 1]) == After(Step(c, run[0]), run[1..][..k])
    ensures (forall k :: 0 <= k <= |run| ==> After(c, run[..k]).phase == Closed) <==>
      (forall k :: 0 <= k <= |run| - 1 ==> After(Step(c, run[0]), run[1..][..k]).phase == Closed)
  {
    assert run[..0] == [];
    if forall k :: 0 <= k <= |run| - 1 ==> After(Step(c, run[0]), run[1..][..k]).phase == Closed {
      forall k | 0 < k <= |run| ensures After(c, run[..k]).phase == Closed {
        assert After(c, run[..(k - 1) + 1]) == After(Step(c, run[0]), run[1..][..k - 1]);
      }
    }
    if forall k :: 0 <= k <= |run| ==> After(c, run[..k]).phase == Closed {
      forall k | 0 <= k <= |run| - 1 ensures After(Step(c, run[0]), run[1..][..k]).phase == Closed {
        assert After(c, run[..k + 1]).phase == Closed;
      }
    }
  }

  /** One of the n calls from position i on succeeds. */
  ghost predicate Succeeds(run: seq<Attempt>, i: int, n: int) {
    exists k :: i <= k < i + n && 0 <= k < |run| && !run[k].failed
  }

  /** One of any `threshold` calls in a row succeeds, and one of the first so many that
      the carried failures leave. */
  ghost predicate SucceedsInTime(threshold: int, carried: int, run: seq<Attempt>) {
    && (forall i :: 0 <= i <= |run| - threshold ==> Succeeds(run, i, threshold))
    && (threshold - carried <= |run| ==> Succeeds(run, 0, threshold - carried))
  }

  lemma SucceedsShift(run: seq<Attempt>, i: nat, n: int)
    requires run != []
    ensures Succeeds(run[1..], i, n) <==> Succeeds(run, i + 1, n)
  {
    var rest := run[1..];
    if k :| i <= k < i + n && 0 <= k < |rest| && !rest[k].failed { assert !run[k + 1].failed; }
    if k :| i + 1 <= k < i + 1 + n && 0 <= k < |run| && !run[k].failed { assert !rest[k - 1].failed; }
  }

  lemma SucceedsMore(run: seq<Attempt>, i: int, n: int, m: int)
    requires n <= m && Succeeds(run, i, n)
    ensures Succeeds(run, i, m)
  {
    var k :| i <= k < i + n && 0 <= k < |run| && !run[k].failed;
  }

  lemma FailedFirst(threshold: int, carried: int, run: seq<Attempt>)
    requires 0 <= carried && carried + 1 < threshold && run != [] && run[0].failed
    ensures SucceedsInTime(threshold, carried, run) <==> SucceedsInTime(threshold, carried + 1, run[1..])
  {
    var rest := run[1..];
    forall i: nat ensures Succeeds(rest, i, threshold) <==> Succeeds(run, i + 1, threshold) {
      SucceedsShift(run, i, threshold);
    }
    SucceedsShift(run, 0, threshold - carried - 1);
    if Succeeds(run, 0, threshold - carried) {
      var k :| 0 <= k < threshold - carried && k < |run| && !run[k].failed;
      assert 1 <= k;
      assert Succeeds(run, 1, threshold - carried - 1);
      SucceedsMore(run, 0, threshold - carried, threshold);
    }
    if Succeeds(run, 1, threshold - carried - 1) {
      var k :| 1 <= k < threshold - carried && k < |run| && !run[k].failed;
      assert Succeeds(run, 0, threshold - carried);
    }
    if SucceedsInTime(threshold, carried + 1, rest) {
      forall i | 0 <= i <= |run| - threshold ensures Succeeds(run, i, threshold) {
        if i > 0 { assert Succeeds(rest, i - 1, threshold); }
      }
    }
  }

  lemma SucceededFirst(threshold: int, carried: int, run: seq<Attempt>)
    requires 0 <= carried < threshold && run != [] && !run[0].failed
    ensures SucceedsInTime(threshold, carried, run) <==> SucceedsInTime(threshold, 0, run[1..])
  {
    var rest := run[1..];
    forall i: nat ensures Succeeds(rest, i, threshold) <==> Succeeds(run, i + 1, threshold) {
      SucceedsShift(run, i, threshold);
    }
    assert forall n :: n > 0 ==> Succeeds(run, 0, n);
    if SucceedsInTime(threshold, 0, rest) {
      forall i | 0 <= i <= |run| - threshold ensures Succeeds(run, i, threshold) {
        if i > 0 { assert Succeeds(rest, i - 1, threshold); }
      }
    }
  }

  lemma {:induction false} NoStreakMeans(threshold: int, carried: int, run: seq<Attempt>)
    requires 0 <= carried < threshold
    ensures NoStreak(threshold, carried, run) <==> SucceedsInTime(threshold, carried, run)
    decreases |run|
  {
    if run == [] {
    } else if !run[0].failed {
      NoStreakMeans(threshold, 0, run[1..]);
      SucceededFirst(threshold, carried, run);
    } else if carried + 1 < threshold {
      NoStreakMeans(threshold, carried + 1, run[1..]);
      FailedFirst(threshold, carried, run);
    } else {
      assert !Succeeds(run, 0, 1);
    }
  }

  /** A success in any state closes the breaker with a clean count; a failing trial opens
      it for a cooldown from its end. */
  lemma TrialDecides(c: Circuit, a: Attempt)
    requires c.threshold > 0 && Admits(c, a.start)
    ensures !a.failed ==> Step(c, a).phase == Closed && Step(c, a).fails == 0
    ensures a.failed && c.phase != Closed ==> Step(c, a).phase == Open && Step(c, a).openUntil == a.end + c.cooldown
  {
  }

  /** So a fresh breaker stays closed exactly as long as among any `threshold` calls in
      a row one succeeds. */
  lemma TripsOnStreakOnly(threshold: int, cooldown: int, run: seq<Attempt>)
    requires threshold > 0
    ensures var c := Circuit(threshold, cooldown, 0, Closed, 0);
      (forall k :: 0 <= k <= |run| ==> After(c, run[..k]).phase == Closed)
      <==> (forall i :: 0 <= i <= |run| - threshold ==> Succeeds(run, i, threshold))
  {
    StaysClosedIff(Circuit(threshold, cooldown, 0, Closed, 0), run);
    NoStreakMeans(threshold, 0, run);
  }

  // ---- The long-run bound -----------------------------------------------------------

  /** Failures that the breaker takes before it makes the caller wait. */
  ghost function Spare(c: Circuit): int {
    if c.phase == Open then 1 else c.threshold - c.fails
  }

  /** When the first call can be made. */
  ghost function Ready(c: Circuit, now: int): int {
    if c.phase == Open && c.openUntil > now then c.openUntil else now
  }

  ghost predicate InWindow(run: seq<Attempt>, from: int, until: int) {
    forall i :: 0 <= i < |run| ==> from <= run[i].start <= until
  }

  /** n times `each`, as a sum. */
  ghost function Times(n: nat, each: int): int {
    if n == 0 then 0 else Times(n - 1, each) + each
  }

  lemma {:induction false} TimesIsProduct(n: nat, each: int)
    ensures Times(n, each) == n * each
  {
    if n > 0 {
      TimesIsProduct(n - 1, each);
      assert n * each == (n - 1) * each + each;
    }
  }

  lemma {:induction false} TimesGrows(n: nat, m: nat, each: int)
    requires n <= m && each >= 0
    ensures 0 <= Times(n, each) <= Times(m, each)
  {
    if n < m { TimesGrows(n, m - 1, each); } else if n > 0 { TimesGrows(n - 1, n - 1, each); }
  }

  /** A count of failures, beyond what was spare and an allowance, fits in the time. */
  ghost predicate Fits(failures: nat, spare: int, allowance: int, cooldown: int, time: int) {
    failures - spare - allowance > 0 ==> Times(failures - spare - allowance, cooldown) <= time
  }

  /** From any state at rest: beyond the spare failures and a fresh threshold per
      success, every failing call costs a cooldown. */
  lemma {:induction false} FailuresCostCooldowns(c: Circuit, run: seq<Attempt>, from: int, until: int)
    requires AtRest(c) && c.threshold > 0 && c.cooldown >= 0 && Sequential(run) && InWindow(run, from, until)
    ensures Calls(c, run, true) > 0 ==> Ready(c, from) <= until
    ensures Fits(Calls(c, run, true), Spare(c), Times(Calls(c, run, false), c.threshold),
                 c.cooldown, until - Ready(c, from))
    decreases |run|
  {
    if run == [] { return; }
    var a, rest := run[0], run[1..];
    var d := Step(c, a);
    assert Sequential(rest);
    if !Admits(c, a.start) {
      FailuresCostCooldowns(c, rest, from, until);
      return;
    }
    var next := if a.end <= until then a.end else until;
    assert InWindow(rest, next, until) by {
      forall i | 0 <= i < |rest| ensures next <= rest[i].start <= until { assert rest[i] == run[i + 1]; }
    }
    FailuresCostCooldowns(d, rest, next, until);
    var f, k := Calls(d, rest, true), Calls(d, rest, false);
    if a.failed {
      TimesGrows(0, k, c.threshold);
      FailureCosts(c, a, from, next, until, f, Times(k, c.threshold));
    } else {
      SuccessCosts(c, a, from, next, until, f, Times(k, c.threshold));
    }
  }

  lemma FailureCosts(c: Circuit, a: Attempt, from: int, next: int, until: int, f: nat, allowance: int)
    requires AtRest(c) && c.threshold > 0 && c.cooldown >= 0 && Admits(c, a.start) && a.failed && from <= a.start
    requires a.start <= a.end && a.start <= next <= until
    requires next == (if a.end <= until then a.end else until) && allowance >= 0
    requires f > 0 ==> Ready(Step(c, a), next) <= until
    requires Fits(f, Spare(Step(c, a)), allowance, c.cooldown, until - Ready(Step(c, a), next))
    ensures Fits(f + 1, Spare(c), allowance, c.cooldown, until - Ready(c, from))
  {
    var d := Step(c, a);
    if d.phase == Open {
      TripCosts(c.cooldown, f, allowance, next, Ready(d, next), until);
      assert Ready(c, from) <= next && Spare(c) == 1;
    } else {
      assert f + 1 - Spare(c) == f - Spare(d);
    }
  }

  /** The trip makes the next call wait for a cooldown from the failure. */
  lemma TripCosts(cooldown: int, f: nat, allowance: int, end: int, ready: int, until: int)
    requires cooldown >= 0 && allowance >= 0 && end + cooldown <= ready && end <= until
    requires f > 0 ==> ready <= until
    requires Fits(f, 1, allowance, cooldown, until - ready)
    ensures Fits(f + 1, 1, allowance, cooldown, until - end)
  {
    if f - allowance == 1 { assert Times(1, cooldown) == Times(0, cooldown) + cooldown; }
  }

  lemma SuccessCosts(c: Circuit, a: Attempt, from: int, next: int, until: int, f: nat, allowance: int)
    requires AtRest(c) && c.threshold > 0 && c.cooldown >= 0 && Admits(c, a.start) && !a.failed
    requires from <= a.start <= next
    requires Fits(f, Spare(Step(c, a)), allowance, c.cooldown, until - Ready(Step(c, a), next))
    ensures Fits(f, Spare(c), allowance + c.threshold, c.cooldown, until - Ready(c, from))
  {
    var less := f - Spare(c) - allowance - c.threshold;
    if less > 0 { TimesGrows(less, f - c.threshold - allowance, c.cooldown); }
  }

  lemma FitsBounds(f: nat, spare: int, allowance: int, cooldown: int, time: nat)
    requires cooldown > 0 && spare >= 0 && Fits(f, spare, allowance, cooldown, time)
    ensures f <= spare + allowance + time / cooldown
  {
    var over := f - spare - allowance;
    if over > 0 {
      TimesIsProduct(over, cooldown);
      QuotientBounds(over, cooldown, time);
    } else {
      QuotientBounds(0, cooldown, time);
    }
  }

  lemma QuotientBounds(over: int, cooldown: int, time: int)
    requires cooldown > 0 && over * cooldown <= time
    ensures over <= time / cooldown
  {
    var short := over - time / cooldown - 1;
    assert short * cooldown == over * cooldown - (time / cooldown) * cooldown - cooldown;
    assert short * cooldown < 0;
    assert short < 0;
  }

  /** In any window of length `time` of any sequential run, the failing calls number
      at most threshold + time / cooldown, and a threshold more for each success in
      the window. */
  lemma WindowBound(threshold: int, cooldown: int, run: seq<Attempt>, i: nat, j: nat, from: int, time: nat)
    requires threshold > 0 && cooldown > 0 && Sequential(run) && i <= j <= |run|
    requires InWindow(run[i..j], from, from + time)
    ensures var c := After(Circuit(threshold, cooldown, 0, Closed, 0), run[..i]);
            Calls(c, run[i..j], true) <= threshold + time / cooldown + Calls(c, run[i..j], false) * threshold
  {
    var start := Circuit(threshold, cooldown, 0, Closed, 0);
    StaysAtRest(start, run[..i]);
    SliceSequential(run, i, j);
    WindowFrom(After(start, run[..i]), run[i..j], from, time);
  }

  /** The same from any state between two calls. */
  lemma WindowFrom(c: Circuit, run: seq<Attempt>, from: int, time: nat)
    requires AtRest(c) && c.threshold > 0 && c.cooldown > 0 && Sequential(run) && InWindow(run, from, from + time)
    ensures Calls(c, run, true) <= c.threshold + time / c.cooldown + Calls(c, run, false) * c.threshold
  {
    FailuresCostCooldowns(c, run, from, from + time);
    var f, k := Calls(c, run, true), Calls(c, run, false);
    var allowance := Times(k, c.threshold);
    if Ready(c, from) <= from + time {
      FitsLonger(f, Spare(c), allowance, c.cooldown, from + time - Ready(c, from), time);
    } else {
      assert f == 0;
      TimesGrows(0, k, c.threshold);
    }
    FitsBounds(f, Spare(c), allowance, c.cooldown, time);
    TimesIsProduct(k, c.threshold);
  }

  lemma FitsLonger(f: nat, spare: int, allowance: int, cooldown: int, time: int, longer: int)
    requires Fits(f, spare, allowance, cooldown, time) && time <= longer
    ensures Fits(f, spare, allowance, cooldown, longer)
  {
  }

  lemma SliceSequential(run: seq<Attempt>, i: nat, j: nat)
    requires Sequential(run) && i <= j <= |run|
    ensures Sequential(run[i..j])
  {
  }

  /** Back-to-back calls up to the threshold, then one as soon as each cooldown ends. */
  ghost function Hammer(threshold: nat, cooldown: nat, trials: nat): seq<Attempt> {
    seq(threshold + trials, i requires 0 <= i => HammerAt(threshold, cooldown, i))
  }

  ghost function HammerAt(threshold: nat, cooldown: nat, i: nat): Attempt {
    var t := if i < threshold then 0 else Times(i - threshold + 1, cooldown);
    Attempt(t, t, true)
  }

  lemma HammerOrdered(threshold: nat, cooldown: nat, i: nat, j: nat)
    requires i <= j
    ensures 0 <= HammerAt(threshold, cooldown, i).end <= HammerAt(threshold, cooldown, j).start
  {
    if i >= threshold {
      TimesGrows(i - threshold + 1, j - threshold + 1, cooldown);
    } else if j >= threshold {
      TimesGrows(0, j - threshold + 1, cooldown);
    }
  }

  /** The bound is reached: a caller that keeps asking gets that many calls through
      in a window of exactly `trials` cooldowns. */
  lemma {:induction false} BoundIsReached(threshold: nat, cooldown: nat, trials: nat)
    requires threshold > 0
    ensures Sequential(Hammer(threshold, cooldown, trials))
    ensures InWindow(Hammer(threshold, cooldown, trials), 0, trials * cooldown)
    ensures Calls(Circuit(threshold, cooldown, 0, Closed, 0), Hammer(threshold, cooldown, trials), true)
         == threshold + trials
  {
    var run := Hammer(threshold, cooldown, trials);
    forall i, j | 0 <= i < j < |run| ensures run[i].end <= run[j].start {
      HammerOrdered(threshold, cooldown, i, j);
    }
    forall i | 0 <= i < |run| ensures run[i].start <= run[i].end && 0 <= run[i].start <= trials * cooldown {
      HammerOrdered(threshold, cooldown, i, threshold + trials - 1);
      TimesIsProduct(trials, cooldown);
      HammerOrdered(threshold, cooldown, i, i);
    }
    HammerFrom(threshold, cooldown, trials, 0);
    assert run[0..] == run;
  }

  /** The breaker before the i-th call of the hammering. */
  ghost function Hammered(threshold: nat, cooldown: nat, i: nat): Circuit {
    if i < threshold then Circuit(threshold, cooldown, i, Closed, 0)
    else Circuit(threshold, cooldown, 0, Open, Times(i - threshold + 1, cooldown))
  }

  lemma {:induction false} HammerFrom(threshold: nat, cooldown: nat, trials: nat, i: nat)
    requires threshold > 0 && i <= threshold + trials
    ensures Calls(Hammered(threshold, cooldown, i), Hammer(threshold, cooldown, trials)[i..], true)
         == threshold + trials - i
    decreases threshold + trials - i
  {
    var run := Hammer(threshold, cooldown, trials);
    if i < |run| {
      assert run[i..][0] == run[i] && run[i..][1..] == run[i + 1..];
      HammerStep(threshold, cooldown, i);
      HammerFrom(threshold, cooldown, trials, i + 1);
    }
  }

  lemma HammerStep(threshold: nat, cooldown: nat, i: nat)
    requires threshold > 0
    ensures Admits(Hammered(threshold, cooldown, i), HammerAt(threshold, cooldown, i).start)
    ensures Step(Hammered(threshold, cooldown, i), HammerAt(threshold, cooldown, i))
         == Hammered(threshold, cooldown, i + 1)
  {
    if i + 1 == threshold { assert Times(1, cooldown) == Times(0, cooldown) + cooldown; }
  }
}
