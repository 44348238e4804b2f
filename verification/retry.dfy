/** The retry loop of the resilient provider and its back-off. Durations are 64-bit
    nanosecond counts. */
module Retry {
  import opened Basics
  import opened CircuitBreaker

  // ---- Back-off -----------------------------------------------------------------

  const BaseBackoff: int := 200_000_000
  const MaxBackoff: int := 5_000_000_000

  /** The value that the low 64 bits of x stand for in two's complement. */
  function Wrap64(x: int): int {
    var low := x % 0x1_0000_0000_0000_0000;
    if low < 0x8000_0000_0000_0000 then low else low - 0x1_0000_0000_0000_0000
  }

  /** Shifting by n is shifting n times by one; bits pushed out of the 64 are lost. */
  function ShiftLeft(x: int, n: nat): int {
    if n == 0 then x else Wrap64(2 * ShiftLeft(x, n - 1))
  }

  /** The delay before the attempt, which counts from 1. `hint` is the server's
      Retry-After, zero when it sent none. */
  function Backoff(attempt: nat, hint: int): int
    requires attempt >= 1
  {
    if hint > 0 then hint
    else
      var d := ShiftLeft(BaseBackoff, attempt - 1);
      if d > MaxBackoff || d <= 0 then MaxBackoff else d
  }

  ghost function Pow2(n: nat): nat {
    if n == 0 then 1 else 2 * Pow2(n - 1)
  }

  lemma {:induction false} Pow2Grows(n: nat, m: nat)
    requires n <= m
    ensures 1 <= Pow2(n) <= Pow2(m)
  {
    if n < m { Pow2Grows(n, m - 1); } else if n > 0 { Pow2Grows(n - 1, n - 1); }
  }

  lemma PowersUsed()
    ensures Pow2(5) == 32 && Pow2(24) == 0x100_0000
  {
    assert Pow2(8) == 256;
    assert Pow2(16) == 0x1_0000;
  }

  lemma SmallStays(x: int)
    requires 0 <= x < 0x8000_0000_0000_0000
    ensures Wrap64(x) == x
  {
  }

  /** Nothing is lost while the result stays within 63 bits. */
  lemma {:induction false} EarlyShiftsAreExact(n: nat)
    requires n <= 24
    ensures ShiftLeft(BaseBackoff, n) == BaseBackoff * Pow2(n)
  {
    if n > 0 {
      EarlyShiftsAreExact(n - 1);
      Pow2Grows(n - 1, 23);
      assert Pow2(23) == 0x80_0000 by { PowersUsed(); }
      SmallStays(2 * ShiftLeft(BaseBackoff, n - 1));
    }
  }

  /** From 24 shifts on, the low 33 bits are gone, whatever has wrapped. */
  lemma {:induction false} LateShiftsAreCoarse(n: nat) returns (k: int)
    requires n >= 24
    ensures ShiftLeft(BaseBackoff, n) == 0x2_0000_0000 * k
  {
    if n == 24 {
      EarlyShiftsAreExact(24);
      PowersUsed();
      k := 390625;
    } else {
      k := LateShiftsAreCoarse(n - 1);
      k := WrapKeepsCoarse(2 * ShiftLeft(BaseBackoff, n - 1), 2 * k);
    }
  }

  lemma WrapKeepsCoarse(x: int, k: int) returns (j: int)
    requires x == 0x2_0000_0000 * k
    ensures Wrap64(x) == 0x2_0000_0000 * j
  {
    var q := x / 0x1_0000_0000_0000_0000;
    j := k - 0x8000_0000 * q;
    if Wrap64(x) < 0 { j := j - 0x8000_0000; }
  }

  /** The wrap-around never shows: without a hint the delay is the capped doubling,
      for every attempt number. */
  lemma BackoffIsCappedDoubling(attempt: nat)
    requires attempt >= 1
    ensures Backoff(attempt, 0) == Min(MaxBackoff, BaseBackoff * Pow2(attempt - 1))
  {
    var n := attempt - 1;
    if n <= 24 {
      EarlyShiftsAreExact(n);
      Pow2Grows(0, n);
    } else {
      var k := LateShiftsAreCoarse(n);
      PowersUsed();
      Pow2Grows(5, n);
    }
  }

  /** A server's hint is taken as it is: the delay stays under the cap exactly when
      the hint does. */
  lemma HintIsNotCapped(attempt: nat, hint: int)
    requires attempt >= 1
    ensures Backoff(attempt, hint) <= MaxBackoff <==> hint <= MaxBackoff
    ensures hint > 0 ==> Backoff(attempt, hint) == hint
    ensures hint <= 0 ==> Backoff(attempt, hint) == Backoff(attempt, 0)
  {
  }

  lemma BackoffGrows(a: nat, b: nat)
    requires 1 <= a <= b
    ensures 0 < Backoff(a, 0) <= Backoff(b, 0) <= MaxBackoff
  {
    BackoffIsCappedDoubling(a);
    BackoffIsCappedDoubling(b);
    Pow2Grows(a - 1, b - 1);
  }

  /** The waits before attempts 1 to n. */
  ghost function TotalWait(n: nat): int {
    if n == 0 then 0 else TotalWait(n - 1) + Backoff(n, 0)
  }

  lemma {:induction false} TotalWaitClosed(n: nat)
    ensures TotalWait(n) == if n <= 5 then BaseBackoff * (Pow2(n) - 1) else 31 * BaseBackoff + (n - 5) * MaxBackoff
  {
    if n > 0 {
      TotalWaitClosed(n - 1);
      BackoffIsCappedDoubling(n);
      PowersUsed();
      if n <= 5 {
        Pow2Grows(n - 1, 4);
        assert Pow2(4) == 16;
      } else {
        Pow2Grows(5, n - 1);
      }
    }
  }

  // ---- The loop --------------------------------------------------------------------

  /** How one raw call ends. Only transport failures, 429 and 5xx are transient. */
  datatype Outcome<T> = Value(v: T) | Transient(hint: int, error: string) | Terminal(error: string)

  datatype Reply<T> = Got(v: T) | Refused | Failed(error: string) | GaveUp(last: Option<string>) | Canceled

  /** What the loop does not control, by attempt: how the raw call ends and how long
      it takes, how much later than asked a sleep ends, and whether it is cut short. */
  datatype World<!T> = World(outcome: nat -> Outcome<T>, lasts: nat -> nat, late: nat -> nat, cut: nat -> bool)

  ghost predicate AllTransient<T(!new)>(w: World<T>, n: nat) {
    forall i :: 0 <= i < n ==> w.outcome(i).Transient?
  }

  /** The passes lie between two instants, one after the other. */
  ghost predicate Between(run: seq<Attempt>, from: int, until: int) {
    from <= until && Sequential(run) && forall i :: 0 <= i < |run| ==> from <= run[i].start <= run[i].end <= until
  }

  /** Each sleep is the back-off for the failure before it, and the next pass waits
      for it. */
  ghost predicate SleptAsAsked<T(!new)>(w: World<T>, run: seq<Attempt>, slept: seq<int>) {
    && (forall i :: 0 <= i < |slept| ==> w.outcome(i).Transient? && slept[i] == Backoff(i + 1, w.outcome(i).hint))
    && (forall i :: 0 <= i < |slept| && i + 1 < |run| ==> run[i].end + slept[i] <= run[i + 1].start)
  }

  /** What a reply says about the raw calls: all but the last were transient
      failures, and the last decides. */
  ghost predicate Explains<T(!new)>(reply: Reply<T>, w: World<T>, tried: nat, maxRetries: int) {
    match reply
    case Got(v) => tried > 0 && AllTransient(w, tried - 1) && w.outcome(tried - 1) == Value(v)
    case Failed(e) => tried > 0 && AllTransient(w, tried - 1) && w.outcome(tried - 1) == Terminal(e)
    case GaveUp(last) =>
      && AllTransient(w, tried)
      && (if maxRetries < 0 then tried == 0 && last == None
          else tried == maxRetries + 1 && last == Some(w.outcome(maxRetries).error))
    case Refused => AllTransient(w, tried) && tried <= maxRetries
    case Canceled => 0 < tried <= maxRetries && AllTransient(w, tried) && w.cut(tried)
  }

  /** The books of a loop entered at `at` with the breaker at c: the passes made, and
      that each but a refused one was a raw call. */
  ghost predicate Accounts<T(!new)>(c: Circuit, view: Circuit, w: World<T>, run: seq<Attempt>,
                             slept: seq<int>, tried: nat, at: int, until: int) {
    && Between(run, at, until) && SleptAsAsked(w, run, slept) && |slept| <= tried
    && view == After(c, run) && tried == Calls(c, run, true) + Calls(c, run, false) && tried <= |run|
  }

  /** retryValue, entered at `at` and left at `until`. */
  method RetryValue<T(!new)>(b: Breaker, maxRetries: int, w: World<T>, at: int)
        returns (reply: Reply<T>, tried: nat, slept: seq<int>, until: int, ghost run: seq<Attempt>)
    modifies b
    ensures tried <= maxRetries + 1 || tried == 0
    ensures Explains(reply, w, tried, maxRetries)
    ensures Accounts(old(b.View()), b.View(), w, run, slept, tried, at, until)
    ensures reply.Got? <==> Calls(old(b.View()), run, false) > 0
    ensures reply.Refused? ==>
      && |run| == tried + 1
      && !Admits(After(old(b.View()), run[..tried]), run[tried].start)
      && run[tried].start == until
    ensures !reply.Refused? ==> |run| == tried
  {
    run, slept, until, tried := [], [], at, 0;
    var lastErr: Option<string> := None;
    ghost var start := b.View();
    while tried <= maxRetries
      invariant tried <= maxRetries + 1 || tried == 0
      invariant AllTransient(w, tried) && |run| == tried && |slept| == (if tried == 0 then 0 else tried - 1)
      invariant lastErr == if tried == 0 then None else Some(w.outcome(tried - 1).error)
      invariant Accounts(start, b.View(), w, run, slept, tried, at, until) && Calls(start, run, false) == 0
    {
      var turn;
      turn, slept, until, run := Turn(b, w, start, tried, slept, at, until, run);
      match turn {
        case CutShort => return Canceled, tried, slept, until, run;
        case NotAdmitted => return Refused, tried, slept, until, run;
        case Ended(Value(v)) => return Got(v), tried + 1, slept, until, run;
        case Ended(Terminal(e)) => return Failed(e), tried + 1, slept, until, run;
        case Ended(Transient(_, e)) => lastErr, tried := Some(e), tried + 1;
      }
    }
    return GaveUp(lastErr), tried, slept, until, run;
  }

  /** How one turn of the loop goes. */
  datatype TurnResult<T> = CutShort | NotAdmitted | Ended(outcome: Outcome<T>)

  ghost predicate TurnAccounts<T(!new)>(turn: TurnResult<T>, c: Circuit, w: World<T>, run: seq<Attempt>,
                                 run': seq<Attempt>, slept': seq<int>, tried: nat, until': int) {
    match turn
    case CutShort => tried > 0 && w.cut(tried) && run' == run
    case NotAdmitted =>
      && |run'| == tried + 1 && run'[..tried] == run && !Admits(After(c, run), run'[tried].start)
      && run'[tried].start == until' && Calls(c, run', false) == 0
    case Ended(o) =>
      && |run'| == tried + 1 && |slept'| == tried && o == w.outcome(tried)
      && Calls(c, run', false) == if o.Value? then 1 else 0
  }

  /** One turn of the loop: from the second on a sleep, then a pass. */
  method Turn<T(!new)>(b: Breaker, w: World<T>, ghost c: Circuit, tried: nat, slept: seq<int>, at: int,
                until: int, ghost run: seq<Attempt>)
      returns (turn: TurnResult<T>, slept': seq<int>, until': int, ghost run': seq<Attempt>)
    requires Accounts(c, b.View(), w, run, slept, tried, at, until) && Calls(c, run, false) == 0
    requires AllTransient(w, tried) && |run| == tried && |slept| == (if tried == 0 then 0 else tried - 1)
    modifies b
    ensures Accounts(c, b.View(), w, run', slept', if turn.Ended? then tried + 1 else tried, at, until')
    ensures TurnAccounts(turn, c, w, run, run', slept', tried, until')
  {
    slept', until', run' := slept, until, run;
    var ready := until;
    if tried > 0 {
      var d := Backoff(tried, w.outcome(tried - 1).hint);
      SleepAccounts(c, b.View(), w, run, slept, tried, at, until);
      slept' := slept + [d];
      if w.cut(tried) { return CutShort, slept', until', run'; }
      ready := until + d + w.late(tried);
    }
    var passed;
    passed, until', run' := Pass(b, w, c, tried, ready, run);
    PassAccounts(c, b.View(), w, run, run'[tried], slept', tried, at, until, ready, until');
    turn := match passed case None => NotAdmitted case Some(o) => Ended(o);
  }

  /** One pass through the breaker: nothing if it refuses, else the raw call's end. */
  method Pass<T(!new)>(b: Breaker, w: World<T>, ghost start: Circuit, attempt: nat, now: int,
                ghost run: seq<Attempt>) returns (r: Option<Outcome<T>>, until: int, ghost run': seq<Attempt>)
    requires b.View() == After(start, run) && |run| == attempt
    modifies b
    ensures |run'| == attempt + 1 && run' == run + [run'[attempt]] && b.View() == Step(After(start, run), run'[attempt])
    ensures run'[attempt].start == now && run'[attempt].end == until && until >= now
    ensures r.Some? <==> Admits(After(start, run), now)
    ensures r.Some? ==> r.value == w.outcome(attempt) && (run'[attempt].failed <==> !r.value.Value?)
    ensures r.None? ==> until == now
  {
    var ok := b.Allow(now);
    if !ok { return None, now, run + [Attempt(now, now, true)]; }
    var outcome := w.outcome(attempt);
    until := now + w.lasts(attempt);
    b.Record(!outcome.Value?, until);
    return Some(outcome), until, run + [Attempt(now, until, !outcome.Value?)];
  }

  lemma SleepAccounts<T(!new)>(c: Circuit, view: Circuit, w: World<T>, run: seq<Attempt>, slept: seq<int>,
                        tried: nat, at: int, until: int)
    requires Accounts(c, view, w, run, slept, tried, at, until) && |run| == tried == |slept| + 1
    requires AllTransient(w, tried)
    ensures var d := Backoff(tried, w.outcome(tried - 1).hint);
            d > 0 && Accounts(c, view, w, run, slept + [d], tried, at, until)
  {
  }

  lemma PassAccounts<T(!new)>(c: Circuit, view: Circuit, w: World<T>, run: seq<Attempt>, a: Attempt,
                       slept: seq<int>, tried: nat, at: int, left: int, ready: int, until: int)
    requires |run| == tried && |slept| == tried && Accounts(c, After(c, run), w, run, slept, tried, at, left)
    requires left <= ready && (tried > 0 ==> left + slept[tried - 1] <= ready)
    requires view == Step(After(c, run), a) && a == Attempt(ready, until, a.failed) && ready <= until
    ensures Accounts(c, view, w, run + [a], slept, tried + if Admits(After(c, run), ready) then 1 else 0, at, until)
    ensures Calls(c, run + [a], false) ==
      Calls(c, run, false) + if Admits(After(c, run), ready) && !a.failed then 1 else 0
  {
    OnePassMore(c, run, a);
  }

  lemma OnePassMore(c: Circuit, run: seq<Attempt>, a: Attempt)
    ensures After(c, run + [a]) == Step(After(c, run), a)
    ensures forall f ::
      Calls(c, run + [a], f) == Calls(c, run, f) + if Admits(After(c, run), a.start) && a.failed == f then 1 else 0
  {
    AfterAppend(c, run, [a]);
    assert [a][1..] == [];
    forall f ensures Calls(After(c, run), [a], f) == if Admits(After(c, run), a.start) && a.failed == f then 1 else 0 {
      assert Calls(Step(After(c, run), a), [], f) == 0;
    }
  }

  // ---- Many logical calls on one breaker ---------------------------------------------

  /** What one RetryValue left: the breaker before it, and its passes. */
  datatype Session = Session(before: Circuit, run: seq<Attempt>, at: int, until: int)

  /** Logical calls made in turn: each starts once the one before it is over, with
      the breaker as that one left it. */
  ghost predicate InTurn(sessions: seq<Session>) {
    && (forall i :: 0 <= i < |sessions| ==> Between(sessions[i].run, sessions[i].at, sessions[i].until))
    && (forall i :: 0 < i < |sessions| ==>
          && sessions[i - 1].until <= sessions[i].at
          && sessions[i].before == After(sessions[i - 1].before, sessions[i - 1].run))
  }

  ghost function Joined(sessions: seq<Session>): seq<Attempt> {
    if sessions == [] then [] else Joined(sessions[..|sessions| - 1]) + sessions[|sessions| - 1].run
  }

  /** Raw calls of all the sessions that ended in the given outcome. */
  ghost function AllCalls(sessions: seq<Session>, failed: bool): nat {
    if sessions == [] then 0
    else
      var last := sessions[|sessions| - 1];
      AllCalls(sessions[..|sessions| - 1], failed) + Calls(last.before, last.run, failed)
  }

  lemma BetweenJoined(a: seq<Attempt>, b: seq<Attempt>, from: int, handover: int, next: int, until: int)
    requires Between(a, from, handover) && Between(b, next, until) && handover <= next
    ensures Between(a + b, from, until)
  {
  }

  /** Together they are one sequential run of the breaker, call for call. */
  lemma {:induction false} CallsInTurn(sessions: seq<Session>)
    requires sessions != [] && InTurn(sessions)
    ensures var n := |sessions| - 1;
      && Between(Joined(sessions), sessions[0].at, sessions[n].until)
      && After(sessions[0].before, Joined(sessions)) == After(sessions[n].before, sessions[n].run)
      && forall f :: Calls(sessions[0].before, Joined(sessions), f) == AllCalls(sessions, f)
  {
    var n := |sessions| - 1;
    var init, last := sessions[..n], sessions[n];
    AfterAppend(sessions[0].before, Joined(init), last.run);
    if n == 0 {
      assert Joined(init) == [] && [] + last.run == last.run;
    } else {
      CallsInTurn(init);
      BetweenJoined(Joined(init), last.run, sessions[0].at, init[n - 1].until, last.at, last.until);
    }
  }

  /** The provider's bound: any number of logical calls in turn, whatever came
      before them, send it in a window of length `time` at most
      threshold + time / cooldown failing raw calls, and a threshold more for each
      raw call in the window that succeeded. */
  lemma SessionsBound(sessions: seq<Session>, history: seq<Attempt>, threshold: int, cooldown: int, time: nat)
    requires threshold > 0 && cooldown > 0 && sessions != [] && InTurn(sessions)
    requires sessions[0].before == After(Circuit(threshold, cooldown, 0, Closed, 0), history)
    requires sessions[|sessions| - 1].until <= sessions[0].at + time
    ensures AllCalls(sessions, true) <= threshold + time / cooldown + AllCalls(sessions, false) * threshold
  {
    CallsInTurn(sessions);
    var run, from := Joined(sessions), sessions[0].at;
    StaysAtRest(Circuit(threshold, cooldown, 0, Closed, 0), history);
    WindowFrom(sessions[0].before, run, from, time);
  }

  /** The same for a window that may cut through logical calls: any stretch of their
      passes that starts within it. */
  lemma StretchBound(sessions: seq<Session>, history: seq<Attempt>, threshold: int, cooldown: int,
                     i: nat, j: nat, from: int, time: nat)
    requires threshold > 0 && cooldown > 0 && sessions != [] && InTurn(sessions)
    requires sessions[0].before == After(Circuit(threshold, cooldown, 0, Closed, 0), history)
    requires i <= j <= |Joined(sessions)| && InWindow(Joined(sessions)[i..j], from, from + time)
    ensures var c := After(sessions[0].before, Joined(sessions)[..i]);
            var stretch := Joined(sessions)[i..j];
            Calls(c, stretch, true) <= threshold + time / cooldown + Calls(c, stretch, false) * threshold
  {
    CallsInTurn(sessions);
    var run := Joined(sessions);
    StaysAtRest(Circuit(threshold, cooldown, 0, Closed, 0), history);
    StaysAtRest(sessions[0].before, run[..i]);
    SliceSequential(run, i, j);
    WindowFrom(After(sessions[0].before, run[..i]), run[i..j], from, time);
  }

  // ---- What the loop sleeps ------------------------------------------------------------

  ghost function Sum(s: seq<int>): int {
    if s == [] then 0 else Sum(s[..|s| - 1]) + s[|s| - 1]
  }

  /** When no failure carries a hint, the loop's sleeps add up to the closed form. */
  lemma {:induction false} WaitsWithoutHints<T(!new)>(w: World<T>, run: seq<Attempt>, slept: seq<int>)
    requires SleptAsAsked(w, run, slept) && |run| >= |slept| && forall i :: 0 <= i < |slept| ==> w.outcome(i).hint <= 0
    ensures Sum(slept) == TotalWait(|slept|)
  {
    var n := |slept|;
    if n > 0 {
      assert w.outcome(n - 1).Transient? && slept[n - 1] == Backoff(n, w.outcome(n - 1).hint);
      WaitsWithoutHints(w, run, slept[..n - 1]);
    }
  }
}
