/** The restart loop and its backoff (kit/supervise/supervise.go). Durations are 64-bit nanoseconds. */
module Supervise {
  import opened Wrappers

  const TWO_TO_62: int := 0x4000_0000_0000_0000
  const TWO_TO_63: int := 0x8000_0000_0000_0000
  const TWO_TO_64: int := 0x1_0000_0000_0000_0000

  const SECOND: int := 1_000_000_000
  const DEFAULT_BACKOFF: int := 1 * SECOND
  const DEFAULT_MAX: int := 8 * SECOND
  const DEFAULT_HEALTHY_AFTER: int := 15 * SECOND
  const DEFAULT_MAX_RESTARTS: int := 10
  const UNLIMITED: int := -1

  predicate IsDuration(d: int) {
    -TWO_TO_63 <= d < TWO_TO_63
  }

  /** Two's complement: what a 64-bit product keeps. */
  function Wrap(x: int): int {
    (x + TWO_TO_63) % TWO_TO_64 - TWO_TO_63
  }

  datatype Policy = Policy(backoff: int, max: int, healthyAfter: int, maxRestarts: int)

  ghost predicate PolicyFits(p: Policy) {
    IsDuration(p.backoff) && IsDuration(p.max) && IsDuration(p.healthyAfter)
  }

  method WithDefaults(given: Policy) returns (p: Policy)
    ensures p.backoff == if given.backoff > 0 then given.backoff else DEFAULT_BACKOFF
    ensures p.max == if given.max > 0 then given.max else DEFAULT_MAX
    ensures p.healthyAfter == if given.healthyAfter > 0 then given.healthyAfter else DEFAULT_HEALTHY_AFTER
    ensures p.maxRestarts == if given.maxRestarts > 0 then given.maxRestarts
                             else if given.maxRestarts == 0 then DEFAULT_MAX_RESTARTS else UNLIMITED
    ensures p == Effective(given)
    ensures given.backoff <= 0 ==> p.backoff == 1_000_000_000
    ensures given.max <= 0 ==> p.max == 8_000_000_000
    ensures given.healthyAfter <= 0 ==> p.healthyAfter == 15_000_000_000
    ensures given.maxRestarts == 0 ==> p.maxRestarts == 10
    ensures given.maxRestarts < 0 ==> p.maxRestarts == -1
  {
    p := given;
    if p.backoff <= 0 {
      p := p.(backoff := DEFAULT_BACKOFF);
    }
    if p.max <= 0 {
      p := p.(max := DEFAULT_MAX);
    }
    if p.healthyAfter <= 0 {
      p := p.(healthyAfter := DEFAULT_HEALTHY_AFTER);
    }
    if p.maxRestarts == 0 {
      p := p.(maxRestarts := DEFAULT_MAX_RESTARTS);
    } else if p.maxRestarts < 0 {
      p := p.(maxRestarts := UNLIMITED);
    }
  }

  function Effective(p: Policy): Policy {
    Policy(if p.backoff > 0 then p.backoff else DEFAULT_BACKOFF,
           if p.max > 0 then p.max else DEFAULT_MAX,
           if p.healthyAfter > 0 then p.healthyAfter else DEFAULT_HEALTHY_AFTER,
           if p.maxRestarts > 0 then p.maxRestarts
           else if p.maxRestarts == 0 then DEFAULT_MAX_RESTARTS else UNLIMITED)
  }

  // ----- Backoff -----

  function Pow2(n: nat): nat {
    if n == 0 then 1 else 2 * Pow2(n - 1)
  }

  function Min(a: int, b: int): int {
    if a <= b then a else b
  }

  /** The adjustment after a wait. */
  function Grow(max: int, backoff: int): int {
    var doubled := if backoff < max then Wrap(backoff * 2) else backoff;
    if doubled > max then max else doubled
  }

  /** The wait after `n` adjustments since the backoff was last reset. */
  function Waiting(backoff: int, max: int, n: nat): int {
    if n == 0 then backoff else Grow(max, Waiting(backoff, max, n - 1))
  }

  /** Doubling, capped; the very first wait is the backoff itself, even above the cap. */
  function Ideal(backoff: int, max: int, n: nat): int {
    if n == 0 then backoff else Min(backoff * Pow2(n), max)
  }

  lemma WrapFits(x: int)
    requires IsDuration(x)
    ensures Wrap(x) == x
  {
  }

  /** Each of the first `n` doublings that starts below the cap does not overflow. */
  ghost predicate DoublingFits(backoff: int, max: int, n: nat) {
    forall m: nat :: m < n && backoff * Pow2(m) < max ==> backoff * Pow2(m) < TWO_TO_62
  }

  /** Then the waits double exactly until the cap. */
  lemma {:induction false} WaitsDouble(backoff: int, max: int, n: nat)
    requires 0 < backoff < TWO_TO_63 && 0 < max < TWO_TO_63 && DoublingFits(backoff, max, n)
    ensures Waiting(backoff, max, n) == Ideal(backoff, max, n) && 0 < Waiting(backoff, max, n) < TWO_TO_63
  {
    if n > 0 {
      WaitsDouble(backoff, max, n - 1);
      var w := Waiting(backoff, max, n - 1);
      PowGrows(backoff, n);
      if w < max {
        assert w == backoff * Pow2(n - 1);
        WrapFits(w * 2);
      }
    }
  }

  /** The closed form holds for the waits up to the `n`-th exactly when the doublings before it fit. */
  lemma ClosedFormIffDoublingFits(backoff: int, max: int, n: nat)
    requires 0 < backoff < TWO_TO_63 && 0 < max < TWO_TO_63
    ensures (forall m: nat :: m <= n ==> Waiting(backoff, max, m) == Ideal(backoff, max, m))
            <==> DoublingFits(backoff, max, n)
  {
    if DoublingFits(backoff, max, n) {
      forall m: nat | m <= n ensures Waiting(backoff, max, m) == Ideal(backoff, max, m) {
        WaitsDouble(backoff, max, m);
      }
    } else {
      var m: nat :| m < n && backoff * Pow2(m) < max && backoff * Pow2(m) >= TWO_TO_62;
      Overflows(backoff, max, m);
    }
  }

  lemma Overflows(backoff: int, max: int, n: nat)
    requires 0 < backoff && 0 < max < TWO_TO_63 && TWO_TO_62 <= backoff * Pow2(n) < max
    ensures Waiting(backoff, max, n) != Ideal(backoff, max, n) ||
            Waiting(backoff, max, n + 1) != Ideal(backoff, max, n + 1)
  {
    var x := Waiting(backoff, max, n);
    if x == Ideal(backoff, max, n) {
      assert x == backoff * Pow2(n);
      assert Wrap(x * 2) == x * 2 - TWO_TO_64 < 0;
      PowGrows(backoff, n + 1);
    }
  }

  lemma PowGrows(backoff: int, n: nat)
    requires backoff > 0 && n > 0
    ensures backoff * Pow2(n) == 2 * (backoff * Pow2(n - 1))
    ensures backoff * Pow2(n - 1) >= backoff
  {
    PowPositive(n - 1);
    MulAtLeast(backoff, Pow2(n - 1));
    assert backoff * (2 * Pow2(n - 1)) == 2 * (backoff * Pow2(n - 1));
  }

  lemma {:induction false} PowPositive(n: nat)
    ensures Pow2(n) >= 1
  {
    if n > 0 {
      PowPositive(n - 1);
    }
  }

  lemma MulAtLeast(a: int, b: int)
    requires a > 0 && b >= 1
    ensures a * b >= a
  {
  }

  /** The closed form holds for every starting backoff exactly when the cap is at most 2^62. */
  lemma ClosedFormIffCapFits(max: int)
    requires 0 < max < TWO_TO_63
    ensures (forall backoff, n: nat :: 0 < backoff < TWO_TO_63 ==> Waiting(backoff, max, n) == Ideal(backoff, max, n))
            <==> max <= TWO_TO_62
  {
    if max <= TWO_TO_62 {
      forall backoff, n: nat | 0 < backoff < TWO_TO_63 ensures Waiting(backoff, max, n) == Ideal(backoff, max, n) {
        assert DoublingFits(backoff, max, n);
        WaitsDouble(backoff, max, n);
      }
    } else {
      assert Pow2(1) == 2 * Pow2(0) == 2;
      assert Waiting(TWO_TO_62, max, 1) == Grow(max, TWO_TO_62) == -TWO_TO_63;
      assert Ideal(TWO_TO_62, max, 1) == max;
    }
  }

  /** Only the first wait since a reset can be above the cap, and it is when the backoff is. */
  lemma WaitExceedsCap(backoff: int, max: int, n: nat)
    ensures Waiting(backoff, max, n) > max <==> n == 0 && backoff > max
  {
  }

  /** The documented cap holds for every wait exactly when the backoff is within it. */
  lemma CapHoldsIff(backoff: int, max: int)
    ensures (forall n: nat :: Waiting(backoff, max, n) <= max) <==> backoff <= max
  {
    forall n: nat ensures Waiting(backoff, max, n) > max <==> n == 0 && backoff > max {
      WaitExceedsCap(backoff, max, n);
    }
    assert Waiting(backoff, max, 0) == backoff;
  }

  // ----- The loop -----

  datatype Failure = None_ | Transient | Permanent

  /**
   * One run of the supervised function: whether the context had ended before it, how it failed, how
   * long it ran, and whether the context ended during it or during the sleep that follows.
   */
  datatype Attempt = Attempt(endedBefore: bool, failure: Failure, ran: nat, endedDuring: bool, endedAsleep: bool)

  datatype Stats = Stats(restarts: nat, lastError: Option<nat>, totalRuntime: nat)

  datatype End = Stopped | Finished | GaveUp | Fatal

  /** Why the loop ends right after its `n`-th run, if it does. */
  function Verdict(p: Policy, a: Attempt, n: nat): Option<End> {
    if a.endedDuring then Some(Stopped)
    else if a.failure.None_? then Some(Finished)
    else if a.failure.Permanent? then Some(Fatal)
    else if p.maxRestarts != UNLIMITED && n >= p.maxRestarts then Some(GaveUp)
    else if a.endedAsleep then Some(Stopped)
    else None
  }

  /** The first `n` runs all happened and each was followed by another turn of the loop. */
  ghost predicate WentOn(p: Policy, script: seq<Attempt>, n: nat)
    requires n <= |script|
  {
    forall k :: 0 <= k < n ==> !script[k].endedBefore && Verdict(p, script[k], k + 1) == None
  }

  /** The run of the supervised function whose error is reported last. */
  function LastFailure(script: seq<Attempt>, calls: nat): Option<nat>
    requires calls <= |script|
  {
    if calls == 0 then None
    else if !script[calls - 1].endedDuring && !script[calls - 1].failure.None_? then Some(calls - 1)
    else if calls == 1 then None
    else Some(calls - 2)
  }

  /** How many waits there have been since the last healthy run, when attempt `k` fails. */
  function WaitsSince(p: Policy, script: seq<Attempt>, k: nat): nat
    requires k < |script|
  {
    if script[k].ran >= p.healthyAfter || k == 0 then 0 else WaitsSince(p, script, k - 1) + 1
  }

  function TotalRan(script: seq<Attempt>): nat {
    if script == [] then 0 else TotalRan(script[..|script| - 1]) + script[|script| - 1].ran
  }

  /** The loop ended where it had to: at its head, or right after run `calls`. */
  ghost predicate EndFits(p: Policy, script: seq<Attempt>, calls: nat, end: End)
    requires calls <= |script|
  {
    || (calls > 0 && WentOn(p, script, calls - 1) && !script[calls - 1].endedBefore
        && Verdict(p, script[calls - 1], calls) == Some(end))
    || (end.Stopped? && WentOn(p, script, calls) && (calls == |script| || script[calls].endedBefore))
  }

  /** Each sleep so far was the backoff adjusted once per failed run since the last healthy one. */
  ghost predicate WaitsFit(p: Policy, script: seq<Attempt>, waits: seq<int>) {
    && |waits| <= |script|
    && forall k :: 0 <= k < |waits| ==> waits[k] == Waiting(p.backoff, p.max, WaitsSince(p, script, k))
  }

  /** The adjustment of the backoff after a sleep. */
  method NextBackoff(max: int, backoff: int) returns (next: int)
    ensures next == Grow(max, backoff)
  {
    next := backoff;
    if next < max {
      next := Wrap(next * 2);
    }
    if next > max {
      next := max;
    }
  }

  /** The head of the loop, after `calls` runs that were each followed by a sleep. */
  ghost predicate AtHead(p: Policy, script: seq<Attempt>, calls: nat, stats: Stats, waits: seq<int>, backoff: int) {
    && calls <= |script| && stats.restarts == |waits| == calls
    && WentOn(p, script, calls)
    && stats.lastError == LastFailure(script, calls)
    && (p.maxRestarts != UNLIMITED ==> calls < p.maxRestarts)
    && stats.totalRuntime == TotalRan(script[..calls])
    && WaitsFit(p, script, waits)
    && backoff == Waiting(p.backoff, p.max, if calls == 0 then 0 else WaitsSince(p, script, calls - 1) + 1)
  }

  /** What the caller is told when the loop ends after `calls` runs. */
  ghost predicate Told(p: Policy, script: seq<Attempt>, end: End, calls: nat, stats: Stats, waits: seq<int>) {
    && calls <= |script| && EndFits(p, script, calls, end)
    && (end.GaveUp? ==> calls == p.maxRestarts)
    && (p.maxRestarts != UNLIMITED ==> calls <= p.maxRestarts)
    && stats.totalRuntime == TotalRan(script[..calls])
    && stats.lastError == LastFailure(script, calls)
    && |waits| == (if end.Stopped? && !(calls > 0 && script[calls - 1].endedDuring) then calls else calls - 1)
    && stats.restarts == |waits| - (if calls > 0 && |waits| == calls && script[calls - 1].endedAsleep then 1 else 0)
    && WaitsFit(p, script, waits)
  }

  /** A run that leads to another: it failed for now, and the context outlived it and the sleep after it. */
  predicate WorthRetrying(a: Attempt) {
    !a.endedBefore && a.failure == Transient && !a.endedDuring && !a.endedAsleep
  }

  /** How the loop ends, read off the last run. */
  ghost predicate EndsAsPromised(p: Policy, script: seq<Attempt>, end: End, calls: nat)
    requires calls <= |script|
  {
    && (forall k :: 0 <= k < calls - 1 ==> WorthRetrying(script[k]))
    && (calls > 0 ==> !script[calls - 1].endedBefore)
    && (end == Fatal <==> calls > 0 && !script[calls - 1].endedDuring && script[calls - 1].failure == Permanent)
    && (end == Finished <==> calls > 0 && !script[calls - 1].endedDuring && script[calls - 1].failure == None_)
    && (end == GaveUp <==> && calls > 0 && !script[calls - 1].endedDuring && script[calls - 1].failure == Transient
                           && calls == p.maxRestarts)
    && (end == Stopped && calls < |script| && !script[calls].endedBefore ==>
          calls > 0 && (script[calls - 1].endedDuring || script[calls - 1].endedAsleep))
  }

  /** The last error is that of the last run that failed while its context was alive. */
  ghost predicate ReportsLastFailure(script: seq<Attempt>, calls: nat, lastError: Option<nat>)
    requires calls <= |script|
  {
    match lastError
    case Some(k) =>
      && k < calls && script[k].failure != None_ && !script[k].endedDuring
      && forall j :: k < j < calls ==> script[j].failure == None_ || script[j].endedDuring
    case None => forall j :: 0 <= j < calls ==> script[j].failure == None_ || script[j].endedDuring
  }

  lemma ToldAsPromised(p: Policy, script: seq<Attempt>, end: End, calls: nat, stats: Stats, waits: seq<int>)
    requires Told(p, script, end, calls, stats, waits) && (p.maxRestarts == UNLIMITED || p.maxRestarts > 0)
    ensures EndsAsPromised(p, script, end, calls)
    ensures ReportsLastFailure(script, calls, stats.lastError)
  {
    forall k | 0 <= k < calls - 1 ensures WorthRetrying(script[k]) {
      assert Verdict(p, script[k], k + 1) == None;
    }
    if calls > 0 && WentOn(p, script, calls) {
      assert Verdict(p, script[calls - 1], calls) == None;
    }
    assert calls > 1 ==> WorthRetrying(script[calls - 2]);
  }

  /** One turn of the loop: a run, and the sleep that follows it unless the loop ends. */
  method RunOnce(p: Policy, script: seq<Attempt>, calls: nat, stats: Stats, waits: seq<int>, backoff: int)
    returns (stats': Stats, waits': seq<int>, backoff': int, end: Option<End>)
    requires AtHead(p, script, calls, stats, waits, backoff) && calls < |script| && !script[calls].endedBefore
    ensures end.None? ==> AtHead(p, script, calls + 1, stats', waits', backoff')
    ensures end.Some? ==> Told(p, script, end.value, calls + 1, stats', waits')
  {
    var a := script[calls];
    TotalRanMore(script, calls + 1);
    stats', waits', backoff' := stats.(totalRuntime := stats.totalRuntime + a.ran), waits, backoff;
    if a.endedDuring {
      return stats', waits', backoff', Some(Stopped);
    }
    if a.failure.None_? {
      return stats', waits', backoff', Some(Finished);
    }
    stats' := stats'.(lastError := Some(calls));
    if a.failure.Permanent? {
      return stats', waits', backoff', Some(Fatal);
    }
    if a.ran >= p.healthyAfter {
      backoff' := p.backoff;
    }
    assert backoff' == Waiting(p.backoff, p.max, WaitsSince(p, script, calls));
    if p.maxRestarts != UNLIMITED && stats'.restarts >= p.maxRestarts - 1 {
      return stats', waits', backoff', Some(GaveUp);
    }
    waits' := waits + [backoff'];
    if a.endedAsleep {
      return stats', waits', backoff', Some(Stopped);
    }
    stats' := stats'.(restarts := stats'.restarts + 1);
    backoff' := NextBackoff(p.max, backoff');
    return stats', waits', backoff', None;
  }

  /**
   * `runLoop`. The script is what would happen until the context is cancelled for good, which is no
   * later than its end. `waits` are the sleeps begun, in order.
   */
  method RunLoop(given: Policy, script: seq<Attempt>)
    returns (stats: Stats, end: End, calls: nat, waits: seq<int>)
    requires PolicyFits(given)
    ensures Told(Effective(given), script, end, calls, stats, waits)
    ensures EndsAsPromised(Effective(given), script, end, calls)
    ensures ReportsLastFailure(script, calls, stats.lastError)
  {
    stats, end, calls, waits := RestartLoop(given, script);
    ToldAsPromised(Effective(given), script, end, calls, stats, waits);
  }

  /** Its loop, held against the verdict on each run. */
  method RestartLoop(given: Policy, script: seq<Attempt>)
    returns (stats: Stats, end: End, calls: nat, waits: seq<int>)
    requires PolicyFits(given)
    ensures Told(Effective(given), script, end, calls, stats, waits)
  {
    var p := WithDefaults(given);
    stats := Stats(0, None, 0);
    var backoff := p.backoff;
    calls, waits := 0, [];
    while true
      invariant AtHead(p, script, calls, stats, waits, backoff)
      decreases |script| - calls
    {
      if calls == |script| || script[calls].endedBefore {
        return stats, Stopped, calls, waits;
      }
      var over;
      stats, waits, backoff, over := RunOnce(p, script, calls, stats, waits, backoff);
      calls := calls + 1;
      if over.Some? {
        return stats, over.value, calls, waits;
      }
    }
  }

  /** The total is the sum of the parts. */
  lemma {:induction false} TotalRanInTwo(a: seq<Attempt>, b: seq<Attempt>)
    ensures TotalRan(a + b) == TotalRan(a) + TotalRan(b)
    ensures |b| == 1 ==> TotalRan(b) == b[0].ran
  {
    if b == [] {
      assert a + b == a;
    } else {
      assert (a + b)[..|a + b| - 1] == a + b[..|b| - 1];
      TotalRanInTwo(a, b[..|b| - 1]);
    }
  }

  lemma TotalRanMore(script: seq<Attempt>, n: nat)
    requires 0 < n <= |script|
    ensures TotalRan(script[..n]) == TotalRan(script[..n - 1]) + script[n - 1].ran
  {
    assert script[..n][..n - 1] == script[..n - 1];
  }

  /** What `WithDefaults` makes of any policy. */
  ghost predicate IsEffective(p: Policy) {
    && 0 < p.backoff < TWO_TO_63 && 0 < p.max < TWO_TO_63 && p.healthyAfter > 0
    && (p.maxRestarts == UNLIMITED || p.maxRestarts > 0)
  }

  lemma EffectiveIsEffective(given: Policy)
    requires PolicyFits(given)
    ensures IsEffective(Effective(given))
  {
  }

  /**
   * In every supervised run a wait is the backoff doubled once per failed run, up to the cap, if the
   * doublings it takes fit; and it is above the cap just when it is the first since a healthy run and
   * the backoff itself is.
   */
  method Supervised(given: Policy, script: seq<Attempt>) returns (end: End, calls: nat, waits: seq<int>)
    requires PolicyFits(given)
    ensures |waits| <= calls <= |script| && EndFits(Effective(given), script, calls, end)
    ensures IdealWhereFits(Effective(given), script, waits)
    ensures ExceedOnlyFirst(Effective(given), script, waits)
  {
    var stats;
    stats, end, calls, waits := RunLoop(given, script);
    WaitsSettled(Effective(given), script, waits);
  }

  ghost predicate IdealWhereFits(p: Policy, script: seq<Attempt>, waits: seq<int>) {
    && |waits| <= |script|
    && forall k :: 0 <= k < |waits| && DoublingFits(p.backoff, p.max, WaitsSince(p, script, k)) ==>
         waits[k] == Ideal(p.backoff, p.max, WaitsSince(p, script, k))
  }

  ghost predicate WaitsAreIdeal(p: Policy, script: seq<Attempt>, waits: seq<int>) {
    && |waits| <= |script|
    && forall k :: 0 <= k < |waits| ==> waits[k] == Ideal(p.backoff, p.max, WaitsSince(p, script, k))
  }

  ghost predicate ExceedOnlyFirst(p: Policy, script: seq<Attempt>, waits: seq<int>) {
    && |waits| <= |script|
    && forall k :: 0 <= k < |waits| ==> (waits[k] > p.max <==> p.backoff > p.max && WaitsSince(p, script, k) == 0)
  }

  lemma WaitsSettled(p: Policy, script: seq<Attempt>, waits: seq<int>)
    requires WaitsFit(p, script, waits) && 0 < p.backoff < TWO_TO_63 && 0 < p.max < TWO_TO_63
    ensures IdealWhereFits(p, script, waits) && ExceedOnlyFirst(p, script, waits)
  {
    forall k | 0 <= k < |waits| && DoublingFits(p.backoff, p.max, WaitsSince(p, script, k))
      ensures waits[k] == Ideal(p.backoff, p.max, WaitsSince(p, script, k))
    {
      WaitsDouble(p.backoff, p.max, WaitsSince(p, script, k));
    }
    forall k | 0 <= k < |waits| ensures waits[k] > p.max <==> p.backoff > p.max && WaitsSince(p, script, k) == 0 {
      WaitExceedsCap(p.backoff, p.max, WaitsSince(p, script, k));
    }
  }

  // ----- What every run of a policy does -----

  /** The waits since the last healthy run are counted from that run, or from the first. */
  lemma {:induction false} WaitsSinceHealthy(p: Policy, script: seq<Attempt>, k: nat)
    requires k < |script|
    ensures var n := WaitsSince(p, script, k);
            && n <= k
            && (n == k || script[k - n].ran >= p.healthyAfter)
            && forall i :: k - n < i <= k ==> script[i].ran < p.healthyAfter
  {
    if k > 0 && script[k].ran < p.healthyAfter {
      WaitsSinceHealthy(p, script, k - 1);
    }
  }

  lemma {:induction false} WaitsSinceAtMost(p: Policy, script: seq<Attempt>, k: nat)
    requires k < |script|
    ensures WaitsSince(p, script, k) <= k
  {
    if k > 0 {
      WaitsSinceAtMost(p, script, k - 1);
    }
  }

  /** A limit of `n` runs leaves room for fewer than `n` sleeps. */
  lemma FewWaits(p: Policy, script: seq<Attempt>, end: End, calls: nat, stats: Stats, waits: seq<int>)
    requires Told(p, script, end, calls, stats, waits) && p.maxRestarts != UNLIMITED && p.maxRestarts > 0
    ensures |waits| < p.maxRestarts
  {
  }

  const QUICK := Attempt(false, Transient, 0, false, false)

  function Failures(n: nat): seq<Attempt> {
    if n == 0 then [] else Failures(n - 1) + [QUICK]
  }

  lemma {:induction false} FailuresAreQuick(p: Policy, n: nat)
    requires p.healthyAfter > 0
    ensures |Failures(n)| == n && TotalRan(Failures(n)) == 0
    ensures forall k :: 0 <= k < n ==> Failures(n)[k] == QUICK && WaitsSince(p, Failures(n), k) == k
  {
    if n > 0 {
      FailuresAreQuick(p, n - 1);
      assert Failures(n)[..n - 1] == Failures(n - 1);
      forall k | 0 <= k < n ensures Failures(n)[k] == QUICK && WaitsSince(p, Failures(n), k) == k {
        QuickWaits(p, Failures(n), k);
      }
    }
  }

  lemma {:induction false} QuickWaits(p: Policy, script: seq<Attempt>, k: nat)
    requires k < |script| && p.healthyAfter > 0 && forall i :: 0 <= i <= k ==> script[i] == QUICK
    ensures WaitsSince(p, script, k) == k
  {
    if k > 0 {
      QuickWaits(p, script, k - 1);
    }
  }

  /** A function that fails `n` times at once, and a context that ends then: a run with `n` waits. */
  lemma QuickRun(p: Policy, n: nat) returns (stats: Stats, waits: seq<int>)
    requires IsEffective(p) && (p.maxRestarts == UNLIMITED || n < p.maxRestarts)
    ensures Told(p, Failures(n), Stopped, n, stats, waits)
    ensures |waits| == n && forall k :: 0 <= k < n ==> waits[k] == Waiting(p.backoff, p.max, k)
    ensures |Failures(n)| == n && forall k :: 0 <= k < n ==> WaitsSince(p, Failures(n), k) == k
  {
    FailuresAreQuick(p, n);
    var script := Failures(n);
    stats := Stats(n, LastFailure(script, n), 0);
    waits := QuickWaitList(p, n);
    assert script[..n] == script;
    QuickGoesOn(p, n);
  }

  lemma QuickGoesOn(p: Policy, n: nat)
    requires IsEffective(p) && (p.maxRestarts == UNLIMITED || n < p.maxRestarts)
    ensures n <= |Failures(n)| && WentOn(p, Failures(n), n)
  {
    FailuresAreQuick(p, n);
  }

  lemma QuickWaitList(p: Policy, n: nat) returns (waits: seq<int>)
    requires IsEffective(p)
    ensures WaitsFit(p, Failures(n), waits) && |waits| == n
    ensures forall k :: 0 <= k < n ==> waits[k] == Waiting(p.backoff, p.max, k)
  {
    FailuresAreQuick(p, n);
    waits := seq(n, k requires 0 <= k < n => Waiting(p.backoff, p.max, k));
  }

  ghost predicate WithinCap(p: Policy, waits: seq<int>) {
    forall k :: 0 <= k < |waits| ==> waits[k] <= p.max
  }

  /**
   * No wait of any run exceeds the documented cap exactly when the backoff does not, or when a single
   * run is all the policy allows, so that there is no wait.
   */
  lemma RunsKeepCapIff(p: Policy)
    requires IsEffective(p)
    ensures (forall script, end, calls, stats, waits ::
               Told(p, script, end, calls, stats, waits) ==> WithinCap(p, waits))
            <==> p.backoff <= p.max || p.maxRestarts == 1
  {
    if p.backoff <= p.max || p.maxRestarts == 1 {
      forall script, end, calls: nat, stats, waits | Told(p, script, end, calls, stats, waits)
        ensures WithinCap(p, waits)
      {
        WaitsSettled(p, script, waits);
        if p.maxRestarts == 1 {
          FewWaits(p, script, end, calls, stats, waits);
        }
      }
    } else {
      var stats, waits := QuickRun(p, 1);
      assert waits[0] == p.backoff && !WithinCap(p, waits);
    }
  }

  /** No doubling that a run of this policy can come to overflows. */
  ghost predicate PolicyDoublingFits(p: Policy) {
    forall m: nat :: (p.maxRestarts == UNLIMITED || m < p.maxRestarts - 2) && p.backoff * Pow2(m) < p.max ==>
                       p.backoff * Pow2(m) < TWO_TO_62
  }

  /** Every wait of every run is the closed form exactly when the doublings a run can come to fit. */
  lemma RunsAreIdealIff(p: Policy)
    requires IsEffective(p)
    ensures (forall script, end, calls, stats, waits ::
               Told(p, script, end, calls, stats, waits) ==> WaitsAreIdeal(p, script, waits))
            <==> PolicyDoublingFits(p)
  {
    if PolicyDoublingFits(p) {
      forall script, end, calls: nat, stats, waits | Told(p, script, end, calls, stats, waits)
        ensures WaitsAreIdeal(p, script, waits)
      {
        ToldIsIdeal(p, script, end, calls, stats, waits);
      }
    } else {
      var m: nat :| && (p.maxRestarts == UNLIMITED || m < p.maxRestarts - 2)
                    && p.backoff * Pow2(m) < p.max && p.backoff * Pow2(m) >= TWO_TO_62;
      var stats, waits := QuickRun(p, m + 2);
      Overflows(p.backoff, p.max, m);
      assert waits[m] != Ideal(p.backoff, p.max, m) || waits[m + 1] != Ideal(p.backoff, p.max, m + 1);
      assert !WaitsAreIdeal(p, Failures(m + 2), waits);
    }
  }

  lemma ToldIsIdeal(p: Policy, script: seq<Attempt>, end: End, calls: nat, stats: Stats, waits: seq<int>)
    requires IsEffective(p) && PolicyDoublingFits(p) && Told(p, script, end, calls, stats, waits)
    ensures WaitsAreIdeal(p, script, waits)
  {
    WaitsSettled(p, script, waits);
    if p.maxRestarts != UNLIMITED {
      FewWaits(p, script, end, calls, stats, waits);
    }
    forall k | 0 <= k < |waits| ensures waits[k] == Ideal(p.backoff, p.max, WaitsSince(p, script, k)) {
      WaitsSinceAtMost(p, script, k);
      assert DoublingFits(p.backoff, p.max, WaitsSince(p, script, k));
    }
  }

  /** A backoff above the cap: the first wait exceeds it, and so does the wait after a healthy run. */
  lemma FirstWaitAboveCap() returns (given: Policy, script: seq<Attempt>)
    ensures PolicyFits(given) && 0 < given.max < given.backoff
    ensures forall end, calls, stats, waits :: Told(Effective(given), script, end, calls, stats, waits) ==>
              waits == [given.backoff, given.max, given.backoff]
  {
    given := Policy(10 * SECOND, 8 * SECOND, 15 * SECOND, UNLIMITED);
    var quick := Attempt(false, Transient, 1 * SECOND, false, false);
    var healthy := Attempt(false, Transient, 20 * SECOND, false, false);
    script := [quick, quick, healthy];
    var p := Effective(given);
    forall end, calls: nat, stats, waits | Told(p, script, end, calls, stats, waits)
      ensures waits == [given.backoff, given.max, given.backoff]
    {
      assert calls == 3 && |waits| == 3;
      assert WaitsSince(p, script, 0) == 0 && WaitsSince(p, script, 1) == 1 && WaitsSince(p, script, 2) == 0;
      assert Waiting(p.backoff, p.max, 1) == Grow(p.max, Waiting(p.backoff, p.max, 0)) == p.max;
    }
  }
}
