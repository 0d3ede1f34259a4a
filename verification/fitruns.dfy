/** How long distributed training runs, and how many collectives it takes. */
module FitRuns {
  import opened Arithmetic
  import opened DistributedFit

  // ---------------------------------------------------------------- every run ends

  /** Steps of one process for a batch with its averaging, if there is any. */
  function BatchSteps(c: Config): nat { |c.sizes| + 1 }

  /** At most so many steps of one process in an epoch: its batches, its metrics, the new period and
      the broadcast of it. */
  function EpochSteps(c: Config): nat { Batches(c, c.bpp) + c.metrics + 2 }

  /** At most so many steps of one process in a whole run. */
  function FitSteps(c: Config): nat { 2 + |c.sizes| + Epochs(c, c.epochs) }

  /** At most so many steps of one process for n batches. */
  function Batches(c: Config, n: nat): nat { n * BatchSteps(c) }

  /** At most so many steps of one process for n epochs. */
  function Epochs(c: Config, n: nat): nat { n * EpochSteps(c) }

  /** At most so many steps remain to a process. */
  ghost function Left(c: Config, a: Proc): nat
    requires WellPlaced(c, a)
  {
    match a.place
    case Barrier(n) => FitSteps(c) - n
    case Start(k) => |c.sizes| - k + Epochs(c, c.epochs)
    case Train(e, j) => Batches(c, c.bpp - j) + c.metrics + 2 + Epochs(c, c.epochs - e - 1)
    case Sync(e, j, k) => |c.sizes| - k + Batches(c, c.bpp - j - 1) + c.metrics + 2 + Epochs(c, c.epochs - e - 1)
    case Metrics(e, k) => c.metrics - k + 2 + Epochs(c, c.epochs - e - 1)
    case Update(e) => 2 + Epochs(c, c.epochs - e - 1)
    case Bcast(e) => 1 + Epochs(c, c.epochs - e - 1)
    case Done => 0
  }

  lemma OneMore(n: nat, w: nat)
    requires n > 0
    ensures n * w == (n - 1) * w + w
  {
  }

  /** What remains when an epoch begins. */
  lemma LeftAtBegin(c: Config, e: nat, a: Proc)
    requires WellPlaced(c, a) && a.place == BeginEpoch(c, e) && e <= c.epochs
    ensures Left(c, a) <= Epochs(c, c.epochs - e)
  {
    if e < c.epochs { OneMore(c.epochs - e, EpochSteps(c)); }
  }

  lemma LocalDecreases(c: Config, id: nat, a: Proc, b: Proc)
    requires Ok(c) && WellPlaced(c, a) && WellPlaced(c, b) && LocalStep(c, id, a, b)
    ensures Left(c, b) < Left(c, a)
  {
    if a.place.Train? {
      OneMore(c.bpp - a.place.j, BatchSteps(c));
    } else if Alone(c) {
      LeftAtBegin(c, a.place.epoch + 1, b);
    }
  }

  lemma CallDecreases(c: Config, a: Proc, b: Proc)
    requires Ok(c) && WellPlaced(c, a) && WellPlaced(c, b) && IsCall(a.place) && b.place == AfterCall(c, a.place)
    ensures Left(c, b) < Left(c, a)
  {
    match a.place
    case Barrier(n) => if n == 1 && c.sizes == [] { LeftAtBegin(c, 0, b); }
    case Start(k) => if k + 1 == |c.sizes| { LeftAtBegin(c, 0, b); }
    case Bcast(e) => LeftAtBegin(c, e + 1, b);
    case Sync(e, j, k) =>
    case Metrics(e, k) =>
  }

  ghost predicate AllPlaced(c: Config, s: State) {
    forall p {:trigger s[p]} :: 0 <= p < |s| ==> WellPlaced(c, s[p])
  }

  ghost function AllLeft(c: Config, s: State): nat
    requires AllPlaced(c, s)
  {
    if s == [] then 0 else AllLeft(c, s[..|s| - 1]) + Left(c, s[|s| - 1])
  }

  lemma {:induction false} OneDecreases(c: Config, s: State, p: nat, b: Proc)
    requires AllPlaced(c, s) && p < |s| && WellPlaced(c, b) && Left(c, b) < Left(c, s[p])
    ensures AllPlaced(c, s[p := b]) && AllLeft(c, s[p := b]) < AllLeft(c, s)
  {
    var t, n := s[p := b], |s| - 1;
    if p < n {
      OneDecreases(c, s[..n], p, b);
      assert t[..n] == s[..n][p := b];
    } else {
      assert t[..n] == s[..n];
    }
  }

  lemma {:induction false} AllDecrease(c: Config, s: State, t: State)
    requires AllPlaced(c, s) && AllPlaced(c, t) && |t| == |s|
    requires forall p :: 0 <= p < |s| ==> Left(c, t[p]) < Left(c, s[p])
    ensures AllLeft(c, t) + |s| <= AllLeft(c, s)
  {
    if s != [] {
      var n := |s| - 1;
      AllDecrease(c, s[..n], t[..n]);
    }
  }

  /** Every step of the whole system lowers what remains. */
  lemma StepDecreases(c: Config, s: State, t: State)
    requires Ok(c) && Inv(c, s) && Step(c, s, t)
    ensures AllPlaced(c, s) && AllPlaced(c, t) && AllLeft(c, t) < AllLeft(c, s)
  {
    StepInv(c, s, t);
    if CollectiveStep(c, s, t) {
      forall p | 0 <= p < |s| ensures Left(c, t[p]) < Left(c, s[p]) {
        CallDecreases(c, s[p], t[p]);
      }
      AllDecrease(c, s, t);
    } else {
      var p :| 0 <= p < |s| && LocalStep(c, p, s[p], t[p]) && t == s[p := t[p]];
      LocalDecreases(c, p, s[p], t[p]);
      OneDecreases(c, s, p, t[p]);
    }
  }

  lemma {:induction false} LeftAtInit(c: Config, s: State)
    requires forall p {:trigger s[p]} :: 0 <= p < |s| ==> WellPlaced(c, s[p]) && s[p].place == BeginFit(c)
    ensures AllPlaced(c, s) && AllLeft(c, s) <= |s| * FitSteps(c)
  {
    if s != [] {
      if Alone(c) { LeftAtBegin(c, 0, s[|s| - 1]); }
      LeftAtInit(c, s[..|s| - 1]);
      OneMore(|s|, FitSteps(c));
    }
  }

  lemma {:induction false} RunLeft(c: Config, period: nat, run: seq<State>)
    requires Ok(c) && period > 0 && Run(c, period, run)
    ensures AllPlaced(c, run[|run| - 1]) && |run| - 1 + AllLeft(c, run[|run| - 1]) <= c.procs * FitSteps(c)
  {
    RunInv(c, period, run);
    if |run| == 1 {
      LeftAtInit(c, run[0]);
    } else {
      RunLeft(c, period, run[..|run| - 1]);
      RunInv(c, period, run[..|run| - 1]);
      StepDecreases(c, run[|run| - 2], run[|run| - 1]);
    }
  }

  ghost predicate AllDone(s: State) {
    forall p {:trigger s[p]} :: 0 <= p < |s| ==> s[p].place.Done?
  }

  /** Every run is bounded, whatever the order of the steps and the averaging policy, and it can be
      continued exactly as long as some process is not done. */
  lemma RunsEnd(c: Config, period: nat, run: seq<State>)
    requires Ok(c) && period > 0 && Run(c, period, run)
    ensures |run| <= 1 + c.procs * FitSteps(c)
    ensures (exists t {:trigger Step(c, run[|run| - 1], t)} :: Step(c, run[|run| - 1], t)) <==> !AllDone(run[|run| - 1])
  {
    RunLeft(c, period, run);
    RunInv(c, period, run);
    var s := run[|run| - 1];
    assert Reachable(c, period, s);
    if !AllDone(s) { NeverStuck(c, period, s); }
    if t :| Step(c, s, t) {
      if CollectiveStep(c, s, t) { assert IsCall(s[0].place); }
    }
  }

  // ---------------------------------------------------------------- how many collectives

  /** How often the epoch is averaged. */
  function Averagings(c: Config, period: nat, e: nat): nat
    requires c.xAvg > 0
  {
    if PeriodAt(c, period, e) == 0 then 0 else SyncsIn(c, c.bpp, PeriodAt(c, period, e))
  }

  /** The broadcasts of the first n parameters, the reductions of the first n metrics, and r averagings
      of n parameters. */
  function Broadcasts(n: nat): seq<Call> { seq(n, k requires 0 <= k < n => BcastWeight(k)) }

  function Measurements(n: nat): seq<Call> { seq(n, k requires 0 <= k < n => ReduceMetric(k)) }

  function Rounds(n: nat, r: nat): seq<Call> {
    if r == 0 then [] else Rounds(n, r - 1) + Reductions(n)
  }

  /** The collectives one of several processes calls before epoch e: two barriers, the first broadcast of
      every parameter, and for every earlier epoch its averagings, its metrics and the broadcast of the
      period.  A process that is alone calls none. */
  function Before(c: Config, period: nat, e: nat): seq<Call>
    requires c.xAvg > 0
  {
    if Alone(c) then []
    else if e == 0 then [Wait, Wait] + Broadcasts(|c.sizes|)
    else
      Before(c, period, e - 1) + Rounds(|c.sizes|, Averagings(c, period, e - 1)) + Measurements(c.metrics)
        + [BcastPeriod]
  }

  /** The collectives a process has called, told by where it stands. */
  ghost predicate Tallied(c: Config, period: nat, a: Proc)
    requires c.xAvg > 0
  {
    var n := |c.sizes|;
    match a.place
    case Barrier(m) => a.calls == seq(m, _ => Wait)
    case Start(k) => a.calls == [Wait, Wait] + Broadcasts(k)
    case Train(e, _) => a.calls == Before(c, period, e) + Rounds(n, a.syncs)
    case Sync(e, _, k) =>
      a.syncs > 0 && a.calls == Before(c, period, e) + Rounds(n, a.syncs - 1) + Reductions(k)
    case Metrics(e, k) => a.calls == Before(c, period, e) + Rounds(n, a.syncs) + Measurements(k)
    case Update(e) =>
      a.calls == Before(c, period, e) + Rounds(n, a.syncs) + if Alone(c) then [] else Measurements(c.metrics)
    case Bcast(e) =>
      && a.syncs == Averagings(c, period, e)
      && a.calls == Before(c, period, e) + Rounds(n, a.syncs) + Measurements(c.metrics)
    case Done => a.calls == Before(c, period, c.epochs)
  }

  lemma TrainTallied(c: Config, period: nat, id: nat, a: Proc, b: Proc)
    requires Ok(c) && WellPlaced(c, a) && Tallied(c, period, a) && LocalStep(c, id, a, b) && a.place.Train?
    ensures Tallied(c, period, b)
  {
    var n := |c.sizes|;
    if n == 0 { assert Reductions(n) == []; }
    assert Measurements(0) == [];
    if b.syncs > a.syncs { assert Rounds(n, b.syncs) == Rounds(n, a.syncs) + Reductions(n); }
  }

  lemma LocalTallied(c: Config, period: nat, id: nat, a: Proc, b: Proc)
    requires Ok(c) && WellPlaced(c, a) && OnSchedule(c, period, id, a)
    requires Tallied(c, period, a) && LocalStep(c, id, a, b)
    ensures Tallied(c, period, b)
  {
    if a.place.Train? {
      TrainTallied(c, period, id, a, b);
    } else if Alone(c) {
      assert Measurements(0) == [];
      BeginTallied(c, period, a.place.epoch + 1, b);
    }
  }

  lemma BeginTallied(c: Config, period: nat, e: nat, a: Proc)
    requires Ok(c) && e <= c.epochs && a.place == BeginEpoch(c, e) && a.syncs == 0 && a.calls == Before(c, period, e)
    ensures Tallied(c, period, a)
  {
    assert Rounds(|c.sizes|, 0) == [] && Measurements(0) == [];
  }

  lemma CallTallied(c: Config, period: nat, a: Proc, b: Proc)
    requires Ok(c) && WellPlaced(c, a) && Tallied(c, period, a) && IsCall(a.place)
    requires b.place == AfterCall(c, a.place) && b.calls == a.calls + [CallOf(a.place)]
    requires b.syncs == if a.place.Bcast? then 0 else a.syncs
    ensures Tallied(c, period, b)
  {
    if a.place.Barrier? || a.place.Start? {
      OpeningTallied(c, period, a, b);
    } else if a.place.Sync? {
      SyncTallied(c, period, a, b);
    } else {
      ClosingTallied(c, period, a, b);
    }
  }

  lemma OpeningTallied(c: Config, period: nat, a: Proc, b: Proc)
    requires Ok(c) && WellPlaced(c, a) && Tallied(c, period, a) && (a.place.Barrier? || a.place.Start?)
    requires b.place == AfterCall(c, a.place) && b.calls == a.calls + [CallOf(a.place)] && b.syncs == a.syncs
    ensures Tallied(c, period, b)
  {
    match a.place
    case Barrier(n) =>
      if n == 1 {
        assert b.calls == [Wait, Wait] + Broadcasts(0);
        if c.sizes == [] { BeginTallied(c, period, 0, b); }
      }
    case Start(k) =>
      assert Broadcasts(k) + [BcastWeight(k)] == Broadcasts(k + 1);
      if k + 1 == |c.sizes| { BeginTallied(c, period, 0, b); }
  }

  lemma ClosingTallied(c: Config, period: nat, a: Proc, b: Proc)
    requires Ok(c) && WellPlaced(c, a) && Tallied(c, period, a) && (a.place.Metrics? || a.place.Bcast?)
    requires b.place == AfterCall(c, a.place) && b.calls == a.calls + [CallOf(a.place)]
    requires b.syncs == if a.place.Bcast? then 0 else a.syncs
    ensures Tallied(c, period, b)
  {
    match a.place
    case Bcast(e) =>
      assert b.calls == Before(c, period, e + 1);
      BeginTallied(c, period, e + 1, b);
    case Metrics(e, k) =>
      assert Measurements(k) + [ReduceMetric(k)] == Measurements(k + 1);
  }

  lemma SyncTallied(c: Config, period: nat, a: Proc, b: Proc)
    requires Ok(c) && WellPlaced(c, a) && Tallied(c, period, a) && a.place.Sync?
    requires b.place == AfterCall(c, a.place) && b.calls == a.calls + [CallOf(a.place)] && b.syncs == a.syncs
    ensures Tallied(c, period, b)
  {
    var n, k := |c.sizes|, a.place.k;
    var before := Before(c, period, a.place.epoch) + Rounds(n, a.syncs - 1);
    NextReduction(before, k);
    assert b.calls == before + Reductions(k + 1);
    if k + 1 == n {
      RoundDone(Before(c, period, a.place.epoch), n, a.syncs);
      assert Measurements(0) == [];
    }
  }

  lemma NextReduction(before: seq<Call>, k: nat)
    ensures before + Reductions(k) + [ReduceWeight(k)] == before + Reductions(k + 1)
  {
  }

  lemma RoundDone(before: seq<Call>, n: nat, r: nat)
    requires r > 0
    ensures before + Rounds(n, r - 1) + Reductions(n) == before + Rounds(n, r)
  {
  }

  ghost predicate AllTallied(c: Config, period: nat, s: State)
    requires c.xAvg > 0
  {
    forall p {:trigger s[p]} :: 0 <= p < |s| ==> Tallied(c, period, s[p])
  }

  lemma StepTallied(c: Config, period: nat, s: State, t: State)
    requires Ok(c) && Untimed(c) && Inv(c, s) && AllOnSchedule(c, period, s)
    requires AllTallied(c, period, s) && Step(c, s, t)
    ensures AllTallied(c, period, t)
  {
    if CollectiveStep(c, s, t) {
      forall p | 0 <= p < |t| ensures Tallied(c, period, t[p]) {
        assert WellPlaced(c, s[p]);
        CallTallied(c, period, s[p], t[p]);
      }
    } else {
      var p :| 0 <= p < |s| && LocalStep(c, p, s[p], t[p]) && t == s[p := t[p]];
      LocalTallied(c, period, p, s[p], t[p]);
    }
  }

  lemma {:induction false} RunTallied(c: Config, period: nat, run: seq<State>)
    requires Ok(c) && Untimed(c) && period > 0 && Run(c, period, run)
    ensures AllTallied(c, period, run[|run| - 1])
  {
    if |run| == 1 {
      forall p | 0 <= p < |run[0]| ensures Tallied(c, period, run[0][p]) {
        if Alone(c) { BeginTallied(c, period, 0, run[0][p]); }
      }
    } else {
      RunTallied(c, period, run[..|run| - 1]);
      RunInv(c, period, run[..|run| - 1]);
      RunOnSchedule(c, period, run[..|run| - 1]);
      StepTallied(c, period, run[|run| - 2], run[|run| - 1]);
    }
  }

  /** Under a policy that ignores times, every process that is done has called the same collectives in
      every run: two barriers, one broadcast a parameter, and in each epoch one reduction a parameter
      for every averaging, one a metric, and the broadcast of the period; or none, if it is alone. */
  lemma CollectivesExact(c: Config, period: nat, s: State, p: nat)
    requires Ok(c) && Untimed(c) && period > 0 && Reachable(c, period, s) && p < |s| && s[p].place.Done?
    ensures s[p].calls == Before(c, period, c.epochs)
    ensures c.procs == 1 ==> s[p].calls == []
    ensures c.procs > 1 ==> |s[p].calls| >= 2 + |c.sizes| && s[p].calls[0] == s[p].calls[1] == Wait
    ensures c.procs > 1 ==> forall k :: 0 <= k < |c.sizes| ==> s[p].calls[2 + k] == BcastWeight(k)
  {
    ReachableTallied(c, period, s);
    assert Tallied(c, period, s[p]);
    if c.procs > 1 { OpeningCalls(c, period, c.epochs); }
  }

  lemma {:induction false} OpeningCalls(c: Config, period: nat, e: nat)
    requires c.xAvg > 0 && !Alone(c)
    ensures var calls := Before(c, period, e);
      && |calls| >= 2 + |c.sizes| && calls[0] == calls[1] == Wait
      && forall k :: 0 <= k < |c.sizes| ==> calls[2 + k] == BcastWeight(k)
  {
    if e > 0 { OpeningCalls(c, period, e - 1); }
  }

  /** The calls of epoch e, one by one: with n parameters averaged r times, call i of the first r * n
      reduces parameter i modulo n; then come the metrics in order, and the broadcast of the period. */
  lemma EpochCalls(c: Config, period: nat, e: nat, i: nat)
    requires c.xAvg > 0 && !Alone(c)
    ensures var n, first, calls := |c.sizes|, |Before(c, period, e)|, Before(c, period, e + 1);
      var r := Averagings(c, period, e);
      && |calls| == first + r * n + c.metrics + 1 && calls[..first] == Before(c, period, e)
      && (n > 0 && i < r * n ==> calls[first + i] == ReduceWeight(i % n))
      && (i < c.metrics ==> r * n >= 0 && calls[first + r * n + i] == ReduceMetric(i))
      && calls[|calls| - 1] == BcastPeriod
  {
    var n, r := |c.sizes|, Averagings(c, period, e);
    RoundsLength(n, r);
    if n > 0 && i < r * n { RoundsAt(n, r, i); }
  }

  lemma {:induction false} RoundsLength(n: nat, r: nat)
    ensures |Rounds(n, r)| == r * n
  {
    if r > 0 {
      RoundsLength(n, r - 1);
      OneMore(r, n);
    }
  }

  lemma {:induction false} RoundsAt(n: nat, r: nat, i: nat)
    requires n > 0 && i < r * n
    ensures |Rounds(n, r)| == r * n && Rounds(n, r)[i] == ReduceWeight(i % n)
  {
    RoundsLength(n, r);
    RoundsLength(n, r - 1);
    OneMore(r, n);
    if i < (r - 1) * n {
      RoundsAt(n, r - 1, i);
    } else {
      DivModUnique(i, n, r - 1, i - (r - 1) * n);
    }
  }

  lemma ReachableTallied(c: Config, period: nat, s: State)
    requires Ok(c) && Untimed(c) && period > 0 && Reachable(c, period, s)
    ensures AllTallied(c, period, s)
  {
    var run :| Run(c, period, run) && run[|run| - 1] == s;
    RunTallied(c, period, run);
  }

  lemma AveragingsAre(c: Config, period: nat, e: nat)
    requires c.xAvg > 0 && PeriodAt(c, period, e) > 0
    ensures Averagings(c, period, e) == if Alone(c) then 0 else Ceiling(c.bpp, PeriodAt(c, period, e))
  {
    SyncCountIs(c.bpp, PeriodAt(c, period, e), c.bpp);
    CeilingIs(c.bpp, PeriodAt(c, period, e));
    DivModUnique(0, PeriodAt(c, period, e), 0, 0);
  }

  /** With a fixed period: the number of collectives in closed form. */
  lemma {:induction false} FixedCollectives(c: Config, period: nat, e: nat)
    requires Ok(c) && c.avgMethod.Fixed? && period > 0
    ensures PeriodAt(c, period, e) == period
    ensures |Before(c, period, e)| == if Alone(c) then 0
      else 2 + |c.sizes| + e * (Ceiling(c.bpp, period) * |c.sizes| + c.metrics + 1)
  {
    if e > 0 {
      FixedCollectives(c, period, e - 1);
      AveragingsAre(c, period, e - 1);
      OneMore(e, Ceiling(c.bpp, period) * |c.sizes| + c.metrics + 1);
      if !Alone(c) { RoundsLength(|c.sizes|, Averagings(c, period, e - 1)); }
    }
  }

  // ---------------------------------------------------------------- what is broadcast

  /** Before the first batch: the parameters process 0 has broadcast so far are its initial ones, w0, the
      others still those the process started with, w. */
  ghost predicate Opened(c: Config, w0: Weights, w: Weights, a: Proc)
    requires |w0| == |w| == |c.sizes| == |a.weights|
  {
    match a.place
    case Barrier(_) => a.weights == w
    case Start(k) => k <= |c.sizes| && a.weights == w0[..k] + w[k..]
    case Train(e, j) => e == 0 && j == 0 ==> a.weights == w0
    case Done => c.epochs == 0 ==> a.weights == w0
    case _ => c.bpp == 0 ==> a.weights == w0
  }

  ghost predicate AllOpened(c: Config, init: State, s: State) {
    && |s| == |init| > 0 && AllShaped(c, init) && AllShaped(c, s)
    && forall p {:trigger s[p]} :: 0 <= p < |s| ==> Opened(c, init[0].weights, init[p].weights, s[p])
  }

  lemma StepOpened(c: Config, init: State, s: State, t: State)
    requires Ok(c) && !Alone(c) && Inv(c, s) && AllOpened(c, init, s) && Step(c, s, t)
    ensures AllOpened(c, init, t)
  {
    StepInv(c, s, t);
    forall p | 0 <= p < |t| ensures Opened(c, init[0].weights, init[p].weights, t[p]) {
      assert Opened(c, init[0].weights, init[p].weights, s[p]);
      if CollectiveStep(c, s, t) {
        CollectiveOpened(c, init, s, t, p);
      } else {
        var m :| 0 <= m < |s| && LocalStep(c, m, s[m], t[m]) && t == s[m := t[m]];
        if m == p { LocalOpened(c, m, init[0].weights, init[p].weights, s[p], t[p]); }
      }
    }
  }

  lemma LocalOpened(c: Config, id: nat, w0: Weights, w: Weights, a: Proc, b: Proc)
    requires Ok(c) && !Alone(c) && WellPlaced(c, a) && |w0| == |w| == |a.weights| == |b.weights| == |c.sizes|
    requires Opened(c, w0, w, a) && LocalStep(c, id, a, b)
    ensures Opened(c, w0, w, b)
  {
  }

  lemma CollectiveOpened(c: Config, init: State, s: State, t: State, p: nat)
    requires Ok(c) && !Alone(c) && Inv(c, s) && Inv(c, t) && AllOpened(c, init, s) && CollectiveStep(c, s, t) && p < |t|
    ensures Opened(c, init[0].weights, init[p].weights, t[p])
  {
    var w0, w := init[0].weights, init[p].weights;
    WaitingTogether(c, s);
    assert Effect(c, s, p, CallOf(s[0].place), t[p]) && s[p].place == s[0].place && WellPlaced(c, s[p]);
    assert Opened(c, w0, w, s[p]) && Opened(c, w0, w0, s[0]) && Shaped(c, t[p].weights);
    CallOpened(c, s, p, w0, w, t[p]);
  }

  lemma CallOpened(c: Config, s: State, p: nat, w0: Weights, w: Weights, b: Proc)
    requires Ok(c) && p < |s| && IsCall(s[p].place) && WellPlaced(c, s[p]) && AllShaped(c, s)
    requires |w0| == |w| == |c.sizes|
    requires s[p].place == s[0].place && b.place == AfterCall(c, s[p].place) && |b.weights| == |c.sizes|
    requires |s[p].weights| == |s[0].weights| == |c.sizes|
    requires Opened(c, w0, w, s[p]) && Opened(c, w0, w0, s[0]) && Effect(c, s, p, CallOf(s[0].place), b)
    ensures Opened(c, w0, w, b)
  {
    match s[p].place
    case Start(k) =>
      assert CallOf(s[0].place) == BcastWeight(k);
      StartOpened(c, w0, w, s[p].weights, s[0].weights, k, b);
    case Barrier(n) => assert w0[..0] + w[0..] == w;
    case Sync(e, j, k) =>
    case Metrics(e, k) =>
    case Bcast(e) =>
  }

  /** One more parameter taken from w0, the weights of process 0. */
  lemma StartOpened(c: Config, w0: Weights, w: Weights, mine: Weights, root: Weights, k: nat, b: Proc)
    requires |w0| == |w| == |mine| == |root| == |c.sizes| == |b.weights| && k < |c.sizes|
    requires mine == w0[..k] + w[k..] && root == w0[..k] + w0[k..] && b.weights == mine[k := root[k]]
    requires b.place == AfterCall(c, Start(k))
    ensures Opened(c, w0, w, b)
  {
    assert root == w0;
    assert b.weights == w0[..k + 1] + w[k + 1..];
    if k + 1 == |c.sizes| { assert b.weights == w0; }
  }

  lemma {:induction false} RunOpened(c: Config, period: nat, run: seq<State>)
    requires Ok(c) && !Alone(c) && period > 0 && Run(c, period, run)
    ensures AllOpened(c, run[0], run[|run| - 1])
  {
    RunInv(c, period, run);
    if |run| > 1 {
      RunOpened(c, period, run[..|run| - 1]);
      RunInv(c, period, run[..|run| - 1]);
      StepOpened(c, run[0], run[|run| - 2], run[|run| - 1]);
    }
  }

  /** In every run of several processes the weights training starts from are those process 0 had: each of
      its parameters has reached a process when that has called the broadcasts before the next one, and
      all of them when the process enters its first batch. */
  lemma RootWeights(c: Config, period: nat, run: seq<State>, p: nat)
    requires Ok(c) && c.procs > 1 && period > 0 && Run(c, period, run) && p < |run[|run| - 1]|
    ensures |run[0]| == c.procs && |run[0][0].weights| == |run[|run| - 1][p].weights| == |c.sizes|
    ensures var a, w0 := run[|run| - 1][p], run[0][0].weights;
      && (a.place.Start? ==> a.place.k < |c.sizes| && a.weights[..a.place.k] == w0[..a.place.k])
      && (a.place == Train(0, 0) ==> a.weights == w0)
      && (a.place.Done? && c.epochs == 0 ==> a.weights == w0)
  {
    RunOpened(c, period, run);
    RunInv(c, period, run);
    var s := run[|run| - 1];
    assert Opened(c, run[0][0].weights, run[0][p].weights, s[p]) && WellPlaced(c, s[p]);
  }

  // ---------------------------------------------------------------- one process

  ghost predicate Untouched(period: nat, a: Proc) {
    a.calls == [] && a.syncs == 0 && a.period == period && !IsCall(a.place)
  }

  lemma StepAlone(c: Config, period: nat, s: State, t: State)
    requires Ok(c) && Alone(c) && |s| == 1 && Untouched(period, s[0]) && Step(c, s, t)
    ensures |t| == 1 && Untouched(period, t[0])
  {
    assert !IsCall(s[0].place) && !Waiting(s);
  }

  lemma {:induction false} RunAlone(c: Config, period: nat, run: seq<State>)
    requires Ok(c) && Alone(c) && Run(c, period, run)
    ensures |run[|run| - 1]| == 1 && Untouched(period, run[|run| - 1][0])
  {
    if |run| > 1 {
      RunAlone(c, period, run[..|run| - 1]);
      StepAlone(c, period, run[|run| - 2], run[|run| - 1]);
    }
  }

  /** A process that is alone calls no collective, averages nothing and keeps its period, whatever the
      policy, in every reachable state. */
  lemma OneProcess(c: Config, period: nat, s: State)
    requires Ok(c) && Alone(c) && Reachable(c, period, s)
    ensures |s| == 1 && s[0].calls == [] && s[0].syncs == 0 && s[0].period == period
    ensures !IsCall(s[0].place)
  {
    var run :| Run(c, period, run) && run[|run| - 1] == s;
    RunAlone(c, period, run);
  }
}
