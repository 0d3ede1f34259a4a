/** Data-parallel training: processes that train on their own batches, average their weights from
    time to time and adapt how often they do.  Every process runs its own control flow; a collective
    completes when all processes have called one. */
module DistributedFit {
  import opened Arithmetic

  datatype Method = Fixed | AvgInc | Sawtooth | NegSawtooth | AutoTime | LimitOverhead

  /** sizes: element counts of the trainable parameters that are not empty, in network order.
      metrics: how many losses and metrics are averaged after an epoch. */
  datatype Config = Config(procs: nat, epochs: nat, bpp: nat, sizes: seq<nat>, metrics: nat,
                           avgMethod: Method, mpiAvg: nat, xAvg: nat)

  /** Where a process stands in fit.  All but Train, Update and Done are calls of a collective. */
  datatype Place =
    | Barrier(n: nat)                     // 0 in set_batch_distributed, 1 in set_NBPP_distributed
    | Start(k: nat)                       // bcast_weights_distributed, parameter k
    | Train(epoch: nat, j: nat)           // train_batch
    | Sync(epoch: nat, j: nat, k: nat)    // avg_weights_distributed, parameter k
    | Metrics(epoch: nat, k: nat)         // avg_metrics_distributed
    | Update(epoch: nat)                  // update_batch_avg_distributed, process 0 decides
    | Bcast(epoch: nat)                   // and broadcasts
    | Done

  datatype Call = Wait | BcastWeight(k: nat) | ReduceWeight(k: nat) | ReduceMetric(k: nat) | BcastPeriod

  type Weights = seq<seq<real>>

  /** syncs counts how often avg_weights_distributed averaged in the current epoch; calls lists the
      collectives this process has called. */
  datatype Proc = Proc(place: Place, period: nat, secsPrev: real, weights: Weights, syncs: nat, calls: seq<Call>)

  type State = seq<Proc>

  ghost predicate Ok(c: Config) {
    c.procs > 0 && c.mpiAvg > 0 && c.xAvg > 0
  }

  ghost predicate Shaped(c: Config, w: Weights) {
    |w| == |c.sizes| && forall k {:trigger w[k]} :: 0 <= k < |w| ==> |w[k]| == c.sizes[k]
  }

  // ---------------------------------------------------------------- control flow of one process

  /** Whether weights are averaged after batch number curr. */
  predicate Due(curr: nat, period: nat, bpp: nat)
    requires period > 0
  {
    curr % period == 0 || curr == bpp
  }

  /** Whether the process is alone: then every function of the distributed mode returns before it
      calls a collective. */
  predicate Alone(c: Config) { c.procs == 1 }

  /** Where a process stands when it has parsed its arguments. */
  function BeginFit(c: Config): Place {
    if Alone(c) then BeginEpoch(c, 0) else Barrier(0)
  }

  function EndEpoch(c: Config, e: nat): Place {
    if c.metrics > 0 && !Alone(c) then Metrics(e, 0) else Update(e)
  }

  function AfterUpdate(c: Config, e: nat): Place {
    if Alone(c) then BeginEpoch(c, e + 1) else Bcast(e)
  }

  function BeginEpoch(c: Config, e: nat): Place {
    if e >= c.epochs then Done else if c.bpp == 0 then EndEpoch(c, e) else Train(e, 0)
  }

  function AfterBatch(c: Config, e: nat, j: nat): Place {
    if j + 1 < c.bpp then Train(e, j + 1) else EndEpoch(c, e)
  }

  /** Whether avg_weights_distributed averages after batch number curr. */
  predicate Averages(c: Config, curr: nat, period: nat)
    requires period > 0
  {
    !Alone(c) && Due(curr, period, c.bpp)
  }

  function AfterTrain(c: Config, e: nat, j: nat, period: nat): Place
    requires period > 0
  {
    if Averages(c, j + 1, period) && c.sizes != [] then Sync(e, j, 0) else AfterBatch(c, e, j)
  }

  predicate IsCall(p: Place) {
    !p.Train? && !p.Update? && !p.Done?
  }

  function CallOf(p: Place): Call
    requires IsCall(p)
  {
    match p
    case Barrier(_) => Wait
    case Start(k) => BcastWeight(k)
    case Sync(_, _, k) => ReduceWeight(k)
    case Metrics(_, k) => ReduceMetric(k)
    case Bcast(_) => BcastPeriod
  }

  function AfterCall(c: Config, p: Place): Place
    requires IsCall(p)
  {
    match p
    case Barrier(n) => if n == 0 then Barrier(1) else if c.sizes != [] then Start(0) else BeginEpoch(c, 0)
    case Start(k) => if k + 1 < |c.sizes| then Start(k + 1) else BeginEpoch(c, 0)
    case Sync(e, j, k) => if k + 1 < |c.sizes| then Sync(e, j, k + 1) else AfterBatch(c, e, j)
    case Metrics(e, k) => if k + 1 < c.metrics then Metrics(e, k + 1) else Update(e)
    case Bcast(e) => BeginEpoch(c, e + 1)
  }

  // ---------------------------------------------------------------- the averaging period

  function Min(a: int, b: int): int { if a < b then a else b }

  function Max(a: int, b: int): int { if a < b then b else a }

  /** An averaging period and the epoch time it was chosen for. */
  datatype Pace = Pace(period: nat, secsPrev: real)

  /** The speed-up secs_prev / secs_epoch is above 1.10. */
  predicate Faster(secsPrev: real, secs: real) { secsPrev > 1.10 * secs }

  /** It is below 0.97. */
  predicate Slower(secsPrev: real, secs: real) { secsPrev < 0.97 * secs }

  /** Comparing products decides what comparing the quotient does. */
  lemma SpeedUpCompared(secsPrev: real, secs: real)
    requires secs > 0.0
    ensures secsPrev / secs > 1.10 <==> Faster(secsPrev, secs)
    ensures secsPrev / secs < 0.97 <==> Slower(secsPrev, secs)
  {
    var q := secsPrev / secs;
    assert q * secs == secsPrev;
    assert (q - 1.10) * secs == secsPrev - 1.10 * secs;
    assert (q - 0.97) * secs == secsPrev - 0.97 * secs;
  }

  /** What process 0 makes of its period and its reference time after an epoch of `secs` seconds;
      wanted is the rounded period that would limit the overhead.  A process that is alone keeps its
      period. */
  function NextPeriod(c: Config, epoch: nat, period: nat, secsPrev: real, secs: real, wanted: int): Pace
    requires c.xAvg > 0 && secs > 0.0
  {
    var up := Min(period * 2, c.bpp);
    var faster := if secs < secsPrev then secs else secsPrev;
    var turn := (epoch + 1) % c.xAvg == 0;
    if Alone(c) then Pace(period, secsPrev) else
    match c.avgMethod
    case Fixed => Pace(period, secsPrev)
    case LimitOverhead => Pace(if wanted < c.bpp then Max(1, wanted) else c.bpp, secsPrev)
    case AvgInc => Pace(if turn then up else period, secsPrev)
    case Sawtooth => Pace(if turn then up else period, secsPrev)
    case NegSawtooth => Pace(if turn then Max(period / 2, c.mpiAvg) else period, secsPrev)
    case AutoTime =>
      if !turn then Pace(period, secsPrev)
      else if Faster(secsPrev, secs) then Pace(up, faster)
      else if Slower(secsPrev, secs) then Pace(up, secs)
      else Pace(Max(period - period / 4, c.mpiAvg), faster)
  }

  /** The averaging policy in numbers: process 0 of several, after epoch `epoch` of `secs` seconds, goes
      from period p and reference time prev to period q and reference time next. */
  ghost predicate Policy(c: Config, epoch: nat, secs: real, wanted: int, p: nat, prev: real, q: nat, next: real)
    requires c.xAvg > 0 && secs > 0.0
  {
    var turn, timed := (epoch + 1) % c.xAvg == 0, c.avgMethod == AutoTime;
    var ratio := prev / secs;
    // the period
    && (c.avgMethod == Fixed ==> q == p)
    && (c.avgMethod == LimitOverhead ==> q == if wanted >= c.bpp then c.bpp else if wanted >= 1 then wanted else 1)
    && (!turn && c.avgMethod != LimitOverhead ==> q == p)
    && (turn && (c.avgMethod == AvgInc || c.avgMethod == Sawtooth) ==> q == if 2 * p <= c.bpp then 2 * p else c.bpp)
    && (turn && c.avgMethod == NegSawtooth ==> q == if p / 2 >= c.mpiAvg then p / 2 else c.mpiAvg)
    && (turn && timed && (ratio > 1.10 || ratio < 0.97) ==> q == if 2 * p <= c.bpp then 2 * p else c.bpp)
    && (turn && timed && 0.97 <= ratio <= 1.10 ==> q == if p - p / 4 >= c.mpiAvg then p - p / 4 else c.mpiAvg)
    // the reference time
    && (!turn || !timed ==> next == prev)
    && (turn && timed && ratio < 0.97 ==> next == secs)
    && (turn && timed && ratio >= 0.97 ==> next == if secs < prev then secs else prev)
  }

  lemma NextPeriodIsPolicy(c: Config, epoch: nat, secs: real, wanted: int, p: nat, prev: real)
    requires c.xAvg > 0 && secs > 0.0 && c.procs != 1
    ensures var r := NextPeriod(c, epoch, p, prev, secs, wanted);
      Policy(c, epoch, secs, wanted, p, prev, r.period, r.secsPrev)
  {
    SpeedUpCompared(prev, secs);
  }

  /** The policy leaves no choice. */
  lemma PolicyDecides(c: Config, epoch: nat, secs: real, wanted: int, p: nat, prev: real, a: Pace, b: Pace)
    requires c.xAvg > 0 && secs > 0.0
    requires Policy(c, epoch, secs, wanted, p, prev, a.period, a.secsPrev)
    requires Policy(c, epoch, secs, wanted, p, prev, b.period, b.secsPrev)
    ensures a == b
  {
  }

  /** Every policy keeps the period between the configured one and the batches of an epoch, but for
      the one that limits the overhead, which may go below. */
  lemma NextPeriodBounds(c: Config, epoch: nat, period: nat, secsPrev: real, secs: real, wanted: int)
    requires c.xAvg > 0 && secs > 0.0
    ensures var r := NextPeriod(c, epoch, period, secsPrev, secs, wanted).period;
      && (period > 0 && c.mpiAvg > 0 && c.bpp > 0 ==> r > 0)
      && (c.mpiAvg <= period <= c.bpp && !c.avgMethod.LimitOverhead? ==> c.mpiAvg <= r <= c.bpp)
      && (c.avgMethod.LimitOverhead? && c.bpp > 0 && !Alone(c) ==> 1 <= r <= c.bpp)
      && (Alone(c) ==> r == period)
  {
  }

  // ---------------------------------------------------------------- steps of the whole system

  /** Process 0 after it has decided on the next period. */
  function Decided(c: Config, a: Proc, secs: real, wanted: int): Proc
    requires Ok(c) && a.place.Update? && secs > 0.0
  {
    var r := NextPeriod(c, a.place.epoch, a.period, a.secsPrev, secs, wanted);
    a.(place := AfterUpdate(c, a.place.epoch), period := r.period, secsPrev := r.secsPrev,
       syncs := if Alone(c) then 0 else a.syncs)
  }

  /** A process trains a batch, with any result, or updates its period. */
  ghost predicate LocalStep(c: Config, id: nat, a: Proc, b: Proc)
    requires Ok(c)
  {
    && b.calls == a.calls
    && ((a.place.Train? && a.period > 0 && Shaped(c, b.weights)
         && b == a.(place := AfterTrain(c, a.place.epoch, a.place.j, a.period), weights := b.weights,
                    syncs := a.syncs + if Averages(c, a.place.j + 1, a.period) then 1 else 0))
        || (a.place.Update? && 0 < id < c.procs && b == a.(place := Bcast(a.place.epoch)))
        || (a.place.Update? && id == 0
            && exists secs: real, wanted: int :: secs > 0.0 && b == Decided(c, a, secs, wanted)))
  }

  function Total(s: State, k: nat, x: nat): real
    requires forall p :: 0 <= p < |s| ==> k < |s[p].weights| && x < |s[p].weights[k]|
  {
    if s == [] then 0.0 else Total(s[..|s| - 1], k, x) + s[|s| - 1].weights[k][x]
  }

  ghost predicate AllShaped(c: Config, s: State) {
    forall p {:trigger s[p]} :: 0 <= p < |s| ==> Shaped(c, s[p].weights)
  }

  /** Parameter k averaged over the processes. */
  ghost function Average(c: Config, s: State, k: nat): (r: seq<real>)
    requires |s| > 0 && k < |c.sizes| && AllShaped(c, s)
    ensures |r| == c.sizes[k]
  {
    seq(c.sizes[k], x requires 0 <= x < c.sizes[k] => Total(s, k, x) / |s| as real)
  }

  /** What a matched collective does to process p. */
  ghost predicate Effect(c: Config, s: State, p: nat, call: Call, b: Proc)
    requires |s| > 0 && p < |s| && AllShaped(c, s)
  {
    && b.period == (if call.BcastPeriod? then s[0].period else s[p].period)
    && b.weights == (if call.BcastWeight? && call.k < |c.sizes| then s[p].weights[call.k := s[0].weights[call.k]]
                     else if call.ReduceWeight? && call.k < |c.sizes| then s[p].weights[call.k := Average(c, s, call.k)]
                     else s[p].weights)
  }

  ghost predicate Waiting(s: State) {
    forall p {:trigger s[p]} :: 0 <= p < |s| ==> IsCall(s[p].place)
  }

  ghost predicate Matched(s: State, call: Call) {
    forall p {:trigger s[p]} :: 0 <= p < |s| ==> IsCall(s[p].place) && CallOf(s[p].place) == call
  }

  /** All processes are in a collective and leave it.  Each has recorded the call it made; unless all
      made the same one, nothing is known of the data. */
  ghost predicate CollectiveStep(c: Config, s: State, t: State) {
    && |t| == |s| > 0 && Waiting(s) && AllShaped(c, s)
    && (forall p {:trigger t[p]} :: 0 <= p < |t| ==>
          && t[p].place == AfterCall(c, s[p].place)
          && t[p].calls == s[p].calls + [CallOf(s[p].place)]
          && t[p].secsPrev == s[p].secsPrev
          && t[p].syncs == if s[p].place.Bcast? then 0 else s[p].syncs)
    && (Matched(s, CallOf(s[0].place)) ==> forall p {:trigger t[p]} :: 0 <= p < |t| ==>
        Effect(c, s, p, CallOf(s[0].place), t[p]))
  }

  ghost predicate Step(c: Config, s: State, t: State)
    requires Ok(c)
  {
    || CollectiveStep(c, s, t)
    || (|t| == |s| && exists p {:trigger s[p]} :: 0 <= p < |s| && LocalStep(c, p, s[p], t[p]) && t == s[p := t[p]])
  }

  /** The processes start anywhere in weight space, with a common averaging period. */
  ghost predicate IsInit(c: Config, period: nat, s: State) {
    && |s| == c.procs && AllShaped(c, s)
    && forall p {:trigger s[p]} :: 0 <= p < |s| ==>
        s[p].place == BeginFit(c) && s[p].period == period && s[p].syncs == 0 && s[p].calls == []
  }

  ghost predicate Run(c: Config, period: nat, run: seq<State>)
    requires Ok(c)
  {
    run != [] &&
    if |run| == 1 then IsInit(c, period, run[0])
    else Run(c, period, run[..|run| - 1]) && Step(c, run[|run| - 2], run[|run| - 1])
  }

  ghost predicate Reachable(c: Config, period: nat, s: State)
    requires Ok(c)
  {
    exists run: seq<State> :: Run(c, period, run) && run[|run| - 1] == s
  }

  // ---------------------------------------------------------------- invariant

  /** The collective a process will call next: training continues until one is due.  Done stands for
      none. */
  function NextCall(c: Config, p: Place, period: nat): Place
    requires p.Train? ==> period > 0
    decreases if p.Train? && p.j < c.bpp then c.bpp - p.j else 0
  {
    if Alone(c) then Done else
    match p
    case Train(e, j) =>
      if j >= c.bpp then p
      else if Due(j + 1, period, c.bpp) && c.sizes != [] then Sync(e, j, 0)
      else if j + 1 < c.bpp then NextCall(c, Train(e, j + 1), period)
      else if c.metrics > 0 then Metrics(e, 0)
      else Bcast(e)
    case Update(e) => Bcast(e)
    case _ => p
  }

  /** How many of the first j batches of an epoch are followed by averaging. */
  function SyncCount(j: nat, period: nat, bpp: nat): nat
    requires period > 0
  {
    if j == 0 then 0 else SyncCount(j - 1, period, bpp) + if Due(j, period, bpp) then 1 else 0
  }

  /** How many of the first j batches of an epoch this configuration averages. */
  function SyncsIn(c: Config, j: nat, period: nat): nat
    requires period > 0
  {
    if Alone(c) then 0 else SyncCount(j, period, c.bpp)
  }

  /** Averaging ran as often in this epoch as its batches call for. */
  ghost predicate EpochAveraged(c: Config, a: Proc) {
    if c.bpp == 0 then a.syncs == 0 else a.period > 0 && a.syncs == SyncsIn(c, c.bpp, a.period)
  }

  ghost predicate WellPlaced(c: Config, a: Proc) {
    && (c.bpp > 0 ==> a.period > 0)
    && (IsCall(a.place) ==> !Alone(c))
    && match a.place
       case Barrier(n) => n < 2 && a.syncs == 0
       case Start(k) => k < |c.sizes| && a.syncs == 0
       case Train(e, j) => e < c.epochs && j < c.bpp && a.syncs == SyncsIn(c, j, a.period)
       case Sync(e, j, k) =>
         && e < c.epochs && j < c.bpp && k < |c.sizes| && Due(j + 1, a.period, c.bpp)
         && a.syncs == SyncsIn(c, j + 1, a.period)
       case Metrics(e, k) => e < c.epochs && k < c.metrics && EpochAveraged(c, a)
       case Update(e) => e < c.epochs && EpochAveraged(c, a)
       case Bcast(e) => e < c.epochs
       case Done => true
  }

  /** How many leading parameters are known to be the same everywhere. */
  function Settled(c: Config, p: Place): nat {
    match p
    case Barrier(_) => 0
    case Start(k) => k
    case Train(e, j) => 0
    case Sync(e, j, k) => k
    case _ => |c.sizes|
  }

  ghost predicate Aligned(c: Config, a: Proc, b: Proc)
    requires WellPlaced(c, a) && WellPlaced(c, b)
  {
    && a.calls == b.calls
    && NextCall(c, a.place, a.period) == NextCall(c, b.place, b.period)
    && (a.place.Bcast? || b.place.Bcast? || a.period == b.period)
  }

  ghost predicate Agree(c: Config, a: Proc, b: Proc)
    requires Shaped(c, a.weights) && Shaped(c, b.weights)
  {
    forall k {:trigger a.weights[k]} {:trigger b.weights[k]} ::
      0 <= k < |c.sizes| && k < Settled(c, a.place) && k < Settled(c, b.place) ==>
      a.weights[k] == b.weights[k]
  }

  ghost predicate Inv(c: Config, s: State) {
    && |s| == c.procs && AllShaped(c, s)
    && (forall p {:trigger s[p]} :: 0 <= p < |s| ==> WellPlaced(c, s[p]))
    && (forall p, q {:trigger s[p], s[q]} :: 0 <= p < |s| && 0 <= q < |s| ==> Aligned(c, s[p], s[q]))
    && (forall p, q {:trigger s[p], s[q]} :: 0 <= p < |s| && 0 <= q < |s| ==> Agree(c, s[p], s[q]))
  }

  lemma InitInv(c: Config, period: nat, s: State)
    requires Ok(c) && period > 0 && IsInit(c, period, s)
    ensures Inv(c, s)
  {
  }

  lemma NextIsCall(c: Config, p: Place, period: nat)
    requires p.Train? ==> period > 0 && p.j < c.bpp
    ensures NextCall(c, p, period).Done? || IsCall(NextCall(c, p, period))
    decreases if p.Train? then c.bpp - p.j else 0
  {
    if p.Train? && p.j + 1 < c.bpp { NextIsCall(c, Train(p.epoch, p.j + 1), period); }
  }

  lemma TrainKeepsNext(c: Config, a: Proc, b: Proc)
    requires Ok(c) && WellPlaced(c, a) && a.place.Train? && a.period > 0 && b.period == a.period
    requires b.place == AfterTrain(c, a.place.epoch, a.place.j, a.period)
    requires b.syncs == a.syncs + if Averages(c, a.place.j + 1, a.period) then 1 else 0
    ensures WellPlaced(c, b)
    ensures NextCall(c, b.place, b.period) == NextCall(c, a.place, a.period)
  {
  }

  /** A local step keeps the next collective. */
  lemma LocalKeepsNext(c: Config, id: nat, a: Proc, b: Proc)
    requires Ok(c) && WellPlaced(c, a) && LocalStep(c, id, a, b)
    ensures WellPlaced(c, b)
    ensures NextCall(c, b.place, b.period) == NextCall(c, a.place, a.period)
    ensures b.place.Bcast? || b.period == a.period
    ensures !a.place.Bcast?
  {
    if a.place.Train? {
      TrainKeepsNext(c, a, b);
    } else if id == 0 {
      var secs: real, wanted: int :| secs > 0.0 && b == Decided(c, a, secs, wanted);
      NextPeriodBounds(c, a.place.epoch, a.period, a.secsPrev, secs, wanted);
    }
  }

  lemma LocalKeepsAgreement(c: Config, id: nat, a: Proc, b: Proc, other: Proc)
    requires Ok(c) && !Alone(c) && WellPlaced(c, a) && LocalStep(c, id, a, b)
    requires Shaped(c, a.weights) && Shaped(c, other.weights) && Agree(c, a, other) && Agree(c, other, a)
    ensures Shaped(c, b.weights) && Agree(c, b, other) && Agree(c, other, b)
  {
    if a.place.Train? {
      assert c.sizes == [] || Settled(c, b.place) == 0;
    } else {
      assert b.weights == a.weights && Settled(c, b.place) == Settled(c, a.place);
    }
  }

  lemma LocalInv(c: Config, s: State, p: nat, b: Proc)
    requires Ok(c) && Inv(c, s) && p < |s| && LocalStep(c, p, s[p], b)
    ensures Inv(c, s[p := b])
  {
    var t := s[p := b];
    LocalKeepsNext(c, p, s[p], b);
    assert Shaped(c, b.weights);
    forall q, r | 0 <= q < |t| && 0 <= r < |t| ensures Aligned(c, t[q], t[r]) && Agree(c, t[q], t[r]) {
      assert Aligned(c, s[q], s[r]) && Agree(c, s[q], s[r]);
      assert Agree(c, b, b);
      if q == p && r != p { LocalKeepsAgreement(c, p, s[p], b, s[r]); }
      if r == p && q != p { LocalKeepsAgreement(c, p, s[p], b, s[q]); }
    }
  }

  /** Processes that are all in a collective are in the same one, of the same batch and epoch. */
  lemma WaitingTogether(c: Config, s: State)
    requires Ok(c) && Inv(c, s) && Waiting(s)
    ensures forall p {:trigger s[p]} :: 0 <= p < |s| ==> s[p].place == s[0].place
    ensures Matched(s, CallOf(s[0].place))
  {
    forall p | 0 <= p < |s| ensures s[p].place == s[0].place {
      assert Aligned(c, s[p], s[0]);
      assert IsCall(s[p].place) && IsCall(s[0].place);
    }
  }

  lemma CallKeepsPlace(c: Config, a: Proc, b: Proc)
    requires Ok(c) && WellPlaced(c, a) && IsCall(a.place)
    requires b.place == AfterCall(c, a.place) && b.syncs == (if a.place.Bcast? then 0 else a.syncs)
    requires b.period == a.period || a.place.Bcast?
    requires c.bpp > 0 ==> b.period > 0
    ensures WellPlaced(c, b)
    ensures !b.place.Bcast?
  {
  }

  /** A parameter is settled after a collective only if it was before, or the collective settled it. */
  lemma CallSettles(c: Config, p: Place, k: nat)
    requires IsCall(p) && k < Settled(c, AfterCall(c, p)) && k < |c.sizes|
    requires p.Start? || p.Sync? ==> p.k < |c.sizes|
    ensures k < Settled(c, p) || CallOf(p) == BcastWeight(k) || CallOf(p) == ReduceWeight(k)
  {
  }

  lemma CollectiveAgrees(c: Config, s: State, t: State, p: nat, q: nat)
    requires Ok(c) && Inv(c, s) && CollectiveStep(c, s, t) && p < |s| && q < |s|
    ensures AllShaped(c, t) && Agree(c, t[p], t[q])
  {
    WaitingTogether(c, s);
    var place := s[0].place;
    assert s[p].place == place && s[q].place == place;
    forall m | 0 <= m < |t| ensures Shaped(c, t[m].weights) {
      assert Effect(c, s, m, CallOf(place), t[m]) && Shaped(c, s[m].weights);
    }
    assert Effect(c, s, p, CallOf(place), t[p]) && Effect(c, s, q, CallOf(place), t[q]);
    assert Agree(c, s[p], s[q]);
    forall k | 0 <= k < |c.sizes| && k < Settled(c, t[p].place) && k < Settled(c, t[q].place)
      ensures t[p].weights[k] == t[q].weights[k]
    {
      CallSettles(c, place, k);
      if k < Settled(c, place) { assert s[p].weights[k] == s[q].weights[k]; }
    }
  }

  lemma CollectiveInv(c: Config, s: State, t: State)
    requires Ok(c) && Inv(c, s) && CollectiveStep(c, s, t)
    ensures Inv(c, t)
  {
    WaitingTogether(c, s);
    var place := s[0].place;
    forall p | 0 <= p < |t| ensures WellPlaced(c, t[p]) && t[p].place == AfterCall(c, place) && !t[p].place.Bcast? {
      assert Effect(c, s, p, CallOf(place), t[p]) && s[p].place == place;
      assert WellPlaced(c, s[p]) && WellPlaced(c, s[0]);
      CallKeepsPlace(c, s[p], t[p]);
    }
    forall p, q | 0 <= p < |t| && 0 <= q < |t| ensures Aligned(c, t[p], t[q]) {
      assert Aligned(c, s[p], s[q]);
      assert Effect(c, s, p, CallOf(place), t[p]) && Effect(c, s, q, CallOf(place), t[q]);
      assert s[p].place == place && s[q].place == place;
    }
    CollectiveAgrees(c, s, t, 0, 0);
    forall p, q | 0 <= p < |t| && 0 <= q < |t| ensures Agree(c, t[p], t[q]) {
      CollectiveAgrees(c, s, t, p, q);
    }
  }

  lemma StepInv(c: Config, s: State, t: State)
    requires Ok(c) && Inv(c, s) && Step(c, s, t)
    ensures Inv(c, t)
  {
    if CollectiveStep(c, s, t) {
      CollectiveInv(c, s, t);
    } else {
      var p :| 0 <= p < |s| && LocalStep(c, p, s[p], t[p]) && t == s[p := t[p]];
      LocalInv(c, s, p, t[p]);
    }
  }

  lemma {:induction false} RunInv(c: Config, period: nat, run: seq<State>)
    requires Ok(c) && period > 0 && Run(c, period, run)
    ensures Inv(c, run[|run| - 1])
  {
    if |run| == 1 {
      InitInv(c, period, run[0]);
    } else {
      RunInv(c, period, run[..|run| - 1]);
      StepInv(c, run[|run| - 2], run[|run| - 1]);
    }
  }

  lemma ReachableInv(c: Config, period: nat, s: State)
    requires Ok(c) && period > 0 && Reachable(c, period, s)
    ensures Inv(c, s)
  {
    var run :| Run(c, period, run) && run[|run| - 1] == s;
    RunInv(c, period, run);
  }

  lemma ReachablePlaced(c: Config, period: nat, s: State, p: nat)
    requires Ok(c) && period > 0 && Reachable(c, period, s) && p < |s|
    ensures WellPlaced(c, s[p])
  {
    ReachableInv(c, period, s);
  }

  // ---------------------------------------------------------------- what every run keeps

  /** All processes have called the same collectives in the same order, in every reachable state. */
  lemma SameCollectives(c: Config, period: nat, s: State, p: nat, q: nat)
    requires Ok(c) && period > 0 && Reachable(c, period, s) && p < |s| && q < |s|
    ensures s[p].calls == s[q].calls
  {
    ReachableInv(c, period, s);
    assert Aligned(c, s[p], s[q]);
  }

  /** The averaging that ends a synchronisation leaves all processes with the same weights. */
  lemma SyncAgrees(c: Config, period: nat, s: State, t: State, p: nat, q: nat)
    requires Ok(c) && period > 0 && Reachable(c, period, s) && CollectiveStep(c, s, t) && p < |s| && q < |s|
    requires s[p].place.Sync? && s[p].place.k + 1 == |c.sizes|
    ensures t[p].weights == t[q].weights
  {
    ReachableInv(c, period, s);
    WaitingTogether(c, s);
    assert s[p].place == s[0].place && s[q].place == s[0].place && Agree(c, s[p], s[q]);
    var call := ReduceWeight(s[p].place.k);
    assert Effect(c, s, p, call, t[p]) && Effect(c, s, q, call, t[q]);
    LastReduction(c, s[p], s[q], s[p].place.k, Average(c, s, s[p].place.k));
  }

  lemma LastReduction(c: Config, a: Proc, b: Proc, k: nat, avg: seq<real>)
    requires Shaped(c, a.weights) && Shaped(c, b.weights) && Agree(c, a, b)
    requires Settled(c, a.place) == Settled(c, b.place) == k && k + 1 == |c.sizes|
    ensures a.weights[k := avg] == b.weights[k := avg]
  {
    forall m | 0 <= m < k ensures a.weights[m] == b.weights[m] {
    }
  }

  /** Processes that have trained all the batches of an epoch have the same weights, and so have
      processes that are done. */
  lemma EpochEndAgrees(c: Config, period: nat, s: State, p: nat, q: nat)
    requires Ok(c) && period > 0 && Reachable(c, period, s) && p < |s| && q < |s|
    requires s[p].place.Metrics? || s[p].place.Update? || s[p].place.Bcast? || s[p].place.Done?
    requires s[q].place.Metrics? || s[q].place.Update? || s[q].place.Bcast? || s[q].place.Done?
    ensures s[p].weights == s[q].weights
  {
    ReachableInv(c, period, s);
    assert Agree(c, s[p], s[q]) && Shaped(c, s[p].weights) && Shaped(c, s[q].weights);
    AllSettled(c, s[p], s[q]);
  }

  lemma AllSettled(c: Config, a: Proc, b: Proc)
    requires Shaped(c, a.weights) && Shaped(c, b.weights) && Agree(c, a, b)
    requires Settled(c, a.place) == Settled(c, b.place) == |c.sizes|
    ensures a.weights == b.weights
  {
    forall k | 0 <= k < |c.sizes| ensures a.weights[k] == b.weights[k] {
    }
  }

  lemma {:induction false} SyncCountIs(j: nat, period: nat, bpp: nat)
    requires period > 0 && j <= bpp
    ensures SyncCount(j, period, bpp) == j / period + if j > 0 && j == bpp && j % period != 0 then 1 else 0
  {
    if j == 0 {
      DivModUnique(0, period, 0, 0);
    } else {
      SyncCountIs(j - 1, period, bpp);
      NextDiv(j - 1, period);
      NextMod(j - 1, period);
    }
  }

  /** a / n, rounded up. */
  function Ceiling(a: nat, n: nat): nat
    requires n > 0
  {
    (a + n - 1) / n
  }

  lemma CeilingIs(a: nat, n: nat)
    requires n > 0
    ensures Ceiling(a, n) == a / n + if a % n != 0 then 1 else 0
  {
    var q, r := a / n, a % n;
    if r == 0 {
      DivModUnique(a + n - 1, n, q, n - 1);
    } else {
      assert a + n - 1 == (q + 1) * n + (r - 1);
      DivModUnique(a + n - 1, n, q + 1, r - 1);
    }
  }

  /** With several processes an epoch averages as often as its batches divided by the period, rounded
      up; a process that is alone never averages. */
  lemma SyncsPerEpoch(c: Config, period: nat, s: State, p: nat)
    requires Ok(c) && period > 0 && Reachable(c, period, s) && p < |s|
    requires s[p].place.Metrics? || s[p].place.Update?
    ensures Alone(c) ==> s[p].syncs == 0
    ensures !Alone(c) && s[p].period > 0 ==> s[p].syncs == Ceiling(c.bpp, s[p].period)
    ensures s[p].period == 0 ==> c.bpp == 0 && s[p].syncs == 0
  {
    ReachablePlaced(c, period, s, p);
    EpochSyncs(c, s[p]);
  }

  lemma EpochSyncs(c: Config, a: Proc)
    requires WellPlaced(c, a) && (a.place.Metrics? || a.place.Update?)
    ensures Alone(c) ==> a.syncs == 0
    ensures !Alone(c) && a.period > 0 ==> a.syncs == Ceiling(c.bpp, a.period)
    ensures a.period == 0 ==> c.bpp == 0 && a.syncs == 0
  {
    if a.period > 0 {
      SyncCountIs(c.bpp, a.period, c.bpp);
      CeilingIs(c.bpp, a.period);
      DivModUnique(0, a.period, 0, 0);
    }
  }

  /** No process is ever left waiting: unless all are done, some step is possible. */
  lemma NeverStuck(c: Config, period: nat, s: State)
    requires Ok(c) && period > 0 && Reachable(c, period, s)
    requires exists p :: 0 <= p < |s| && !s[p].place.Done?
    ensures exists t :: Step(c, s, t)
  {
    ReachableInv(c, period, s);
    var t := CanStep(c, s);
  }

  lemma CanStep(c: Config, s: State) returns (t: State)
    requires Ok(c) && Inv(c, s)
    requires exists p :: 0 <= p < |s| && !s[p].place.Done?
    ensures Step(c, s, t)
  {
    if p :| 0 <= p < |s| && (s[p].place.Train? || s[p].place.Update?) {
      var b := LocalCanStep(c, p, s[p]);
      t := s[p := b];
      assert t[p] == b;
    } else {
      t := AllCanCall(c, s);
    }
  }

  lemma AllCanCall(c: Config, s: State) returns (t: State)
    requires Ok(c) && Inv(c, s)
    requires forall p :: 0 <= p < |s| ==> !s[p].place.Train? && !s[p].place.Update?
    requires exists p :: 0 <= p < |s| && !s[p].place.Done?
    ensures CollectiveStep(c, s, t)
  {
    var p :| 0 <= p < |s| && !s[p].place.Done?;
    forall q | 0 <= q < |s| ensures IsCall(s[q].place) {
      assert Aligned(c, s[p], s[q]);
      assert !s[q].place.Train? && !s[q].place.Update?;
    }
    WaitingTogether(c, s);
    t := seq(|s|, q requires 0 <= q < |s| => Moved(c, s, q, CallOf(s[0].place)));
  }

  lemma LocalCanStep(c: Config, id: nat, a: Proc) returns (b: Proc)
    requires Ok(c) && WellPlaced(c, a) && Shaped(c, a.weights) && (a.place.Train? || a.place.Update?) && id < c.procs
    ensures LocalStep(c, id, a, b)
  {
    if a.place.Train? {
      b := a.(place := AfterTrain(c, a.place.epoch, a.place.j, a.period),
              syncs := a.syncs + if Averages(c, a.place.j + 1, a.period) then 1 else 0);
    } else if id > 0 {
      b := a.(place := Bcast(a.place.epoch));
    } else {
      b := Decided(c, a, 1.0, 0);
    }
  }

  /** Process p after a matched collective. */
  ghost function Moved(c: Config, s: State, p: nat, call: Call): Proc
    requires |s| > 0 && p < |s| && AllShaped(c, s) && Matched(s, call)
  {
    var a := s[p];
    a.(place := AfterCall(c, a.place), calls := a.calls + [call], syncs := if a.place.Bcast? then 0 else a.syncs,
       period := if call.BcastPeriod? then s[0].period else a.period,
       weights := if call.BcastWeight? && call.k < |c.sizes| then a.weights[call.k := s[0].weights[call.k]]
                  else if call.ReduceWeight? && call.k < |c.sizes| then a.weights[call.k := Average(c, s, call.k)]
                  else a.weights)
  }

  ghost predicate PeriodIn(s: State, lo: nat, hi: nat) {
    forall p {:trigger s[p]} :: 0 <= p < |s| ==> lo <= s[p].period <= hi
  }

  lemma StepKeepsPeriod(c: Config, s: State, t: State)
    requires Ok(c) && !c.avgMethod.LimitOverhead? && Inv(c, s) && Step(c, s, t) && PeriodIn(s, c.mpiAvg, c.bpp)
    ensures PeriodIn(t, c.mpiAvg, c.bpp)
  {
    if CollectiveStep(c, s, t) {
      WaitingTogether(c, s);
      forall p | 0 <= p < |t| ensures c.mpiAvg <= t[p].period <= c.bpp {
        assert Effect(c, s, p, CallOf(s[0].place), t[p]);
        assert c.mpiAvg <= s[p].period <= c.bpp && c.mpiAvg <= s[0].period <= c.bpp;
      }
    } else {
      var p :| 0 <= p < |s| && LocalStep(c, p, s[p], t[p]) && t == s[p := t[p]];
      assert c.mpiAvg <= s[p].period <= c.bpp;
      if s[p].place.Update? && p == 0 {
        var secs: real, wanted: int :| secs > 0.0 && t[p] == Decided(c, s[p], secs, wanted);
        NextPeriodBounds(c, s[p].place.epoch, s[p].period, s[p].secsPrev, secs, wanted);
      }
    }
  }

  lemma {:induction false} RunKeepsPeriod(c: Config, period: nat, run: seq<State>)
    requires Ok(c) && !c.avgMethod.LimitOverhead? && period > 0 && Run(c, period, run)
    requires c.mpiAvg <= period <= c.bpp
    ensures PeriodIn(run[|run| - 1], c.mpiAvg, c.bpp)
  {
    if |run| > 1 {
      RunKeepsPeriod(c, period, run[..|run| - 1]);
      RunInv(c, period, run[..|run| - 1]);
      StepKeepsPeriod(c, run[|run| - 2], run[|run| - 1]);
    }
  }

  /** Without the overhead policy, the period stays between the configured one and the batches of an
      epoch in every run exactly when it starts there. */
  lemma PeriodBounded(c: Config, period: nat)
    requires Ok(c) && !c.avgMethod.LimitOverhead? && period > 0
    ensures (forall s {:trigger Reachable(c, period, s)} :: Reachable(c, period, s) ==> PeriodIn(s, c.mpiAvg, c.bpp))
       <==> c.mpiAvg <= period <= c.bpp
  {
    if c.mpiAvg <= period <= c.bpp {
      forall s | Reachable(c, period, s) ensures PeriodIn(s, c.mpiAvg, c.bpp) {
        var run :| Run(c, period, run) && run[|run| - 1] == s;
        RunKeepsPeriod(c, period, run);
      }
    } else {
      var w: Weights := seq(|c.sizes|, k requires 0 <= k < |c.sizes| => seq(c.sizes[k], _ => 0.0));
      var s: State := seq(c.procs, _ => Proc(BeginFit(c), period, 0.0, w, 0, []));
      assert Run(c, period, [s]);
      assert [s][|[s]| - 1] == s;
      assert Reachable(c, period, s);
      assert s[0].period == period;
    }
  }

  /** What a step from a to b may do to process id, when process 0 has period root: process 0 changes its
      period and its reference time only when it updates them, and then as the policy says; the others
      take its period when it is broadcast. */
  ghost predicate PeriodMove(c: Config, id: nat, a: Proc, b: Proc, root: nat)
    requires c.xAvg > 0
  {
    && (b.place == a.place ==> b.period == a.period && b.secsPrev == a.secsPrev)
    && (id > 0 || !a.place.Update? ==> b.secsPrev == a.secsPrev)
    && (id > 0 && b.place != a.place ==> b.period == if a.place.Bcast? then root else a.period)
    && (id == 0 && !a.place.Update? ==> b.period == a.period)
    && (id == 0 && a.place.Update? && b.place != a.place ==>
          exists secs: real, wanted: int ::
            secs > 0.0 && Policy(c, a.place.epoch, secs, wanted, a.period, a.secsPrev, b.period, b.secsPrev))
  }

  /** So does every step of every run of several processes. */
  lemma PeriodSteps(c: Config, period: nat, s: State, t: State, p: nat)
    requires Ok(c) && c.procs > 1 && period > 0 && Reachable(c, period, s) && Step(c, s, t) && p < |s|
    ensures |t| == |s| && PeriodMove(c, p, s[p], t[p], s[0].period)
  {
    ReachableInv(c, period, s);
    if CollectiveStep(c, s, t) {
      CollectivePeriod(c, s, t, p);
    } else {
      var m :| 0 <= m < |s| && LocalStep(c, m, s[m], t[m]) && t == s[m := t[m]];
      LocalPeriod(c, m, s[m], t[m], s[0].period);
    }
  }

  lemma CollectivePeriod(c: Config, s: State, t: State, p: nat)
    requires Ok(c) && Inv(c, s) && CollectiveStep(c, s, t) && p < |s|
    ensures PeriodMove(c, p, s[p], t[p], s[0].period)
  {
    WaitingTogether(c, s);
    assert IsCall(s[p].place) && s[p].place == s[0].place && WellPlaced(c, s[p]);
    assert Effect(c, s, p, CallOf(s[0].place), t[p]);
  }

  lemma LocalPeriod(c: Config, id: nat, a: Proc, b: Proc, root: nat)
    requires Ok(c) && c.procs > 1 && WellPlaced(c, a) && LocalStep(c, id, a, b)
    ensures PeriodMove(c, id, a, b, root)
  {
    if id == 0 && a.place.Update? {
      var secs: real, wanted: int :| secs > 0.0 && b == Decided(c, a, secs, wanted);
      NextPeriodIsPolicy(c, a.place.epoch, secs, wanted, a.period, a.secsPrev);
    }
  }

  // ---------------------------------------------------------------- the period, epoch by epoch

  /** The policy looks at the number of the epoch only, not at measured times. */
  predicate Untimed(c: Config) { !c.avgMethod.AutoTime? && !c.avgMethod.LimitOverhead? }

  /** The period with which epoch e is trained. */
  function PeriodAt(c: Config, period: nat, e: nat): nat
    requires c.xAvg > 0
  {
    if e == 0 then period else NextPeriod(c, e - 1, PeriodAt(c, period, e - 1), 0.0, 1.0, 0).period
  }

  /** The process has the period of the epoch it is in; process 0 changes it first. */
  ghost predicate OnSchedule(c: Config, period: nat, id: nat, a: Proc)
    requires c.xAvg > 0
  {
    match a.place
    case Barrier(_) => a.period == period
    case Start(_) => a.period == period
    case Train(e, _) => e < c.epochs && a.period == PeriodAt(c, period, e)
    case Sync(e, _, _) => e < c.epochs && a.period == PeriodAt(c, period, e)
    case Metrics(e, _) => e < c.epochs && a.period == PeriodAt(c, period, e)
    case Update(e) => e < c.epochs && a.period == PeriodAt(c, period, e)
    case Bcast(e) => e < c.epochs && a.period == PeriodAt(c, period, if id == 0 then e + 1 else e)
    case Done => a.period == PeriodAt(c, period, c.epochs)
  }

  lemma LocalKeepsSchedule(c: Config, period: nat, id: nat, a: Proc, b: Proc)
    requires Ok(c) && Untimed(c) && OnSchedule(c, period, id, a) && LocalStep(c, id, a, b)
    ensures OnSchedule(c, period, id, b)
  {
    if a.place.Update? && id == 0 {
      var e := a.place.epoch;
      var secs: real, wanted: int :| secs > 0.0 && b == Decided(c, a, secs, wanted);
      assert PeriodAt(c, period, e + 1) == NextPeriod(c, e, PeriodAt(c, period, e), 0.0, 1.0, 0).period;
    }
  }

  ghost predicate AllOnSchedule(c: Config, period: nat, s: State)
    requires c.xAvg > 0
  {
    forall p {:trigger s[p]} :: 0 <= p < |s| ==> OnSchedule(c, period, p, s[p])
  }

  /** A process on schedule is still on it after a collective; the broadcast brings process 0's period. */
  lemma CallKeepsSchedule(c: Config, period: nat, id: nat, a: Proc, root: Proc, b: Proc)
    requires Ok(c) && IsCall(a.place) && a.place == root.place
    requires OnSchedule(c, period, id, a) && OnSchedule(c, period, 0, root)
    requires b.place == AfterCall(c, a.place) && b.period == if a.place.Bcast? then root.period else a.period
    ensures OnSchedule(c, period, id, b)
  {
  }

  lemma CollectiveKeepsSchedule(c: Config, period: nat, s: State, t: State)
    requires Ok(c) && Inv(c, s) && AllOnSchedule(c, period, s) && CollectiveStep(c, s, t)
    ensures AllOnSchedule(c, period, t)
  {
    WaitingTogether(c, s);
    forall p | 0 <= p < |t| ensures OnSchedule(c, period, p, t[p]) {
      assert Effect(c, s, p, CallOf(s[0].place), t[p]) && s[p].place == s[0].place;
      CallKeepsSchedule(c, period, p, s[p], s[0], t[p]);
    }
  }

  lemma StepKeepsSchedule(c: Config, period: nat, s: State, t: State)
    requires Ok(c) && Untimed(c) && Inv(c, s) && AllOnSchedule(c, period, s) && Step(c, s, t)
    ensures AllOnSchedule(c, period, t)
  {
    if CollectiveStep(c, s, t) {
      CollectiveKeepsSchedule(c, period, s, t);
    } else {
      var p :| 0 <= p < |s| && LocalStep(c, p, s[p], t[p]) && t == s[p := t[p]];
      LocalKeepsSchedule(c, period, p, s[p], t[p]);
    }
  }

  lemma {:induction false} RunOnSchedule(c: Config, period: nat, run: seq<State>)
    requires Ok(c) && Untimed(c) && period > 0 && Run(c, period, run)
    ensures AllOnSchedule(c, period, run[|run| - 1])
  {
    if |run| > 1 {
      RunOnSchedule(c, period, run[..|run| - 1]);
      RunInv(c, period, run[..|run| - 1]);
      StepKeepsSchedule(c, period, run[|run| - 2], run[|run| - 1]);
    }
  }

  /** Under a policy that ignores times, every process trains epoch e with the period of epoch e, in
      every run. */
  lemma PeriodExact(c: Config, period: nat, s: State, p: nat)
    requires Ok(c) && Untimed(c) && period > 0 && Reachable(c, period, s) && p < |s|
    ensures OnSchedule(c, period, p, s[p])
  {
    var run :| Run(c, period, run) && run[|run| - 1] == s;
    RunOnSchedule(c, period, run);
  }

  function Pow2(k: nat): (r: nat)
    ensures r > 0
  {
    if k == 0 then 1 else 2 * Pow2(k - 1)
  }

  /** How the period of an epoch follows from that of the epoch before, under the growing policies
      and under the shrinking one. */
  lemma NextEpoch(c: Config, period: nat, e: nat)
    requires c.xAvg > 0 && e > 0
    ensures var p := PeriodAt(c, period, e - 1);
      && (Alone(c) ==> PeriodAt(c, period, e) == p)
      && (!Alone(c) && (c.avgMethod.AvgInc? || c.avgMethod.Sawtooth?) ==>
            PeriodAt(c, period, e) == if e % c.xAvg == 0 then Min(p * 2, c.bpp) else p)
      && (!Alone(c) && c.avgMethod.NegSawtooth? ==>
            PeriodAt(c, period, e) == if e % c.xAvg == 0 then Max(p / 2, c.mpiAvg) else p)
  {
  }

  /** The number of turns so far grows in the epochs that are a multiple of n. */
  lemma Turns(e: nat, n: nat)
    requires e > 0 && n > 0
    ensures e / n == (e - 1) / n + if e % n == 0 then 1 else 0
  {
    NextDiv(e - 1, n);
    NextMod(e - 1, n);
  }

  /** Doubling once more, and halving once more, what has been doubled or halved k times. */
  lemma OnceMore(p: nat, k: nat, hi: nat, lo: nat)
    ensures p * Pow2(k) >= 0 && p * Pow2(k + 1) >= 0
    ensures Min(Min(p * Pow2(k), hi) * 2, hi) == Min(p * Pow2(k + 1), hi)
    ensures Max(Max(p / Pow2(k), lo) / 2, lo) == Max(p / Pow2(k + 1), lo)
  {
    var w := Pow2(k);
    assert Pow2(k + 1) == 2 * w;
    MulSwap(p, 2, w);
    HalfOfQuotient(p, w);
    HalfOfMax(p / w, lo);
  }

  lemma HalfOfMax(a: nat, lo: nat)
    ensures Max(Max(a, lo) / 2, lo) == Max(a / 2, lo)
  {
  }

  /** One epoch of doubling and of halving, with a turn every n epochs. */
  lemma EpochTurns(p: nat, e: nat, n: nat, hi: nat, lo: nat)
    requires e > 0 && n > 0
    ensures p * Pow2((e - 1) / n) >= 0 && p * Pow2(e / n) >= 0
    ensures var was := Min(p * Pow2((e - 1) / n), hi);
      Min(p * Pow2(e / n), hi) == if e % n == 0 then Min(was * 2, hi) else was
    ensures var was := Max(p / Pow2((e - 1) / n), lo);
      Max(p / Pow2(e / n), lo) == if e % n == 0 then Max(was / 2, lo) else was
  {
    Turns(e, n);
    OnceMore(p, (e - 1) / n, hi, lo);
  }

  /** With several processes the growing policies double the period every xAvg epochs up to the batches
      of an epoch. */
  lemma {:induction false} GrowingPeriod(c: Config, period: nat, e: nat)
    requires c.xAvg > 0 && (c.avgMethod.AvgInc? || c.avgMethod.Sawtooth?) && period <= c.bpp
    ensures period * Pow2(e / c.xAvg) >= 0
    ensures PeriodAt(c, period, e) == if Alone(c) then period else Min(period * Pow2(e / c.xAvg), c.bpp)
  {
    if e == 0 {
      DivModUnique(0, c.xAvg, 0, 0);
    } else {
      GrowingPeriod(c, period, e - 1);
      NextEpoch(c, period, e);
      EpochTurns(period, e, c.xAvg, c.bpp, 0);
    }
  }

  /** The shrinking policy halves it every xAvg epochs down to the configured one, if there are several
      processes. */
  lemma {:induction false} ShrinkingPeriod(c: Config, period: nat, e: nat)
    requires c.xAvg > 0 && c.avgMethod.NegSawtooth? && period >= c.mpiAvg
    ensures PeriodAt(c, period, e) == if Alone(c) then period else Max(period / Pow2(e / c.xAvg), c.mpiAvg)
  {
    if e == 0 {
      DivModUnique(0, c.xAvg, 0, 0);
    } else {
      ShrinkingPeriod(c, period, e - 1);
      NextEpoch(c, period, e);
      EpochTurns(period, e, c.xAvg, 0, c.mpiAvg);
    }
  }

  // ---------------------------------------------------------------- averaging

  /** v added up n times. */
  function Times(n: nat, v: real): real {
    if n == 0 then 0.0 else Times(n - 1, v) + v
  }

  lemma {:induction false} TimesIsProduct(n: nat, v: real)
    ensures Times(n, v) == n as real * v
  {
    if n > 0 {
      TimesIsProduct(n - 1, v);
      var m := (n - 1) as real;
      calc {
        n as real * v;
        (m + 1.0) * v;
        m * v + v;
      }
    }
  }

  lemma TimesShare(n: nat, v: real, share: real)
    requires n > 0 && share == v / n as real
    ensures Times(n, share) == v
  {
    TimesIsProduct(n, share);
  }

  lemma ShareOfTimes(n: nat, v: real)
    requires n > 0
    ensures Times(n, v) / n as real == v
  {
    TimesIsProduct(n, v);
  }

  lemma {:induction false} TotalOfEqual(s: State, k: nat, x: nat, v: real)
    requires forall p {:trigger s[p]} :: 0 <= p < |s| ==>
      k < |s[p].weights| && x < |s[p].weights[k]| && s[p].weights[k][x] == v
    ensures Total(s, k, x) == Times(|s|, v)
  {
    if s != [] { TotalOfEqual(s[..|s| - 1], k, x, v); }
  }

  lemma ReduceIs(c: Config, period: nat, s: State, t: State, k: nat)
    requires Ok(c) && period > 0 && Reachable(c, period, s) && CollectiveStep(c, s, t)
    requires s[0].place.Sync? && s[0].place.k == k
    ensures k < |c.sizes| && AllShaped(c, t)
    ensures forall p {:trigger t[p]} :: 0 <= p < |t| ==> t[p].weights == s[p].weights[k := Average(c, s, k)]
  {
    ReachableInv(c, period, s);
    WaitingTogether(c, s);
    assert WellPlaced(c, s[0]);
    forall p | 0 <= p < |t| ensures Shaped(c, t[p].weights) && t[p].weights == s[p].weights[k := Average(c, s, k)] {
      ReducedIs(c, s, p, k, t[p]);
    }
  }

  lemma ReducedIs(c: Config, s: State, p: nat, k: nat, b: Proc)
    requires p < |s| && k < |c.sizes| && AllShaped(c, s) && Effect(c, s, p, ReduceWeight(k), b)
    ensures Shaped(c, b.weights) && b.weights == s[p].weights[k := Average(c, s, k)]
  {
    assert Shaped(c, s[p].weights);
  }

  /** Averaging keeps the sum over all processes of every element. */
  lemma AveragingConserves(c: Config, period: nat, s: State, t: State, k: nat, x: nat)
    requires Ok(c) && period > 0 && Reachable(c, period, s)
    requires CollectiveStep(c, s, t) && s[0].place.Sync? && s[0].place.k == k
    requires k < |c.sizes| && x < c.sizes[k]
    ensures AllShaped(c, t) && Total(t, k, x) == Total(s, k, x)
  {
    ReduceIs(c, period, s, t, k);
    var avg := Average(c, s, k);
    forall p | 0 <= p < |t| ensures k < |t[p].weights| && t[p].weights[k] == avg {
      assert t[p].weights == s[p].weights[k := avg] && Shaped(c, s[p].weights);
    }
    TotalOfAverage(c, s, t, k, x);
  }

  lemma TotalOfAverage(c: Config, s: State, t: State, k: nat, x: nat)
    requires |t| == |s| > 0 && k < |c.sizes| && x < c.sizes[k] && AllShaped(c, s)
    requires forall p :: 0 <= p < |t| ==>
      k < |t[p].weights| && x < |t[p].weights[k]| && t[p].weights[k][x] == Average(c, s, k)[x]
    ensures Total(t, k, x) == Total(s, k, x)
  {
    var v := Average(c, s, k)[x];
    TotalOfEqual(t, k, x, v);
    TimesShare(|s|, Total(s, k, x), v);
  }

  /** Two processes get half their sum. */
  lemma AverageOfTwo(c: Config, s: State, k: nat, x: nat)
    requires |s| == 2 && k < |c.sizes| && AllShaped(c, s) && x < c.sizes[k]
    ensures k < |s[0].weights| && k < |s[1].weights| && x < |s[0].weights[k]| && x < |s[1].weights[k]|
    ensures Average(c, s, k)[x] == (s[0].weights[k][x] + s[1].weights[k][x]) / 2.0
  {
    assert Shaped(c, s[0].weights) && Shaped(c, s[1].weights);
    assert s[..2] == s && s[..1][..0] == [];
    assert Total(s[..1], k, x) == s[0].weights[k][x];
  }

  /** Averaging changes nothing when the processes already agree. */
  lemma AveragingIsIdempotent(c: Config, s: State, k: nat)
    requires |s| > 0 && k < |c.sizes| && AllShaped(c, s)
    requires forall p {:trigger s[p]} :: 0 <= p < |s| ==> s[p].weights[k] == s[0].weights[k]
    ensures Average(c, s, k) == s[0].weights[k]
  {
    var v := s[0].weights[k];
    forall y | 0 <= y < c.sizes[k] ensures Average(c, s, k)[y] == v[y] {
      TotalOfEqual(s, k, y, v[y]);
      ShareOfTimes(|s|, v[y]);
    }
  }

  // ---------------------------------------------------------------- the loops of one process

  /** A layer as the averaging sees it: the element counts of its trainable parameters. */
  datatype LayerParams = LayerParams(trainable: bool, sizes: seq<nat>)

  function NonEmpty(sizes: seq<nat>): seq<nat> {
    if sizes == [] then []
    else NonEmpty(sizes[..|sizes| - 1]) + if sizes[|sizes| - 1] != 0 then [sizes[|sizes| - 1]] else []
  }

  /** Config.sizes of a network. */
  function SyncSizes(layers: seq<LayerParams>): seq<nat> {
    if layers == [] then []
    else
      var last := layers[|layers| - 1];
      SyncSizes(layers[..|layers| - 1]) + if last.trainable then NonEmpty(last.sizes) else []
  }

  /** The parameters of layer i that are averaged, if it is trainable, and those of all layers. */
  ghost function Params(i: nat, sizes: seq<nat>): set<(nat, nat)> {
    set j: nat | j < |sizes| && sizes[j] > 0 :: (i, j)
  }

  ghost function AllParams(layers: seq<LayerParams>): set<(nat, nat)> {
    set i: nat, j: nat |
      i < |layers| && layers[i].trainable && j < |layers[i].sizes| && layers[i].sizes[j] > 0 :: (i, j)
  }

  lemma {:induction false} NonEmptyCounts(i: nat, sizes: seq<nat>)
    ensures |Params(i, sizes)| == |NonEmpty(sizes)|
  {
    if sizes != [] {
      var n := |sizes| - 1;
      NonEmptyCounts(i, sizes[..n]);
      var before := Params(i, sizes[..n]);
      assert (i, n) !in before;
      assert Params(i, sizes) == before + if sizes[n] > 0 then {(i, n)} else {};
    }
  }

  /** One size is listed for every parameter of a trainable layer that is not empty. */
  lemma {:induction false} SyncSizesCount(layers: seq<LayerParams>)
    ensures |SyncSizes(layers)| == |AllParams(layers)|
  {
    if layers != [] {
      var n := |layers| - 1;
      SyncSizesCount(layers[..n]);
      NonEmptyCounts(n, layers[n].sizes);
      var before, last := AllParams(layers[..n]), if layers[n].trainable then Params(n, layers[n].sizes) else {};
      forall x | x in before ensures x !in last {
      }
      assert AllParams(layers) == before + last;
    }
  }

  function Reductions(n: nat): seq<Call> { seq(n, k requires 0 <= k < n => ReduceWeight(k)) }

  /** The collectives a synchronisation passes through in the state machine. */
  function PlacesFrom(c: Config, p: Place): (r: seq<Call>)
    requires p.Sync? && p.k < |c.sizes|
    decreases |c.sizes| - p.k
  {
    [CallOf(p)] + if p.k + 1 < |c.sizes| then PlacesFrom(c, AfterCall(c, p)) else []
  }

  lemma {:induction false} PlacesAre(c: Config, p: Place)
    requires p.Sync? && p.k < |c.sizes|
    ensures PlacesFrom(c, p) == Reductions(|c.sizes|)[p.k..]
    decreases |c.sizes| - p.k
  {
    if p.k + 1 < |c.sizes| { PlacesAre(c, AfterCall(c, p)); }
  }

  /** The state machine's synchronisation makes the calls of the loop over layers below. */
  lemma SyncFollowsLoop(c: Config, layers: seq<LayerParams>, e: nat, j: nat, period: nat)
    requires period > 0 && c.sizes == SyncSizes(layers)
    ensures AfterTrain(c, e, j, period).Sync? <==> !Alone(c) && Due(j + 1, period, c.bpp) && SyncSizes(layers) != []
    ensures AfterTrain(c, e, j, period).Sync? ==>
      AfterTrain(c, e, j, period).k < |c.sizes|
        && PlacesFrom(c, AfterTrain(c, e, j, period)) == Reductions(|SyncSizes(layers)|)
  {
    if AfterTrain(c, e, j, period).Sync? { PlacesAre(c, AfterTrain(c, e, j, period)); }
  }

  /** avg_CPU_weights_distributed: the all-reduce calls it makes. */
  method AvgCpuWeights(layers: seq<LayerParams>, curr: nat, bpp: nat, period: nat) returns (calls: seq<Call>)
    requires period > 0
    ensures calls == if Due(curr, period, bpp) then Reductions(|SyncSizes(layers)|) else []
    ensures |calls| == if curr % period == 0 || curr == bpp then |AllParams(layers)| else 0
    ensures forall k :: 0 <= k < |calls| ==> calls[k] == ReduceWeight(k)
  {
    SyncSizesCount(layers);
    calls := [];
    if curr % period == 0 || curr == bpp {
      for i := 0 to |layers|
        invariant calls == Reductions(|SyncSizes(layers[..i])|)
      {
        assert layers[..i + 1][..i] == layers[..i];
        if layers[i].trainable {
          var sizes := layers[i].sizes;
          for j := 0 to |sizes|
            invariant calls == Reductions(|SyncSizes(layers[..i])| + |NonEmpty(sizes[..j])|)
          {
            assert sizes[..j + 1][..j] == sizes[..j];
            if sizes[j] != 0 {
              calls := calls + [ReduceWeight(|calls|)];
            }
          }
          assert sizes[..|sizes|] == sizes;
        }
      }
      assert layers[..|layers|] == layers;
    }
  }

  /** avg_weights_distributed on the CPU, which does nothing in a process that is alone. */
  method AvgWeights(procs: nat, layers: seq<LayerParams>, curr: nat, bpp: nat, period: nat) returns (calls: seq<Call>)
    requires period > 0
    ensures calls == if procs != 1 && Due(curr, period, bpp) then Reductions(|SyncSizes(layers)|) else []
  {
    calls := [];
    if procs == 1 { return; }
    calls := AvgCpuWeights(layers, curr, bpp, period);
  }

  /** The averaging variables of one process. */
  class Averager {
    const c: Config
    const id: nat
    var batchesAvg: nat
    var secsPrev: real

    constructor (c: Config, id: nat, batchesAvg: nat)
      ensures this.c == c && this.id == id && this.batchesAvg == batchesAvg
    {
      this.c, this.id, this.batchesAvg, secsPrev := c, id, batchesAvg, 10000000000.0;
    }

    /** What AUTO_TIME does at a turn. */
    method Adapt(secs: real)
      requires secs > 0.0
      modifies this
      ensures var ratio, p := old(secsPrev) / secs, old(batchesAvg);
        && (ratio > 1.10 || ratio < 0.97 ==> batchesAvg == if 2 * p <= c.bpp then 2 * p else c.bpp)
        && (0.97 <= ratio <= 1.10 ==> batchesAvg == if p - p / 4 >= c.mpiAvg then p - p / 4 else c.mpiAvg)
        && (ratio < 0.97 ==> secsPrev == secs)
        && (ratio >= 0.97 ==> secsPrev == if secs < old(secsPrev) then secs else old(secsPrev))
    {
      SpeedUpCompared(secsPrev, secs);
      if Faster(secsPrev, secs) {
        if secs < secsPrev { secsPrev := secs; }
        batchesAvg := Min(batchesAvg * 2, c.bpp);
      } else if Slower(secsPrev, secs) {
        secsPrev := secs;
        batchesAvg := Min(batchesAvg * 2, c.bpp);
      } else {
        if secs < secsPrev { secsPrev := secs; }
        batchesAvg := Max(batchesAvg - batchesAvg / 4, c.mpiAvg);
      }
    }

    /** update_batch_avg_distributed up to its broadcast; wanted plays no part here. */
    method UpdateBatchAvg(epoch: nat, secs: real, ghost wanted: int)
      requires c.xAvg > 0 && secs > 0.0 && !c.avgMethod.LimitOverhead?
      modifies this
      ensures c.procs == 1 || id > 0 || (epoch + 1) % c.xAvg != 0 || c.avgMethod == Fixed ==>
        batchesAvg == old(batchesAvg) && secsPrev == old(secsPrev)
      ensures c.procs != 1 && id == 0 ==>
        Policy(c, epoch, secs, wanted, old(batchesAvg), old(secsPrev), batchesAvg, secsPrev)
      ensures id == 0 ==>
        Pace(batchesAvg, secsPrev) == NextPeriod(c, epoch, old(batchesAvg), old(secsPrev), secs, wanted)
      ensures c.mpiAvg <= old(batchesAvg) <= c.bpp ==> c.mpiAvg <= batchesAvg <= c.bpp
    {
      NextPeriodBounds(c, epoch, batchesAvg, secsPrev, secs, wanted);
      if c.procs == 1 { return; }
      if id == 0 { Decide(epoch, secs, wanted); }
    }

    /** What process 0 of several does. */
    method Decide(epoch: nat, secs: real, ghost wanted: int)
      requires c.xAvg > 0 && secs > 0.0 && !c.avgMethod.LimitOverhead? && c.procs != 1
      modifies this
      ensures Policy(c, epoch, secs, wanted, old(batchesAvg), old(secsPrev), batchesAvg, secsPrev)
      ensures Pace(batchesAvg, secsPrev) == NextPeriod(c, epoch, old(batchesAvg), old(secsPrev), secs, wanted)
    {
      ghost var p, prev := batchesAvg, secsPrev;
      if (epoch + 1) % c.xAvg == 0 {
        match c.avgMethod
        case AvgInc => batchesAvg := Min(batchesAvg * 2, c.bpp);
        case Sawtooth => batchesAvg := Min(batchesAvg * 2, c.bpp);
        case NegSawtooth => batchesAvg := Max(batchesAvg / 2, c.mpiAvg);
        case AutoTime => Adapt(secs);
        case Fixed =>
        case LimitOverhead =>
      }
      NextPeriodIsPolicy(c, epoch, secs, wanted, p, prev);
      PolicyDecides(c, epoch, secs, wanted, p, prev, Pace(batchesAvg, secsPrev),
        NextPeriod(c, epoch, p, prev, secs, wanted));
    }

    /** set_batch_avg_overhead_distributed up to its broadcast, once it has rounded the period that would
        limit the overhead. */
    method LimitTo(wanted: int)
      modifies this`batchesAvg
      ensures c.procs > 1 && id == 0 && c.avgMethod == LimitOverhead ==>
        batchesAvg == if wanted >= c.bpp then c.bpp else if wanted >= 1 then wanted else 1
      ensures c.procs == 1 || id > 0 || c.avgMethod != LimitOverhead ==> batchesAvg == old(batchesAvg)
    {
      if c.procs == 1 { return; }
      if c.avgMethod == LimitOverhead && id == 0 {
        if wanted < c.bpp {
          batchesAvg := Max(1, wanted);
        } else {
          batchesAvg := c.bpp;
        }
      }
    }
  }
}
