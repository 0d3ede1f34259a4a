/** The threaded data generator: producer threads and one consumer around a ring buffer, two
    counting semaphores and a mutex.  Every semaphore operation is one step of its thread. */
module DataGenerator {
  import opened Arithmetic
  import opened Sequences
  import opened Wrappers

  // ---------------------------------------------------------------- threads and shared state

  /** Where a producer thread stands in its loop. */
  datatype Stage =
    | WaitSlot              // sem_wait(llenar)
    | WaitClaim             // sem_wait(dmutex)
    | Claim                 // takes ds_ptr and ptr_in, or decides to stop
    | LeaveClaim(run: bool) // sem_post(dmutex)
    | Load                  // loadXY into the claimed slot
    | WaitCount             // sem_wait(dmutex)
    | Count                 // total_produced, buffer_count
    | LeaveCount            // sem_post(dmutex)
    | Signal                // sem_post(vaciar)
    | Exited

  datatype Producer = Producer(stage: Stage, ptr: nat, idx: nat)

  /** Where the consumer stands in get_batch. */
  datatype Call =
    | Idle        // sem_wait(vaciar)
    | Copy        // copies the slot at ptr_out
    | Advance     // moves ptr_out
    | WaitTake    // sem_wait(dmutex)
    | Take        // total_consumed, buffer_count
    | LeaveTake   // sem_post(dmutex)
    | Release     // sem_post(llenar)

  datatype Config = Config(bufferSize: nat, threads: nat, nbpp: nat, calls: nat)

  /** A slot holds the index its batch was loaded for; `out` lists what the calls returned. */
  datatype State = State(
    llenar: nat, vaciar: nat, dmutex: nat,
    ptrIn: nat, ptrOut: nat, dsPtr: nat,
    bufferCount: int, totalProduced: nat, totalConsumed: nat,
    producers: seq<Producer>, call: Call, done: nat,
    buffer: seq<Option<nat>>, out: seq<Option<nat>>,
    claims: seq<nat>)

  function Init(c: Config): State {
    State(c.bufferSize, 0, 1, 0, 0, 0, 0, 0, 0,
      seq(c.threads, _ => Producer(WaitSlot, 0, 0)), Idle, 0,
      seq(c.bufferSize, _ => None), [], [])
  }

  /** The next step of producer i, if its thread is not blocked or finished. */
  function ProducerStep(c: Config, s: State, i: nat): Option<State> {
    if i >= |s.producers| then None
    else
      var p := s.producers[i];
      match p.stage
      case WaitSlot =>
        if s.llenar == 0 then None
        else Some(s.(llenar := s.llenar - 1, producers := s.producers[i := p.(stage := WaitClaim)]))
      case WaitClaim =>
        if s.dmutex == 0 then None
        else Some(s.(dmutex := s.dmutex - 1, producers := s.producers[i := p.(stage := Claim)]))
      case Claim =>
        if s.dsPtr < c.nbpp && c.bufferSize > 0 then
          Some(s.(dsPtr := s.dsPtr + 1, ptrIn := (s.ptrIn + 1) % c.bufferSize, claims := s.claims + [s.dsPtr],
                  producers := s.producers[i := Producer(LeaveClaim(true), s.ptrIn, s.dsPtr)]))
        else Some(s.(producers := s.producers[i := p.(stage := LeaveClaim(false))]))
      case LeaveClaim(run) =>
        Some(s.(dmutex := s.dmutex + 1, producers := s.producers[i := p.(stage := if run then Load else Exited)]))
      case Load =>
        var buffer := if p.ptr < |s.buffer| then s.buffer[p.ptr := Some(p.idx)] else s.buffer;
        Some(s.(buffer := buffer, producers := s.producers[i := p.(stage := WaitCount)]))
      case WaitCount =>
        if s.dmutex == 0 then None
        else Some(s.(dmutex := s.dmutex - 1, producers := s.producers[i := p.(stage := Count)]))
      case Count =>
        Some(s.(totalProduced := s.totalProduced + 1, bufferCount := s.bufferCount + 1,
                producers := s.producers[i := p.(stage := LeaveCount)]))
      case LeaveCount =>
        Some(s.(dmutex := s.dmutex + 1, producers := s.producers[i := p.(stage := Signal)]))
      case Signal =>
        Some(s.(vaciar := s.vaciar + 1, producers := s.producers[i := p.(stage := WaitSlot)]))
      case Exited => None
  }

  /** The next step of the consumer, which makes c.calls calls. */
  function ConsumerStep(c: Config, s: State): Option<State> {
    match s.call
    case Idle =>
      if s.done == c.calls || s.vaciar == 0 then None
      else Some(s.(vaciar := s.vaciar - 1, call := Copy))
    case Copy =>
      Some(s.(out := s.out + [if s.ptrOut < |s.buffer| then s.buffer[s.ptrOut] else None], call := Advance))
    case Advance =>
      Some(s.(ptrOut := if s.ptrOut + 1 >= c.bufferSize then 0 else s.ptrOut + 1, call := WaitTake))
    case WaitTake =>
      if s.dmutex == 0 then None else Some(s.(dmutex := s.dmutex - 1, call := Take))
    case Take =>
      Some(s.(totalConsumed := s.totalConsumed + 1, bufferCount := s.bufferCount - 1, call := LeaveTake))
    case LeaveTake =>
      Some(s.(dmutex := s.dmutex + 1, call := Release))
    case Release =>
      Some(s.(llenar := s.llenar + 1, call := Idle, done := s.done + 1))
  }

  datatype Actor = Thread(i: nat) | Consumer

  function Step(c: Config, s: State, a: Actor): Option<State> {
    match a
    case Thread(i) => ProducerStep(c, s, i)
    case Consumer => ConsumerStep(c, s)
  }

  /** The state after the given interleaving, if no actor in it was blocked. */
  function Run(c: Config, acts: seq<Actor>): Option<State> {
    if acts == [] then Some(Init(c))
    else
      var before := Run(c, acts[..|acts| - 1]);
      if before.None? then None else Step(c, before.value, acts[|acts| - 1])
  }

  ghost predicate Reachable(c: Config, s: State) {
    exists acts :: Run(c, acts) == Some(s)
  }

  ghost predicate Stuck(c: Config, s: State) {
    forall a :: Step(c, s, a).None?
  }

  // ---------------------------------------------------------------- counting threads

  function Sum(ps: seq<Producer>, w: Producer -> nat): nat {
    if ps == [] then 0 else Sum(ps[..|ps| - 1], w) + w(ps[|ps| - 1])
  }

  lemma {:induction false} SumUpdate(ps: seq<Producer>, i: nat, p: Producer, w: Producer -> nat)
    requires i < |ps|
    ensures Sum(ps[i := p], w) + w(ps[i]) == Sum(ps, w) + w(p)
  {
    var last := |ps| - 1;
    if i < last {
      SumUpdate(ps[..last], i, p, w);
      assert ps[i := p][..last] == ps[..last][i := p];
    } else {
      assert ps[i := p][..last] == ps[..last];
    }
  }

  lemma {:induction false} SumBound(ps: seq<Producer>, w: Producer -> nat, v: Producer -> nat)
    requires forall p :: w(p) <= v(p)
    ensures Sum(ps, w) <= Sum(ps, v)
  {
    if ps != [] { SumBound(ps[..|ps| - 1], w, v); }
  }

  lemma {:induction false} SumAtLeast(ps: seq<Producer>, i: nat, w: Producer -> nat)
    requires i < |ps|
    ensures w(ps[i]) <= Sum(ps, w)
  {
    if i < |ps| - 1 { SumAtLeast(ps[..|ps| - 1], i, w); }
  }

  lemma {:induction false} SumZero(ps: seq<Producer>, w: Producer -> nat)
    requires forall i :: 0 <= i < |ps| ==> w(ps[i]) == 0
    ensures Sum(ps, w) == 0
  {
    if ps != [] { SumZero(ps[..|ps| - 1], w); }
  }

  lemma {:induction false} SumUnit(ps: seq<Producer>, w: Producer -> nat)
    requires forall p :: w(p) <= 1
    ensures Sum(ps, w) <= |ps|
  {
    if ps != [] { SumUnit(ps[..|ps| - 1], w); }
  }

  /** The thread has passed sem_wait(llenar) and not yet given the slot on. */
  function Token(p: Producer): nat { if p.stage.WaitSlot? then 0 else 1 }

  function Critical(p: Producer): nat {
    if p.stage.Claim? || p.stage.LeaveClaim? || p.stage.Count? || p.stage.LeaveCount? then 1 else 0
  }

  /** The thread has claimed an index whose batch is not yet offered to the consumer. */
  function InFlight(p: Producer): nat {
    if p.stage == LeaveClaim(true) || p.stage.Load? || p.stage.WaitCount?
      || p.stage.Count? || p.stage.LeaveCount? || p.stage.Signal?
    then 1 else 0
  }

  function Uncounted(p: Producer): nat {
    if p.stage == LeaveClaim(true) || p.stage.Load? || p.stage.WaitCount? || p.stage.Count? then 1 else 0
  }

  function Stopped(p: Producer): nat {
    if p.stage == LeaveClaim(false) || p.stage.Exited? then 1 else 0
  }

  /** Steps the thread may still take without claiming again, and a bit. */
  function Work(p: Producer): nat {
    match p.stage
    case WaitSlot => 4
    case WaitClaim => 3
    case Claim => 2
    case LeaveClaim(run) => if run then 11 else 1
    case Load => 10
    case WaitCount => 9
    case Count => 8
    case LeaveCount => 7
    case Signal => 6
    case Exited => 0
  }

  function CallProgress(k: Call): nat {
    match k
    case Idle => 0 case Copy => 1 case Advance => 2 case WaitTake => 3
    case Take => 4 case LeaveTake => 5 case Release => 6
  }

  function CallToken(k: Call): nat { if k.Idle? then 0 else 1 }

  function CallCritical(k: Call): nat { if k.Take? || k.LeaveTake? then 1 else 0 }

  function CallCounted(k: Call): nat { if k.LeaveTake? || k.Release? then 1 else 0 }

  function CallCopied(k: Call): nat { if k.Idle? || k.Copy? then 0 else 1 }

  function CallAdvanced(k: Call): nat { if k.Idle? || k.Copy? || k.Advance? then 0 else 1 }

  /** Every slot is free, offered, or held by a thread or by the consumer. */
  ghost predicate Slots(c: Config, s: State) {
    && |s.producers| == c.threads && |s.buffer| == c.bufferSize
    && s.llenar + s.vaciar + Sum(s.producers, Token) + CallToken(s.call) == c.bufferSize
  }

  ghost predicate Exclusive(s: State) {
    s.dmutex + Sum(s.producers, Critical) + CallCritical(s.call) == 1
  }

  /** Every claimed index is in flight, offered, being consumed or consumed; indices are claimed
      once each, in order, and threads stop only when none is left. */
  ghost predicate Claims(c: Config, s: State) {
    && s.dsPtr == Sum(s.producers, InFlight) + s.vaciar + CallToken(s.call) + s.done
    && s.dsPtr <= c.nbpp && s.done + CallToken(s.call) <= c.calls
    && (Sum(s.producers, Stopped) > 0 ==> s.dsPtr == c.nbpp)
    && InOrder(s)
  }

  ghost predicate InOrder(s: State) {
    |s.claims| == s.dsPtr && forall k :: 0 <= k < |s.claims| ==> s.claims[k] == k
  }

  ghost predicate Counters(s: State) {
    && s.totalProduced + Sum(s.producers, Uncounted) == s.dsPtr
    && s.totalConsumed == s.done + CallCounted(s.call)
    && s.bufferCount == s.totalProduced - s.totalConsumed
  }

  ghost predicate Pointers(c: Config, s: State) {
    && |s.out| == s.done + CallCopied(s.call)
    && (c.bufferSize > 0 ==>
          && s.ptrIn == s.dsPtr % c.bufferSize
          && s.ptrOut == (s.done + CallAdvanced(s.call)) % c.bufferSize)
  }

  /** What holds in every reachable state, for any number of threads. */
  ghost predicate Inv(c: Config, s: State) {
    Slots(c, s) && Exclusive(s) && Claims(c, s) && Counters(s) && Pointers(c, s)
  }

  lemma InitInv(c: Config)
    ensures Inv(c, Init(c))
  {
    var ps := Init(c).producers;
    SumZero(ps, Token);
    SumZero(ps, Critical);
    SumZero(ps, InFlight);
    SumZero(ps, Uncounted);
    SumZero(ps, Stopped);
  }

  lemma ProducerMoves(c: Config, s: State, i: nat, w: Producer -> nat) returns (p: Producer)
    requires ProducerStep(c, s, i).Some?
    ensures i < |s.producers| && ProducerStep(c, s, i).value.producers == s.producers[i := p]
    ensures p == ProducerStep(c, s, i).value.producers[i]
    ensures Sum(ProducerStep(c, s, i).value.producers, w) + w(s.producers[i]) == Sum(s.producers, w) + w(p)
    ensures w(s.producers[i]) <= Sum(s.producers, w)
  {
    var t := ProducerStep(c, s, i).value;
    p := t.producers[i];
    assert t.producers == s.producers[i := p];
    SumUpdate(s.producers, i, p, w);
    SumAtLeast(s.producers, i, w);
  }

  lemma ProducerSlots(c: Config, s: State, i: nat)
    requires Slots(c, s) && ProducerStep(c, s, i).Some?
    ensures Slots(c, ProducerStep(c, s, i).value)
  {
    var p := ProducerMoves(c, s, i, Token);
  }

  lemma ProducerExclusive(c: Config, s: State, i: nat)
    requires Exclusive(s) && ProducerStep(c, s, i).Some?
    ensures Exclusive(ProducerStep(c, s, i).value)
  {
    var p := ProducerMoves(c, s, i, Critical);
  }

  lemma ProducerInOrder(c: Config, s: State, i: nat)
    requires InOrder(s) && ProducerStep(c, s, i).Some?
    ensures InOrder(ProducerStep(c, s, i).value)
  {
  }

  lemma ProducerClaims(c: Config, s: State, i: nat)
    requires Slots(c, s) && Claims(c, s) && ProducerStep(c, s, i).Some?
    ensures Claims(c, ProducerStep(c, s, i).value)
  {
    var t := ProducerMoves(c, s, i, Token);
    var f := ProducerMoves(c, s, i, InFlight);
    var x := ProducerMoves(c, s, i, Stopped);
    ProducerInOrder(c, s, i);
  }

  lemma ProducerCounters(c: Config, s: State, i: nat)
    requires Slots(c, s) && Counters(s) && ProducerStep(c, s, i).Some?
    ensures Counters(ProducerStep(c, s, i).value)
  {
    var u := ProducerMoves(c, s, i, Uncounted);
  }

  lemma ProducerPointers(c: Config, s: State, i: nat)
    requires Pointers(c, s) && ProducerStep(c, s, i).Some?
    ensures Pointers(c, ProducerStep(c, s, i).value)
  {
    if c.bufferSize > 0 { NextMod(s.dsPtr, c.bufferSize); }
  }

  lemma ConsumerPointers(c: Config, s: State)
    requires Pointers(c, s) && ConsumerStep(c, s).Some?
    ensures Pointers(c, ConsumerStep(c, s).value)
  {
    if c.bufferSize > 0 { NextMod(s.done + CallAdvanced(s.call), c.bufferSize); }
  }

  lemma ConsumerClaims(c: Config, s: State)
    requires Claims(c, s) && ConsumerStep(c, s).Some?
    ensures Claims(c, ConsumerStep(c, s).value)
  {
  }

  lemma ConsumerSlots(c: Config, s: State)
    requires Slots(c, s) && Exclusive(s) && ConsumerStep(c, s).Some?
    ensures Slots(c, ConsumerStep(c, s).value) && Exclusive(ConsumerStep(c, s).value)
  {
  }

  lemma ConsumerCounters(c: Config, s: State)
    requires Counters(s) && ConsumerStep(c, s).Some?
    ensures Counters(ConsumerStep(c, s).value)
  {
  }

  lemma ConsumerInv(c: Config, s: State)
    requires Inv(c, s) && ConsumerStep(c, s).Some?
    ensures Inv(c, ConsumerStep(c, s).value)
  {
    ConsumerSlots(c, s);
    ConsumerCounters(c, s);
    ConsumerPointers(c, s);
    ConsumerClaims(c, s);
  }

  lemma StepInv(c: Config, s: State, a: Actor)
    requires Inv(c, s) && Step(c, s, a).Some?
    ensures Inv(c, Step(c, s, a).value)
  {
    match a
    case Thread(i) =>
      ProducerSlots(c, s, i);
      ProducerExclusive(c, s, i);
      ProducerClaims(c, s, i);
      ProducerCounters(c, s, i);
      ProducerPointers(c, s, i);
    case Consumer => ConsumerInv(c, s);
  }

  lemma {:induction false} RunInv(c: Config, acts: seq<Actor>)
    requires Run(c, acts).Some?
    ensures Inv(c, Run(c, acts).value)
  {
    if acts == [] {
      InitInv(c);
    } else {
      RunInv(c, acts[..|acts| - 1]);
      StepInv(c, Run(c, acts[..|acts| - 1]).value, acts[|acts| - 1]);
    }
  }

  /** Thread i is between sem_wait(dmutex) and sem_post(dmutex), and so is the consumer. */
  ghost predicate Holds(s: State, i: nat)
    requires i < |s.producers|
  {
    var g := s.producers[i].stage;
    g.Claim? || g.LeaveClaim? || g.Count? || g.LeaveCount?
  }

  ghost predicate ConsumerHolds(s: State) { s.call.Take? || s.call.LeaveTake? }

  lemma {:induction false} OneCritical(ps: seq<Producer>, i: nat, j: nat)
    requires i < j < |ps| && Critical(ps[i]) == 1 && Critical(ps[j]) == 1
    ensures Sum(ps, Critical) >= 2
  {
    var last := |ps| - 1;
    if j < last {
      OneCritical(ps[..last], i, j);
    } else {
      SumAtLeast(ps[..last], i, Critical);
    }
  }

  /** At most one thread, counting the consumer, is inside a critical section, and the mutex is taken
      exactly when one is. */
  ghost predicate OneInside(s: State) {
    && (forall i, j :: 0 <= i < j < |s.producers| ==> !(Holds(s, i) && Holds(s, j)))
    && (forall i :: 0 <= i < |s.producers| ==> !(Holds(s, i) && ConsumerHolds(s)))
    && (s.dmutex == 0 <==> ConsumerHolds(s) || exists i :: 0 <= i < |s.producers| && Holds(s, i))
    && s.dmutex <= 1
  }

  lemma MutualExclusion(c: Config, s: State)
    requires Reachable(c, s)
    ensures OneInside(s)
  {
    var acts :| Run(c, acts) == Some(s);
    RunInv(c, acts);
    ExclusiveMeans(s);
  }

  lemma ExclusiveMeans(s: State)
    requires Exclusive(s)
    ensures OneInside(s)
  {
    forall i, j | 0 <= i < j < |s.producers| ensures !(Holds(s, i) && Holds(s, j)) {
      if Holds(s, i) && Holds(s, j) { OneCritical(s.producers, i, j); }
    }
    forall i | 0 <= i < |s.producers| ensures Holds(s, i) ==> !ConsumerHolds(s) && s.dmutex == 0 {
      SumAtLeast(s.producers, i, Critical);
    }
    if forall i :: 0 <= i < |s.producers| ==> !Holds(s, i) {
      forall i | 0 <= i < |s.producers| ensures Critical(s.producers[i]) == 0 {
        assert !Holds(s, i);
      }
      SumZero(s.producers, Critical);
    }
  }

  /** The threads of which w counts one. */
  ghost function Those(ps: seq<Producer>, w: Producer -> nat): set<nat> {
    set i: nat | i < |ps| && w(ps[i]) == 1
  }

  lemma {:induction false} SumIsCount(ps: seq<Producer>, w: Producer -> nat)
    requires forall p :: w(p) <= 1
    ensures Sum(ps, w) == |Those(ps, w)|
  {
    if ps != [] {
      var n := |ps| - 1;
      SumIsCount(ps[..n], w);
      assert Those(ps, w) == Those(ps[..n], w) + if w(ps[n]) == 1 then {n} else {};
    }
  }

  /** The threads that hold a slot, those with a claimed batch not offered yet, and of these those that
      have not counted it. */
  ghost function Holding(ps: seq<Producer>): set<nat> {
    set i: nat | i < |ps| && !ps[i].stage.WaitSlot?
  }

  ghost function Flying(ps: seq<Producer>): set<nat> {
    set i: nat | i < |ps| &&
      (ps[i].stage == LeaveClaim(true) || ps[i].stage.Load? || ps[i].stage.WaitCount? || ps[i].stage.Count?
       || ps[i].stage.LeaveCount? || ps[i].stage.Signal?)
  }

  ghost function Loading(ps: seq<Producer>): set<nat> {
    set i: nat | i < |ps| &&
      (ps[i].stage == LeaveClaim(true) || ps[i].stage.Load? || ps[i].stage.WaitCount? || ps[i].stage.Count?)
  }

  /** The semaphores, counters and pointers of a state, told by where its threads and its consumer stand:
      every slot is free, offered or held; every claimed index is in flight, offered, in the consumer's
      hands or consumed; a batch counts as produced, and as consumed, from one certain step on. */
  ghost predicate InNumbers(c: Config, s: State) {
    var serving := if s.call.Idle? then 0 else 1;
    && |s.producers| == c.threads && |s.buffer| == c.bufferSize
    && s.llenar + s.vaciar + |Holding(s.producers)| + serving == c.bufferSize
    && s.dsPtr == |Flying(s.producers)| + s.vaciar + serving + s.done && s.dsPtr <= c.nbpp
    && s.totalProduced == s.dsPtr - |Loading(s.producers)|
    && s.totalConsumed == s.done + (if s.call.LeaveTake? || s.call.Release? then 1 else 0)
    && s.bufferCount == s.totalProduced - s.totalConsumed
    && |s.out| == s.done + (if s.call.Idle? || s.call.Copy? then 0 else 1)
    && (c.bufferSize > 0 ==> s.ptrIn == s.dsPtr % c.bufferSize)
    && (c.bufferSize > 0 ==>
          s.ptrOut == (s.done + if s.call.Idle? || s.call.Copy? || s.call.Advance? then 0 else 1) % c.bufferSize)
  }

  lemma StateInNumbers(c: Config, s: State)
    requires Reachable(c, s)
    ensures InNumbers(c, s)
  {
    var acts :| Run(c, acts) == Some(s);
    RunInv(c, acts);
    InvInNumbers(c, s);
  }

  lemma InvInNumbers(c: Config, s: State)
    requires Inv(c, s)
    ensures InNumbers(c, s)
  {
    CountHolding(s.producers);
    CountFlying(s.producers);
    CountLoading(s.producers);
  }

  lemma CountHolding(ps: seq<Producer>)
    ensures Sum(ps, Token) == |Holding(ps)|
  {
    SumIsCount(ps, Token);
    assert Those(ps, Token) == Holding(ps);
  }

  lemma CountFlying(ps: seq<Producer>)
    ensures Sum(ps, InFlight) == |Flying(ps)|
  {
    SumIsCount(ps, InFlight);
    assert Those(ps, InFlight) == Flying(ps);
  }

  lemma CountLoading(ps: seq<Producer>)
    ensures Sum(ps, Uncounted) == |Loading(ps)|
  {
    SumIsCount(ps, Uncounted);
    assert Those(ps, Uncounted) == Loading(ps);
  }

  // ---------------------------------------------------------------- progress

  lemma {:induction false} AllIdleSums(ps: seq<Producer>)
    requires forall i :: 0 <= i < |ps| ==> ps[i].stage.WaitSlot? || ps[i].stage.Exited?
    ensures Sum(ps, InFlight) == 0 && Sum(ps, Critical) == 0
    ensures Sum(ps, Stopped) == Sum(ps, Token)
  {
    if ps != [] { AllIdleSums(ps[..|ps| - 1]); }
  }

  /** A thread inside a critical section can always take its next step. */
  lemma {:induction false} NoneInside(c: Config, s: State, ps: seq<Producer>)
    requires ps <= s.producers && forall i: nat :: ProducerStep(c, s, i).None?
    ensures Sum(ps, Critical) == 0
  {
    if ps != [] {
      NoneInside(c, s, ps[..|ps| - 1]);
      assert ProducerStep(c, s, |ps| - 1).None?;
    }
  }

  /** No deadlock: whatever the interleaving, when no thread can move every call that can be
      served has been served. */
  lemma StuckMeansDone(c: Config, s: State)
    requires Inv(c, s) && Stuck(c, s) && c.bufferSize >= 1 && c.threads >= 1
    ensures s.done == if c.calls <= c.nbpp then c.calls else c.nbpp
  {
    assert Step(c, s, Consumer).None?;
    forall i: nat ensures ProducerStep(c, s, i).None? {
      assert Step(c, s, Thread(i)).None?;
    }
    NoneInside(c, s, s.producers);
    forall i | 0 <= i < |s.producers| ensures s.producers[i].stage.WaitSlot? || s.producers[i].stage.Exited? {
      assert ProducerStep(c, s, i).None?;
    }
    AllIdleSums(s.producers);
    assert ProducerStep(c, s, 0).None?;
    if s.producers[0].stage.Exited? {
      SumAtLeast(s.producers, 0, Stopped);
    }
  }

  /** Work left: it falls with every step of every thread. */
  function Measure(c: Config, s: State): int {
    Sum(s.producers, Work) + 10 * (c.nbpp - s.dsPtr) + 7 * (c.calls - s.done) - CallProgress(s.call)
  }

  lemma ProducerDecreases(c: Config, s: State, i: nat)
    requires Slots(c, s) && ProducerStep(c, s, i).Some?
    ensures Measure(c, ProducerStep(c, s, i).value) < Measure(c, s)
  {
    var p := ProducerMoves(c, s, i, Work);
    var t := ProducerMoves(c, s, i, Token);
    WorkFalls(c, s, i);
  }

  /** A step without a claim uses up work; a claim uses up an index. */
  lemma WorkFalls(c: Config, s: State, i: nat)
    requires ProducerStep(c, s, i).Some? && (s.producers[i].stage.Claim? ==> c.bufferSize > 0)
    ensures var t := ProducerStep(c, s, i).value;
      && t.call == s.call && t.done == s.done
      && Work(t.producers[i]) + 10 * (c.nbpp - t.dsPtr) < Work(s.producers[i]) + 10 * (c.nbpp - s.dsPtr)
  {
  }

  lemma StepDecreases(c: Config, s: State, a: Actor)
    requires Inv(c, s) && Step(c, s, a).Some?
    ensures 0 <= Measure(c, Step(c, s, a).value) < Measure(c, s)
  {
    StepInv(c, s, a);
    match a
    case Thread(i) => ProducerDecreases(c, s, i);
    case Consumer => ConsumerDecreases(c, s, ConsumerStep(c, s).value);
  }

  lemma ConsumerDecreases(c: Config, s: State, t: State)
    requires Claims(c, s) && Claims(c, t) && ConsumerStep(c, s) == Some(t)
    ensures 0 <= Measure(c, t) < Measure(c, s)
  {
  }

  lemma {:induction false} SumConstant(n: nat)
    ensures Sum(seq(n, _ => Producer(WaitSlot, 0, 0)), Work) == 4 * n
  {
    if n > 0 {
      SumConstant(n - 1);
      assert seq(n, _ => Producer(WaitSlot, 0, 0))[..n - 1] == seq(n - 1, _ => Producer(WaitSlot, 0, 0));
    }
  }

  /** Every interleaving is finite, and one that cannot be extended has served every call for
      which there is a batch, after each index up to the last was claimed exactly once. */
  lemma {:induction false} RunsComplete(c: Config, acts: seq<Actor>)
    requires Run(c, acts).Some? && c.bufferSize >= 1 && c.threads >= 1
    ensures |acts| + Measure(c, Run(c, acts).value) <= 4 * c.threads + 10 * c.nbpp + 7 * c.calls
    ensures |acts| <= 4 * c.threads + 10 * c.nbpp + 7 * c.calls
    ensures Stuck(c, Run(c, acts).value) ==>
      Run(c, acts).value.done == (if c.calls <= c.nbpp then c.calls else c.nbpp)
    ensures Stuck(c, Run(c, acts).value) && c.calls >= c.nbpp ==>
      Run(c, acts).value.claims == UpTo(c.nbpp) && Run(c, acts).value.totalConsumed == c.nbpp
  {
    var s := Run(c, acts).value;
    RunInv(c, acts);
    if acts == [] {
      SumConstant(c.threads);
    } else {
      RunsComplete(c, acts[..|acts| - 1]);
      RunInv(c, acts[..|acts| - 1]);
      StepDecreases(c, Run(c, acts[..|acts| - 1]).value, acts[|acts| - 1]);
    }
    if Stuck(c, s) {
      StuckMeansDone(c, s);
      assert Step(c, s, Consumer).None?;
    }
  }

  // ---------------------------------------------------------------- delivery in order

  /** The consumer is copying the very slot a thread is loading. */
  ghost predicate Racing(s: State) {
    s.call.Copy? && exists i :: 0 <= i < |s.producers| && s.producers[i].stage.Load? && s.producers[i].ptr == s.ptrOut
  }

  /** The k-th call returned the batch loaded for the k-th claimed index. */
  ghost predicate InSequence(s: State) {
    forall k :: 0 <= k < |s.out| ==> s.out[k] == Some(k)
  }

  /** At most one batch can be in flight at a time. */
  predicate Serial(c: Config) {
    c.threads <= 1 || c.bufferSize <= 1 || c.nbpp <= 1
  }

  function Unloaded(p: Producer): nat { if p.stage == LeaveClaim(true) || p.stage.Load? then 1 else 0 }

  /** Number of indices whose batch has been loaded, when claims are served one at a time. */
  function Loaded(s: State): int { s.dsPtr - Sum(s.producers, Unloaded) }

  ghost predicate Latest(c: Config, s: State, p: Producer)
    requires c.bufferSize > 0
  {
    InFlight(p) > 0 ==> s.dsPtr > 0 && p.idx == s.dsPtr - 1 && p.ptr == (s.dsPtr - 1) % c.bufferSize
  }

  ghost predicate SerialInv(c: Config, s: State)
    requires c.bufferSize > 0
  {
    && Inv(c, s)
    && (forall i {:trigger s.producers[i]} :: 0 <= i < |s.producers| ==> Latest(c, s, s.producers[i]))
    && (forall k: nat {:trigger s.buffer[k % c.bufferSize]} :: s.done <= k < Loaded(s) ==>
        s.buffer[k % c.bufferSize] == Some(k))
    && InSequence(s)
  }

  lemma SerialBounds(c: Config, s: State)
    requires Inv(c, s)
    ensures Sum(s.producers, Unloaded) <= Sum(s.producers, InFlight) <= Sum(s.producers, Token)
    ensures s.dsPtr - s.done <= c.bufferSize && s.done + CallToken(s.call) <= Loaded(s)
    ensures Serial(c) ==> Sum(s.producers, InFlight) <= 1
  {
    SumBound(s.producers, Unloaded, InFlight);
    SumBound(s.producers, InFlight, Token);
    SumUnit(s.producers, InFlight);
  }

  lemma {:induction false} OnlyOneInFlight(ps: seq<Producer>, i: nat, j: nat)
    requires Sum(ps, InFlight) <= 1 && i < |ps| && j < |ps| && InFlight(ps[i]) > 0 && InFlight(ps[j]) > 0
    ensures i == j
  {
    var last := |ps| - 1;
    if i < last && j < last {
      OnlyOneInFlight(ps[..last], i, j);
    } else if i < last {
      SumAtLeast(ps[..last], i, InFlight);
    } else if j < last {
      SumAtLeast(ps[..last], j, InFlight);
    }
  }

  lemma LatestKept(c: Config, s: State, i: nat, j: nat)
    requires c.bufferSize > 0 && ProducerStep(c, s, i).Some? && j < |s.producers|
    requires Latest(c, s, s.producers[i]) && Latest(c, s, s.producers[j]) && s.ptrIn == s.dsPtr % c.bufferSize
    requires Sum(ProducerStep(c, s, i).value.producers, InFlight) <= 1
    ensures Latest(c, ProducerStep(c, s, i).value, ProducerStep(c, s, i).value.producers[j])
  {
    var t := ProducerStep(c, s, i).value;
    if j != i && InFlight(t.producers[i]) > 0 && InFlight(t.producers[j]) > 0 {
      OnlyOneInFlight(t.producers, i, j);
    }
  }

  lemma SerialLatest(c: Config, s: State, i: nat, j: nat)
    requires c.bufferSize > 0 && Serial(c) && SerialInv(c, s) && ProducerStep(c, s, i).Some? && j < |s.producers|
    ensures Latest(c, ProducerStep(c, s, i).value, ProducerStep(c, s, i).value.producers[j])
  {
    StepInv(c, s, Thread(i));
    SerialBounds(c, ProducerStep(c, s, i).value);
    assert Latest(c, s, s.producers[i]) && Latest(c, s, s.producers[j]);
    LatestKept(c, s, i, j);
  }

  lemma SerialBuffer(c: Config, s: State, i: nat, k: nat)
    requires c.bufferSize > 0 && Serial(c) && SerialInv(c, s) && ProducerStep(c, s, i).Some?
    requires s.done <= k < Loaded(ProducerStep(c, s, i).value)
    ensures ProducerStep(c, s, i).value.buffer[k % c.bufferSize] == Some(k)
  {
    var p := ProducerMoves(c, s, i, Unloaded);
    SerialBounds(c, s);
    assert Latest(c, s, s.producers[i]);
    if k < Loaded(s) { assert s.buffer[k % c.bufferSize] == Some(k); }
    BufferKept(c, s, i, k);
  }

  /** A load fills the slot of the latest claim and leaves the others that hold batches. */
  lemma BufferKept(c: Config, s: State, i: nat, k: nat)
    requires c.bufferSize > 0 && ProducerStep(c, s, i).Some? && |s.buffer| == c.bufferSize
    requires Latest(c, s, s.producers[i]) && s.dsPtr <= s.done + c.bufferSize && s.done <= k < s.dsPtr
    requires (s.producers[i].stage.Load? && k == s.dsPtr - 1) || s.buffer[k % c.bufferSize] == Some(k)
    ensures ProducerStep(c, s, i).value.buffer[k % c.bufferSize] == Some(k)
  {
    if s.producers[i].stage.Load? && k < s.dsPtr - 1 {
      CloseModDiffer(k, s.dsPtr - 1, c.bufferSize);
    }
  }

  lemma SerialProducer(c: Config, s: State, i: nat)
    requires c.bufferSize > 0 && Serial(c) && SerialInv(c, s) && ProducerStep(c, s, i).Some?
    ensures SerialInv(c, ProducerStep(c, s, i).value)
  {
    var t := ProducerStep(c, s, i).value;
    StepInv(c, s, Thread(i));
    assert |t.producers| == |s.producers| && t.done == s.done && t.out == s.out;
    forall j | 0 <= j < |t.producers| ensures Latest(c, t, t.producers[j]) {
      SerialLatest(c, s, i, j);
    }
    forall k: nat | s.done <= k < Loaded(t) ensures t.buffer[k % c.bufferSize] == Some(k) {
      SerialBuffer(c, s, i, k);
    }
  }

  /** A consumer step leaves what the producers see. */
  lemma ConsumerKeeps(c: Config, s: State)
    requires ConsumerStep(c, s).Some?
    ensures var t := ConsumerStep(c, s).value;
      && t.producers == s.producers && t.buffer == s.buffer && t.dsPtr == s.dsPtr && t.ptrIn == s.ptrIn
      && Loaded(t) == Loaded(s) && t.done >= s.done
  {
  }

  /** What a consumer step does to the delivered batches. */
  lemma ConsumerDelivers(c: Config, s: State)
    requires c.bufferSize > 0 && |s.buffer| == c.bufferSize && Pointers(c, s) && InSequence(s)
    requires s.call.Copy? ==> s.buffer[s.done % c.bufferSize] == Some(s.done)
    requires ConsumerStep(c, s).Some?
    ensures InSequence(ConsumerStep(c, s).value)
  {
    if s.call.Copy? {
      assert s.ptrOut == s.done % c.bufferSize && |s.out| == s.done;
    }
  }

  lemma SerialConsumer(c: Config, s: State)
    requires c.bufferSize > 0 && Serial(c) && SerialInv(c, s) && ConsumerStep(c, s).Some?
    ensures SerialInv(c, ConsumerStep(c, s).value)
  {
    StepInv(c, s, Consumer);
    SerialBounds(c, s);
    ConsumerKeeps(c, s);
    if s.call.Copy? {
      assert s.buffer[s.done % c.bufferSize] == Some(s.done);
    }
    ConsumerDelivers(c, s);
    var t := ConsumerStep(c, s).value;
    forall j | 0 <= j < |t.producers| ensures Latest(c, t, t.producers[j]) {
      assert Latest(c, s, s.producers[j]);
    }
  }

  lemma SerialStep(c: Config, s: State, a: Actor)
    requires c.bufferSize > 0 && Serial(c) && SerialInv(c, s) && Step(c, s, a).Some?
    ensures SerialInv(c, Step(c, s, a).value)
  {
    match a
    case Thread(i) => SerialProducer(c, s, i);
    case Consumer => SerialConsumer(c, s);
  }

  lemma {:induction false} SerialRun(c: Config, acts: seq<Actor>)
    requires c.bufferSize > 0 && Serial(c) && Run(c, acts).Some?
    ensures SerialInv(c, Run(c, acts).value)
  {
    if acts == [] {
      InitInv(c);
      SumZero(Init(c).producers, Unloaded);
    } else {
      SerialRun(c, acts[..|acts| - 1]);
      SerialStep(c, Run(c, acts[..|acts| - 1]).value, acts[|acts| - 1]);
    }
  }

  lemma SerialNeverRaces(c: Config, s: State)
    requires c.bufferSize > 0 && Serial(c) && SerialInv(c, s)
    ensures !Racing(s) && InSequence(s)
  {
    SerialBounds(c, s);
    forall i | 0 <= i < |s.producers| && s.producers[i].stage.Load? && s.call.Copy?
      ensures s.producers[i].ptr != s.ptrOut
    {
      assert Latest(c, s, s.producers[i]);
      SumAtLeast(s.producers, i, InFlight);
      CloseModDiffer(s.done, s.dsPtr - 1, c.bufferSize);
    }
  }

  // ---------------------------------------------------------------- refinement of a queue

  /** The batches loaded and not yet copied, oldest first, read out of the ring. */
  ghost function Queue(c: Config, s: State): seq<Option<nat>>
    requires c.bufferSize > 0 && |s.buffer| == c.bufferSize && |s.out| <= Loaded(s)
  {
    seq(Loaded(s) - |s.out|, k requires 0 <= k => s.buffer[(|s.out| + k) % c.bufferSize])
  }

  /** Batches first, first + 1, ..., next - 1. */
  function Batches(first: nat, next: nat): seq<Option<nat>>
    requires first <= next
  {
    seq(next - first, k requires 0 <= k => Some(first + k))
  }

  lemma BatchesGrow(first: nat, next: nat)
    requires first <= next
    ensures Batches(first, next + 1) == Batches(first, next) + [Some(next)]
    ensures Batches(first, next + 1)[0] == Some(first) && Batches(first, next + 1)[1..] == Batches(first + 1, next + 1)
  {
  }

  lemma QueueIs(c: Config, s: State)
    requires c.bufferSize > 0 && SerialInv(c, s)
    ensures |s.out| <= Loaded(s) && Queue(c, s) == Batches(|s.out|, Loaded(s))
  {
    SerialBounds(c, s);
    forall k | 0 <= k < |Queue(c, s)| ensures Queue(c, s)[k] == Some(|s.out| + k) {
      assert s.buffer[(|s.out| + k) % c.bufferSize] == Some(|s.out| + k);
    }
  }

  lemma LoadedMoves(c: Config, s: State, a: Actor)
    requires Slots(c, s) && Step(c, s, a).Some?
    ensures var t := Step(c, s, a).value;
      || (Loaded(t) == Loaded(s) && t.out == s.out)
      || (Loaded(t) == Loaded(s) + 1 && t.out == s.out)
      || (Loaded(t) == Loaded(s) && |t.out| == |s.out| + 1 && t.out[..|s.out|] == s.out)
  {
    match a
    case Thread(i) =>
      var p := ProducerMoves(c, s, i, Unloaded);
      var q := ProducerMoves(c, s, i, Token);
    case Consumer =>
  }

  /** The queue and the delivered batches stay, or the next batch is appended to the queue, or the
      head of the queue is delivered. */
  ghost predicate QueueStep(c: Config, s: State, t: State)
    requires c.bufferSize > 0 && |s.buffer| == c.bufferSize && |s.out| <= Loaded(s)
    requires |t.buffer| == c.bufferSize && |t.out| <= Loaded(t)
  {
    || (Queue(c, t) == Queue(c, s) && t.out == s.out)
    || (Queue(c, t) == Queue(c, s) + [Some(Loaded(s) as nat)] && t.out == s.out)
    || (Queue(c, s) != [] && Queue(c, t) == Queue(c, s)[1..] && t.out == s.out + [Queue(c, s)[0]])
  }

  lemma DeliveredNext(s: State, t: State)
    requires InSequence(t) && |t.out| == |s.out| + 1 && t.out[..|s.out|] == s.out
    ensures t.out == s.out + [Some(|s.out|)]
  {
    assert t.out[|s.out|] == Some(|s.out|);
    assert t.out == t.out[..|s.out|] + [t.out[|s.out|]];
  }

  lemma QueueMoves(c: Config, s: State, t: State)
    requires c.bufferSize > 0 && |s.buffer| == c.bufferSize && |t.buffer| == c.bufferSize
    requires |s.out| <= Loaded(s) && Queue(c, s) == Batches(|s.out|, Loaded(s))
    requires |t.out| <= Loaded(t) && Queue(c, t) == Batches(|t.out|, Loaded(t)) && InSequence(t)
    requires || (Loaded(t) == Loaded(s) && t.out == s.out)
             || (Loaded(t) == Loaded(s) + 1 && t.out == s.out)
             || (Loaded(t) == Loaded(s) && |t.out| == |s.out| + 1 && t.out[..|s.out|] == s.out)
    ensures QueueStep(c, s, t)
  {
    if Loaded(t) == Loaded(s) + 1 {
      BatchesGrow(|s.out|, Loaded(s));
    } else if |t.out| == |s.out| + 1 {
      BatchesGrow(|s.out|, Loaded(s) - 1);
      DeliveredNext(s, t);
    }
  }

  /** Each step of a serial generator leaves the queue alone, appends the next batch to it, or
      delivers its head. */
  lemma RefinesQueue(c: Config, s: State, a: Actor)
    requires c.bufferSize > 0 && Serial(c) && SerialInv(c, s) && Step(c, s, a).Some?
    ensures var t := Step(c, s, a).value;
      && |s.out| <= Loaded(s) && |t.out| <= Loaded(t) && |t.buffer| == c.bufferSize && QueueStep(c, s, t)
  {
    var t := Step(c, s, a).value;
    SerialStep(c, s, a);
    QueueIs(c, s);
    QueueIs(c, t);
    LoadedMoves(c, s, a);
    QueueMoves(c, s, t);
  }

  // ---------------------------------------------------------------- when delivery can go wrong

  lemma OneMore(c: Config, s: State, a: Actor) returns (t: State)
    requires Reachable(c, s) && Step(c, s, a).Some?
    ensures Step(c, s, a) == Some(t) && Reachable(c, t)
  {
    var acts :| Run(c, acts) == Some(s);
    t := Step(c, s, a).value;
    assert (acts + [a])[..|acts|] == acts;
    assert Run(c, acts + [a]) == Some(t);
  }

  lemma InitReachable(c: Config)
    ensures Reachable(c, Init(c))
  {
    assert Run(c, []) == Some(Init(c));
  }

  lemma ThreadEnters(c: Config, s: State, i: nat) returns (t: State)
    requires Reachable(c, s)
    requires i < |s.producers| && s.producers[i].stage.WaitSlot? && s.llenar > 0 && s.dmutex > 0
    ensures Reachable(c, t)
    ensures t == s.(llenar := s.llenar - 1, dmutex := s.dmutex - 1,
      producers := s.producers[i := s.producers[i].(stage := Claim)])
  {
    var s1 := OneMore(c, s, Thread(i));
    t := OneMore(c, s1, Thread(i));
    assert t.producers == s.producers[i := s.producers[i].(stage := Claim)];
  }

  lemma ThreadTakes(c: Config, s: State, i: nat) returns (t: State)
    requires Reachable(c, s) && c.bufferSize > 0
    requires i < |s.producers| && s.producers[i].stage.Claim? && s.dsPtr < c.nbpp
    ensures Reachable(c, t)
    ensures t == s.(dmutex := s.dmutex + 1, dsPtr := s.dsPtr + 1, ptrIn := (s.ptrIn + 1) % c.bufferSize,
                    claims := s.claims + [s.dsPtr], producers := s.producers[i := Producer(Load, s.ptrIn, s.dsPtr)])
  {
    var s1 := OneMore(c, s, Thread(i));
    t := OneMore(c, s1, Thread(i));
    assert t.producers == s.producers[i := Producer(Load, s.ptrIn, s.dsPtr)];
  }

  lemma ThreadClaims(c: Config, s: State, i: nat, slot: nat, next: nat) returns (t: State)
    requires Reachable(c, s) && c.bufferSize > 0 && slot == s.ptrIn && next == (s.ptrIn + 1) % c.bufferSize
    requires i < |s.producers| && s.producers[i].stage.WaitSlot? && s.llenar > 0 && s.dmutex > 0 && s.dsPtr < c.nbpp
    ensures Reachable(c, t)
    ensures t == s.(llenar := s.llenar - 1, dsPtr := s.dsPtr + 1, ptrIn := next, claims := s.claims + [s.dsPtr],
                    producers := s.producers[i := Producer(Load, slot, s.dsPtr)])
  {
    var q := ThreadEnters(c, s, i);
    t := ThreadTakes(c, q, i);
    assert t.producers == s.producers[i := Producer(Load, slot, s.dsPtr)];
  }

  lemma TwoLoading(c: Config) returns (s: State)
    requires !Serial(c)
    ensures Reachable(c, s) && |s.producers| >= 2
    ensures s.producers[0] == Producer(Load, 0, 0) && s.producers[1] == Producer(Load, 1, 1)
    ensures s.call.Idle? && s.done == 0 && s.ptrOut == 0 && s.out == [] && s.dmutex == 1
    ensures |s.buffer| == c.bufferSize && s.buffer[0] == None
  {
    InitReachable(c);
    DivModUnique(1, c.bufferSize, 0, 1);
    var s1 := ThreadClaims(c, Init(c), 0, 0, 1);
    s := ThreadClaims(c, s1, 1, 1, (s1.ptrIn + 1) % c.bufferSize);
  }

  /** Thread i loads its batch and offers it. */
  lemma ThreadOffers(c: Config, s: State, i: nat) returns (t: State)
    requires Reachable(c, s) && |s.buffer| == c.bufferSize
    requires i < |s.producers| && s.producers[i].stage.Load? && s.dmutex > 0 && s.producers[i].ptr < |s.buffer|
    ensures Reachable(c, t)
    ensures t == s.(vaciar := s.vaciar + 1, totalProduced := s.totalProduced + 1, bufferCount := s.bufferCount + 1,
                    buffer := s.buffer[s.producers[i].ptr := Some(s.producers[i].idx)],
                    producers := s.producers[i := s.producers[i].(stage := WaitSlot)])
  {
    var s1 := OneMore(c, s, Thread(i));
    var s2 := OneMore(c, s1, Thread(i));
    t := ThreadSignals(c, s2, i);
    assert t.producers == s.producers[i := s.producers[i].(stage := WaitSlot)];
  }

  lemma ThreadCounts(c: Config, s: State, i: nat) returns (t: State)
    requires Reachable(c, s) && i < |s.producers| && s.producers[i].stage.Count?
    ensures Reachable(c, t)
    ensures t == s.(totalProduced := s.totalProduced + 1, bufferCount := s.bufferCount + 1, dmutex := s.dmutex + 1,
                    producers := s.producers[i := s.producers[i].(stage := Signal)])
  {
    var s1 := OneMore(c, s, Thread(i));
    t := OneMore(c, s1, Thread(i));
    assert t.producers == s.producers[i := s.producers[i].(stage := Signal)];
  }

  lemma ThreadSignals(c: Config, s: State, i: nat) returns (t: State)
    requires Reachable(c, s) && i < |s.producers| && s.producers[i].stage.Count?
    ensures Reachable(c, t)
    ensures t == s.(vaciar := s.vaciar + 1, totalProduced := s.totalProduced + 1, bufferCount := s.bufferCount + 1,
                    dmutex := s.dmutex + 1, producers := s.producers[i := s.producers[i].(stage := WaitSlot)])
  {
    var s1 := ThreadCounts(c, s, i);
    t := OneMore(c, s1, Thread(i));
    assert t.producers == s.producers[i := s.producers[i].(stage := WaitSlot)];
  }

  /** Two threads claim slots 0 and 1, the second one finishes first, and the consumer copies slot
      0 while it is still being loaded. */
  lemma ParallelRace(c: Config) returns (s: State, t: State)
    requires !Serial(c) && c.calls >= 1
    ensures Reachable(c, s) && Racing(s)
    ensures Reachable(c, t) && !InSequence(t)
  {
    var q := TwoLoading(c);
    q := ThreadOffers(c, q, 1);
    s := OneMore(c, q, Consumer);
    assert s.producers[0] == Producer(Load, 0, 0) && s.producers[0].stage.Load?;
    t := OneMore(c, s, Consumer);
    assert t.out == [None] && t.out[0] != Some(0);
  }

  /** Slots are never copied while being loaded, and batches arrive in the order of their claims,
      exactly when at most one batch can be in flight. */
  lemma OrderedIffSerial(c: Config)
    requires c.bufferSize >= 1 && c.calls >= 1
    ensures (forall s :: Reachable(c, s) ==> !Racing(s)) <==> Serial(c)
    ensures (forall s :: Reachable(c, s) ==> InSequence(s)) <==> Serial(c)
  {
    if Serial(c) {
      forall s | Reachable(c, s) ensures !Racing(s) && InSequence(s) {
        var acts :| Run(c, acts) == Some(s);
        SerialRun(c, acts);
        SerialNeverRaces(c, s);
      }
    } else {
      var s, t := ParallelRace(c);
    }
  }
}
