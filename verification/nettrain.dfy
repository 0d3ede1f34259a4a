/** From the links of the layers to a training step: the net is collected and sorted as its
    constructor does, and then trained. */
module TrainedNets {
  import opened Graphs
  import opened Nets
  import opened Sequences
  import opened Training

  /** A parent of a layer that leads to an output is an ancestor of that output. */
  lemma AncestorOfOutput(parent: Links, child: Links, outs: seq<Layer>, layers: seq<Layer>, l: Layer, x: Layer)
    requires Mirrored(parent, child) && ReachesOutput(child, layers, outs, l)
    requires l < |parent| && x in parent[l]
    ensures ReachedFrom(parent, outs, x)
  {
    var p :| Path(child, p) && AllIn(p, layers) && p[0] == l && p[|p| - 1] in outs;
    var q := ReversedPath(child, parent, p);
    assert Reach(parent, q[0], l);
    assert x == parent[l][Pos(parent[l], x)];
    ReachThen(parent, q[0], l, x);
    assert outs[Pos(outs, q[0])] == q[0];
  }

  /** In a collected net whose layers all lead to an output no layer has a parent outside the net. */
  lemma ParentsCollected(parent: Links, child: Links, ins: seq<Layer>, outs: seq<Layer>, layers: seq<Layer>,
                         order: seq<Layer>)
    requires Mirrored(parent, child) && LeadsOut(child, layers, outs)
    requires forall v :: v in layers <==> InNet(parent, child, ins, outs, v)
    requires forall v :: v in layers <==> v in order
    ensures HasParents(parent, order)
  {
    forall i, k | 0 <= i < |order| && order[i] < |parent| && 0 <= k < |parent[order[i]]|
      ensures parent[order[i]][k] in order
    {
      assert order[i] in layers;
      AncestorOfOutput(parent, child, outs, layers, order[i], parent[order[i]][k]);
      assert InNet(parent, child, ins, outs, parent[order[i]][k]);
    }
  }

  /** The layers in both orders. */
  ghost predicate Sorted(parent: Links, child: Links, outs: seq<Layer>, layers: seq<Layer>, vfts: seq<Layer>,
                         vbts: seq<Layer>)
  {
    && Mirrored(parent, child) && Valid(layers, parent) && NoDup(outs) && AllIn(outs, layers)
    && TopoOrder(parent, layers, vfts) && TopoOrder(child, layers, vbts)
    && Valid(vfts, parent) && Valid(vbts, parent)
  }

  /** Layer l gets a delta or needs none. */
  ghost predicate HasDelta(parent: Links, child: Links, linputs: seq<Layer>, outs: seq<Layer>, layers: seq<Layer>,
                           memLevel: nat, l: Layer)
    requires |parent| == |child| && l < |parent|
  {
    Fed(child, layers, outs, l) || Idle(parent, linputs, memLevel, l)
  }

  ghost predicate Deltas(parent: Links, child: Links, linputs: seq<Layer>, outs: seq<Layer>, layers: seq<Layer>,
                         order: seq<Layer>, memLevel: nat)
    requires |parent| == |child| && Valid(order, parent)
  {
    forall i {:trigger order[i]} :: 0 <= i < |order| ==>
      HasDelta(parent, child, linputs, outs, layers, memLevel, order[i])
  }

  /** The outputs solve the forward equations, and the backward calls were given the gradients of the
      loss deltas at those outputs. */
  ghost predicate Trained<V(!new)>(kernel: Kernel<V>, parent: Links, child: Links, linputs: seq<Layer>,
                                   outs: seq<Layer>, layers: seq<Layer>, fed: seq<V>, output: seq<V>,
                                   log: seq<(Layer, V)>)
  {
    exists vfts, vbts ::
      && Sorted(parent, child, outs, layers, vfts, vbts)
      && Solves(kernel, parent, linputs, vfts, fed, output)
      && Logged(kernel, parent, outs, vbts, output, log)
  }

  ghost predicate Logged<V>(kernel: Kernel<V>, parent: Links, outs: seq<Layer>, vbts: seq<Layer>, output: seq<V>,
                            log: seq<(Layer, V)>)
    requires Valid(vbts, parent)
  {
    && (forall i :: 0 <= i < |outs| ==> outs[i] < |output|)
    && log == BackwardLog(kernel, parent, vbts, SeedMap(kernel, outs, output))
  }

  /** Net(in, out) and make_graph; false stands for "error recurrent net". */
  method BuildNet(parent: Links, child: Links, ins: seq<Layer>, outs: seq<Layer>)
    returns (ok: bool, layers: seq<Layer>, vfts: seq<Layer>, vbts: seq<Layer>)
    requires Mirrored(parent, child) && NoDup(outs)
    requires forall i :: 0 <= i < |ins| ==> ins[i] < |parent|
    requires forall i :: 0 <= i < |outs| ==> outs[i] < |parent|
    ensures forall v :: v in layers <==> InNet(parent, child, ins, outs, v)
    ensures ok <==> Acyclic(parent, layers)
    ensures ok ==> Sorted(parent, child, outs, layers, vfts, vbts)
  {
    var net := new Net(parent, child);
    ok := net.Assemble(ins, outs);
    if ok { ok := net.MakeGraph(); }
    layers, vfts, vbts := net.layers, net.vfts, net.vbts;
    OutputsCollected(parent, child, ins, outs, layers);
    if ok {
      SortedStandsFor(parent, layers, vfts);
      SortedStandsFor(child, layers, vbts);
    }
  }

  /** One step of a new trainer over a sorted net. */
  method StepNet<V(!new)>(kernel: Kernel<V>, parent: Links, child: Links, linputs: seq<Layer>, outs: seq<Layer>,
                          layers: seq<Layer>, vfts: seq<Layer>, vbts: seq<Layer>, memLevel: nat, fed: seq<V>)
    returns (ok: bool, output: seq<V>, log: seq<(Layer, V)>)
    requires Sorted(parent, child, outs, layers, vfts, vbts) && |fed| == |parent|
    ensures ok <==> Deltas(parent, child, linputs, outs, layers, vbts, memLevel)
    ensures HasParents(parent, vfts) ==> Solves(kernel, parent, linputs, vfts, fed, output)
    ensures ok ==> Logged(kernel, parent, outs, vbts, output, log) && Propagates(kernel, parent, outs, output, log)
  {
    var t := new Trainer(parent, child, linputs, outs, layers, vfts, vbts, memLevel, kernel, fed);
    ghost var before := t.delta;
    ok := t.TrainStep();
    output, log := t.output, t.log;
    assert log[0..] == log;
    forall i | 0 <= i < |vbts|
      ensures HasDelta(parent, child, linputs, outs, layers, memLevel, vbts[i]) <==>
        Fed(child, layers, outs, vbts[i]) || before[vbts[i]].Some? || Idle(parent, linputs, memLevel, vbts[i])
    {
    }
  }

  /** From the links to a training step.  `built` is false exactly when the collected layers form a
      cycle.  A step at either memory level succeeds exactly when every layer gets a delta or needs
      none.  When every layer leads to an output both succeed, and both compute the solution of the
      forward equations and the gradients of its loss deltas.  The layers of class LInput need not be
      those the net was given as inputs. */
  method BuildAndTrain<V(!new)>(kernel: Kernel<V>, parent: Links, child: Links, ins: seq<Layer>, outs: seq<Layer>,
                                linputs: seq<Layer>, memLevel: nat, fed: seq<V>)
    returns (built: bool, layers: seq<Layer>, low: bool, output: seq<V>, log: seq<(Layer, V)>,
             full: bool, fullOutput: seq<V>, fullLog: seq<(Layer, V)>)
    requires Mirrored(parent, child) && |fed| == |parent| && NoDup(outs)
    requires forall i :: 0 <= i < |ins| ==> ins[i] < |parent|
    requires forall i :: 0 <= i < |outs| ==> outs[i] < |parent|
    ensures forall v :: v in layers <==> InNet(parent, child, ins, outs, v)
    ensures built <==> Acyclic(parent, layers)
    ensures built ==> Valid(layers, parent)
    ensures built ==> (low <==> Deltas(parent, child, linputs, outs, layers, layers, memLevel))
    ensures built ==> (full <==> Deltas(parent, child, linputs, outs, layers, layers, 0))
    ensures built && LeadsOut(child, layers, outs) ==>
      low && full && output == fullOutput && log == fullLog
        && Trained(kernel, parent, child, linputs, outs, layers, fed, output, log)
        && Propagates(kernel, parent, outs, output, log)
  {
    var vfts, vbts;
    built, layers, vfts, vbts := BuildNet(parent, child, ins, outs);
    low, output, log, full, fullOutput, fullLog := false, fed, [], false, fed, [];
    if built {
      low, output, log := StepNet(kernel, parent, child, linputs, outs, layers, vfts, vbts, memLevel, fed);
      full, fullOutput, fullLog := StepNet(kernel, parent, child, linputs, outs, layers, vfts, vbts, 0, fed);
      DeltasInOrder(parent, child, linputs, outs, layers, vfts, vbts, memLevel);
      DeltasInOrder(parent, child, linputs, outs, layers, vfts, vbts, 0);
      if LeadsOut(child, layers, outs) {
        LeadingOut(parent, child, ins, outs, linputs, layers, vfts, vbts, memLevel);
        LeadingOut(parent, child, ins, outs, linputs, layers, vfts, vbts, 0);
        SortedStandsFor(parent, layers, vfts);
        SameOutputs(kernel, parent, linputs, vfts, fed, output, fullOutput);
      }
    }
  }

  /** The order in which the layers are looked at does not matter. */
  lemma DeltasInOrder(parent: Links, child: Links, linputs: seq<Layer>, outs: seq<Layer>, layers: seq<Layer>,
                      vfts: seq<Layer>, vbts: seq<Layer>, memLevel: nat)
    requires Sorted(parent, child, outs, layers, vfts, vbts)
    ensures Deltas(parent, child, linputs, outs, layers, vbts, memLevel) <==>
      Deltas(parent, child, linputs, outs, layers, layers, memLevel)
  {
    SortedStandsFor(child, layers, vbts);
    if Deltas(parent, child, linputs, outs, layers, vbts, memLevel) {
      forall i | 0 <= i < |layers| ensures HasDelta(parent, child, linputs, outs, layers, memLevel, layers[i]) {
        assert layers[i] == vbts[Pos(vbts, layers[i])];
      }
    }
    if Deltas(parent, child, linputs, outs, layers, layers, memLevel) {
      forall i | 0 <= i < |vbts| ensures HasDelta(parent, child, linputs, outs, layers, memLevel, vbts[i]) {
        assert vbts[i] == layers[Pos(layers, vbts[i])];
      }
    }
  }

  lemma LeadingOut(parent: Links, child: Links, ins: seq<Layer>, outs: seq<Layer>, linputs: seq<Layer>,
                   layers: seq<Layer>, vfts: seq<Layer>, vbts: seq<Layer>, memLevel: nat)
    requires Sorted(parent, child, outs, layers, vfts, vbts) && LeadsOut(child, layers, outs)
    requires forall v :: v in layers <==> InNet(parent, child, ins, outs, v)
    ensures HasParents(parent, vfts) && Deltas(parent, child, linputs, outs, layers, vbts, memLevel)
  {
    SortedStandsFor(parent, layers, vfts);
    ParentsCollected(parent, child, ins, outs, layers, vfts);
    AllFed(child, layers, outs, vbts);
  }

  lemma OutputsCollected(parent: Links, child: Links, ins: seq<Layer>, outs: seq<Layer>, layers: seq<Layer>)
    requires forall v :: v in layers <==> InNet(parent, child, ins, outs, v)
    requires forall i :: 0 <= i < |outs| ==> outs[i] < |parent|
    ensures AllIn(outs, layers)
  {
    forall i | 0 <= i < |outs| ensures outs[i] in layers {
      ReachSelf(parent, outs[i]);
      assert ReachedFrom(parent, outs, outs[i]);
    }
  }

  // ---------------------------------------------------------------- a layer that leads nowhere

  const DANGLING_PARENT: Links := [[], [0], [0]]
  const DANGLING_CHILD: Links := [[1, 2], [], []]

  lemma DanglingMirrored()
    ensures Mirrored(DANGLING_PARENT, DANGLING_CHILD)
  {
    var up, down := DANGLING_PARENT, DANGLING_CHILD;
    forall p, c | 0 <= p < |up| && 0 <= c < |up| ensures multiset(down[p])[c] == multiset(up[c])[p] {
      assert (p == 0 || p == 1 || p == 2) && (c == 0 || c == 1 || c == 2);
    }
  }

  lemma DanglingAcyclic(layers: seq<Layer>)
    ensures Acyclic(DANGLING_PARENT, layers)
  {
    var up := DANGLING_PARENT;
    forall p: seq<Layer> | Path(up, p) && |p| >= 2 ensures p[0] != p[|p| - 1] {
      var last, before := |p| - 1, |p| - 2;
      assert p[1] in up[p[0]] && p[last] in up[p[before]];
    }
  }

  lemma DanglingCollected()
    ensures InNet(DANGLING_PARENT, DANGLING_CHILD, [0], [1], 2)
  {
    var next, ins := Prune(DANGLING_CHILD, [1]), [0];
    ReachSelf(next, 2);
    ReachVia(next, 0, 2, 2);
    assert Reach(next, ins[0], 2);
  }

  /** Layer 2 needs a delta and gets none. */
  lemma DanglingStarves(linputs: seq<Layer>, layers: seq<Layer>, memLevel: nat)
    requires Valid(layers, DANGLING_PARENT) && 2 in layers
    ensures !Deltas(DANGLING_PARENT, DANGLING_CHILD, linputs, [1], layers, layers, memLevel)
  {
    var i := Pos(layers, 2);
    assert !HasDelta(DANGLING_PARENT, DANGLING_CHILD, linputs, [1], layers, memLevel, layers[i]);
  }

  /** Input 0 feeds output 1 and layer 2, which is collected and feeds nothing: the net is built, and
      its training step dereferences the missing delta of layer 2 at every memory level. */
  method DanglingFails<V(!new)>(kernel: Kernel<V>, linputs: seq<Layer>, memLevel: nat, fed: seq<V>)
    returns (built: bool, low: bool, full: bool)
    requires |fed| == 3
    ensures built && !low && !full
  {
    DanglingMirrored();
    DanglingCollected();
    ghost var outs: seq<Layer> := [1];
    assert NoDup(outs);
    var layers, output, log, fullOutput, fullLog;
    built, layers, low, output, log, full, fullOutput, fullLog :=
      BuildAndTrain(kernel, DANGLING_PARENT, DANGLING_CHILD, [0], [1], linputs, memLevel, fed);
    DanglingAcyclic(layers);
    DanglingStarves(linputs, layers, memLevel);
    DanglingStarves(linputs, layers, 0);
  }
}
