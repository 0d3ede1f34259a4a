/** Gradients: when every layer adds to the deltas of its parents, the deltas of a step are sums over the
    links of the net. */
module Gradients {
  import opened Graphs
  import opened Nets
  import opened Sequences
  import opened TrainedNets
  import opened Training
  import opened Wrappers

  /** `share(x, k, d)` is what layer x, whose delta is d, adds to the delta of its k-th parent. */
  ghost predicate Additive(kernel: Kernel<real>, share: (Layer, nat, real) -> real) {
    && kernel.zero == 0.0
    && forall x, k, d, e {:trigger kernel.give(x, k, d, e)} :: kernel.give(x, k, d, e) == e + share(x, k, d)
  }

  /** What layer x, with parents ps and delta d, adds to layer l through its first k links. */
  function FromLayer(share: (Layer, nat, real) -> real, ps: seq<Layer>, x: Layer, d: real, l: Layer, k: nat): real
    requires k <= |ps|
  {
    if k == 0 then 0.0
    else FromLayer(share, ps, x, d, l, k - 1) + if ps[k - 1] == l then share(x, k - 1, d) else 0.0
  }

  /** What the first n backward calls of a step add to layer l. */
  function FromAll(share: (Layer, nat, real) -> real, parent: Links, log: seq<(Layer, real)>, l: Layer, n: nat): real
    requires n <= |log| && forall j :: 0 <= j < n ==> log[j].0 < |parent|
  {
    if n == 0 then 0.0
    else
      var x, d := log[n - 1].0, log[n - 1].1;
      FromAll(share, parent, log, l, n - 1) + FromLayer(share, parent[x], x, d, l, |parent[x]|)
  }

  /** Every backward call was given the delta its loss wrote, if there is one, plus what all backward
      calls of the step add to its layer. */
  ghost predicate ChainRule(kernel: Kernel<real>, share: (Layer, nat, real) -> real, parent: Links, lout: seq<Layer>,
                            output: seq<real>, log: seq<(Layer, real)>)
  {
    && (forall j {:trigger log[j]} :: 0 <= j < |log| ==> log[j].0 < |parent|)
    && (forall i :: 0 <= i < |lout| ==> lout[i] < |output|)
    && (forall j, i {:trigger log[j], lout[i]} :: 0 <= j < |log| && 0 <= i < |lout| && log[j].0 == lout[i] ==>
          log[j].1 == (match kernel.loss(i, output[lout[i]]) case Some(d) => d case None => 0.0)
                      + FromAll(share, parent, log, lout[i], |log|))
    && (forall j {:trigger log[j]} :: 0 <= j < |log| && log[j].0 !in lout ==>
          log[j].1 == FromAll(share, parent, log, log[j].0, |log|))
  }

  lemma {:induction false} SentIsSum(kernel: Kernel<real>, share: (Layer, nat, real) -> real, ps: seq<Layer>, x: Layer,
                                     d: real, l: Layer, k: nat, acc: real)
    requires Additive(kernel, share) && k <= |ps|
    ensures Sent(kernel, ps, x, d, l, k, acc) == acc + FromLayer(share, ps, x, d, l, k)
  {
    if k > 0 { SentIsSum(kernel, share, ps, x, d, l, k - 1, acc); }
  }

  lemma {:induction false} NothingFrom(share: (Layer, nat, real) -> real, ps: seq<Layer>, x: Layer, d: real, l: Layer,
                                       k: nat)
    requires k <= |ps| && l !in ps
    ensures FromLayer(share, ps, x, d, l, k) == 0.0
  {
    if k > 0 { NothingFrom(share, ps, x, d, l, k - 1); }
  }

  lemma {:induction false} AdjointIsSum(kernel: Kernel<real>, share: (Layer, nat, real) -> real, parent: Links,
                                        vbts: seq<Layer>, seed: map<Layer, real>, l: Layer, n: nat)
    requires Additive(kernel, share) && Valid(vbts, parent) && n <= |vbts|
    ensures var log := BackwardLog(kernel, parent, vbts, seed);
      Adjoint(kernel, parent, vbts, seed, l, n)
        == (if l in seed then seed[l] else 0.0) + FromAll(share, parent, log, l, n)
  {
    if n > 0 {
      var log := BackwardLog(kernel, parent, vbts, seed);
      AdjointIsSum(kernel, share, parent, vbts, seed, l, n - 1);
      var x, d := vbts[n - 1], Adjoint(kernel, parent, vbts, seed, vbts[n - 1], n - 1);
      assert log[n - 1] == (x, d);
      SentIsSum(kernel, share, parent[x], x, d, l, |parent[x]|, Adjoint(kernel, parent, vbts, seed, l, n - 1));
    }
  }

  /** Nothing is added to a layer from its own turn on. */
  lemma {:induction false} NothingLater(share: (Layer, nat, real) -> real, parent: Links, child: Links,
                                        layers: seq<Layer>, vbts: seq<Layer>, log: seq<(Layer, real)>, i: nat, n: nat)
    requires Mirrored(parent, child) && Valid(layers, parent) && TopoOrder(child, layers, vbts) && Valid(vbts, parent)
    requires |log| == |vbts| && (forall j :: 0 <= j < |log| ==> log[j].0 == vbts[j]) && i < |vbts| && i <= n <= |vbts|
    ensures FromAll(share, parent, log, vbts[i], n) == FromAll(share, parent, log, vbts[i], i)
  {
    if n > i {
      NothingLater(share, parent, child, layers, vbts, log, i, n - 1);
      var x := vbts[n - 1];
      NoLateParent(parent, child, layers, vbts, i, n - 1);
      NothingFrom(share, parent[x], x, log[n - 1].1, vbts[i], |parent[x]|);
    }
  }

  /** The deltas of a sorted net's backward pass obey the chain rule. */
  lemma LogObeysChainRule(kernel: Kernel<real>, share: (Layer, nat, real) -> real, parent: Links, child: Links,
                          layers: seq<Layer>, lout: seq<Layer>, vbts: seq<Layer>, output: seq<real>,
                          log: seq<(Layer, real)>)
    requires Additive(kernel, share) && Mirrored(parent, child) && Valid(layers, parent)
    requires TopoOrder(child, layers, vbts) && Valid(vbts, parent) && NoDup(lout)
    requires Logged(kernel, parent, lout, vbts, output, log)
    ensures ChainRule(kernel, share, parent, lout, output, log)
  {
    var seed := SeedMap(kernel, lout, output);
    forall j | 0 <= j < |log|
      ensures log[j].0 == vbts[j]
      ensures log[j].1 == (if vbts[j] in seed then seed[vbts[j]] else 0.0) + FromAll(share, parent, log, vbts[j], |log|)
    {
      AdjointIsSum(kernel, share, parent, vbts, seed, vbts[j], j);
      NothingLater(share, parent, child, layers, vbts, log, j, |log|);
    }
    forall j, i | 0 <= j < |log| && 0 <= i < |lout| && log[j].0 == lout[i]
      ensures log[j].1 == (match kernel.loss(i, output[lout[i]]) case Some(d) => d case None => 0.0)
                          + FromAll(share, parent, log, lout[i], |log|)
    {
      assert Pos(lout, lout[i]) == i;
    }
  }

  /** A step of a trainer whose layers add to their parents' deltas: every layer's backward is called
      once, with the gradient by the chain rule. */
  method GradientStep(t: Trainer<real>, ghost share: (Layer, nat, real) -> real) returns (ok: bool)
    requires t.Ok() && (t.memLevel > 0 ==> t.Clean()) && Additive(t.kernel, share)
    modifies t
    ensures ok ==> |t.log| == |old(t.log)| + |t.vbts| && t.log[..|old(t.log)|] == old(t.log)
    ensures ok ==> forall j :: 0 <= j < |t.vbts| ==> t.log[|old(t.log)| + j].0 == t.vbts[j]
    ensures ok ==> ChainRule(t.kernel, share, t.parent, t.lout, t.output, t.log[|old(t.log)|..])
  {
    ok := t.TrainStep();
    if ok {
      ghost var step := t.log[|old(t.log)|..];
      assert step == BackwardLog(t.kernel, t.parent, t.vbts, SeedMap(t.kernel, t.lout, t.output));
      LogObeysChainRule(t.kernel, share, t.parent, t.child, t.layers, t.lout, t.vbts, t.output, step);
    }
  }

  /** From the links to gradients, at both memory levels. */
  method BuildAndDifferentiate(kernel: Kernel<real>, ghost share: (Layer, nat, real) -> real, parent: Links,
                               child: Links, ins: seq<Layer>, outs: seq<Layer>, linputs: seq<Layer>, memLevel: nat,
                               fed: seq<real>)
    returns (built: bool, layers: seq<Layer>, output: seq<real>, log: seq<(Layer, real)>, fullLog: seq<(Layer, real)>)
    requires Additive(kernel, share) && Mirrored(parent, child) && |fed| == |parent| && NoDup(outs)
    requires forall i :: 0 <= i < |ins| ==> ins[i] < |parent|
    requires forall i :: 0 <= i < |outs| ==> outs[i] < |parent|
    ensures forall v :: v in layers <==> InNet(parent, child, ins, outs, v)
    ensures built <==> Acyclic(parent, layers)
    ensures built && LeadsOut(child, layers, outs) ==>
      ChainRule(kernel, share, parent, outs, output, log) && fullLog == log && |log| == |layers|
  {
    var low, full, fullOutput;
    built, layers, low, output, log, full, fullOutput, fullLog :=
      BuildAndTrain(kernel, parent, child, ins, outs, linputs, memLevel, fed);
    if built && LeadsOut(child, layers, outs) {
      ghost var vfts, vbts :| Sorted(parent, child, outs, layers, vfts, vbts)
        && Solves(kernel, parent, linputs, vfts, fed, output) && Logged(kernel, parent, outs, vbts, output, log);
      LogObeysChainRule(kernel, share, parent, child, layers, outs, vbts, output, log);
      assert |multiset(vbts)| == |multiset(layers)|;
    }
  }
}
