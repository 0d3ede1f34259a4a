/** One training step over a sorted net: forward in vfts order, then loss deltas and backward
    in vbts order, with deltas allocated lazily and, at mem_level > 0, freed after use. */
module Training {
  import opened Graphs
  import opened Sequences
  import opened Wrappers

  /** The numeric side of the layers.  `fwd` maps the parents' outputs to a layer's output;
      `give(l, k, d, e)` is what the backward of layer l with delta d makes of the delta e of its k-th
      parent: most layers add to it, an input layer copies its own over it; `loss(i, y)` is the delta
      the i-th loss writes for output y, if there is such a loss and it writes one. */
  datatype Kernel<!V> = Kernel(
    fwd: (Layer, seq<V>) -> V,
    zero: V,
    give: (Layer, nat, V, V) -> V,
    loss: (nat, V) -> Option<V>)

  // ---------------------------------------------------------------- forward

  /** Layer l holds what its forward computes from what its parents hold; an input layer (of class
      LInput) without parents keeps what was copied into it. */
  ghost predicate HoldsForward<V(!new)>(kernel: Kernel<V>, parent: Links, inputs: seq<Layer>, fed: seq<V>,
                                        output: seq<V>, l: Layer)
    requires Closed(parent) && l < |parent| == |output| == |fed|
  {
    if parent[l] == [] && l in inputs then output[l] == fed[l]
    else output[l] == kernel.fwd(l, Gather(output, parent[l]))
  }

  /** The equations of a parent-closed, ordered part of a net have one solution. */
  lemma {:induction false} ForwardUnique<V(!new)>(kernel: Kernel<V>, parent: Links, inputs: seq<Layer>, fed: seq<V>,
                                                  order: seq<Layer>, a: seq<V>, b: seq<V>, n: nat)
    requires Closed(parent) && |parent| == |a| == |b| == |fed| && Valid(order, parent) && n <= |order|
    requires ParentsFirst(parent, order, order)
    requires forall i :: 0 <= i < |order| ==> AllIn(parent[order[i]], order)
    requires forall i :: 0 <= i < |order| ==> HoldsForward(kernel, parent, inputs, fed, a, order[i])
    requires forall i :: 0 <= i < |order| ==> HoldsForward(kernel, parent, inputs, fed, b, order[i])
    ensures forall i :: 0 <= i < n ==> a[order[i]] == b[order[i]]
  {
    if n > 0 {
      ForwardUnique(kernel, parent, inputs, fed, order, a, b, n - 1);
      var l := order[n - 1];
      assert HoldsForward(kernel, parent, inputs, fed, a, l) && HoldsForward(kernel, parent, inputs, fed, b, l);
      forall k | 0 <= k < |parent[l]| ensures a[parent[l][k]] == b[parent[l][k]] {
        assert parent[l][k] in order[..n - 1];
      }
      assert Gather(a, parent[l]) == Gather(b, parent[l]);
    }
  }

  /** forward() on every layer in order, starting from the outputs `fed`. */
  method RunForward<V(!new)>(kernel: Kernel<V>, parent: Links, inputs: seq<Layer>, vfts: seq<Layer>, fed: seq<V>)
    returns (output: seq<V>)
    requires Closed(parent) && |parent| == |fed| && Valid(vfts, parent) && ParentsFirst(parent, vfts, vfts)
    ensures |output| == |parent|
    ensures forall i :: 0 <= i < |vfts| && AllIn(parent[vfts[i]], vfts) ==>
      HoldsForward(kernel, parent, inputs, fed, output, vfts[i])
    ensures forall l :: 0 <= l < |output| && l !in vfts ==> output[l] == fed[l]
  {
    output := fed;
    for i := 0 to |vfts|
      invariant |output| == |parent|
      invariant forall l :: 0 <= l < |output| && l !in vfts[..i] ==> output[l] == fed[l]
      invariant forall m :: 0 <= m < i && AllIn(parent[vfts[m]], vfts) ==>
        HoldsForward(kernel, parent, inputs, fed, output, vfts[m])
    {
      var l := vfts[i];
      ghost var before := output;
      if !(parent[l] == [] && l in inputs) {
        output := output[l := kernel.fwd(l, Gather(output, parent[l]))];
      }
      forall m | 0 <= m <= i && AllIn(parent[vfts[m]], vfts)
        ensures HoldsForward(kernel, parent, inputs, fed, output, vfts[m])
      {
        forall k | 0 <= k < |parent[vfts[m]]| ensures output[parent[vfts[m]][k]] == before[parent[vfts[m]][k]] {
          assert parent[vfts[m]][k] in vfts[..m];
        }
        assert Gather(output, parent[vfts[m]]) == Gather(before, parent[vfts[m]]);
        if m < i { assert HoldsForward(kernel, parent, inputs, fed, before, vfts[m]); }
      }
    }
  }

  // ---------------------------------------------------------------- backward, as a recurrence

  /** What layer x, whose delta is d, makes of the delta `acc` of layer l through its first k parent
      entries. */
  function Sent<V>(kernel: Kernel<V>, ps: seq<Layer>, x: Layer, d: V, l: Layer, k: nat, acc: V): V
    requires k <= |ps|
  {
    if k == 0 then acc
    else
      var r := Sent(kernel, ps, x, d, l, k - 1, acc);
      if ps[k - 1] == l then kernel.give(x, k - 1, d, r) else r
  }

  /** The gradient of layer l once the first i layers of vbts have sent theirs.  No memory level,
      allocation or reuse appears here. */
  function Adjoint<V>(kernel: Kernel<V>, parent: Links, vbts: seq<Layer>, seed: map<Layer, V>, l: Layer, i: nat): V
    requires i <= |vbts| && forall j :: 0 <= j < |vbts| ==> vbts[j] < |parent|
    decreases i
  {
    if i == 0 then if l in seed then seed[l] else kernel.zero
    else
      var x := vbts[i - 1];
      Sent(kernel, parent[x], x, Adjoint(kernel, parent, vbts, seed, x, i - 1), l, |parent[x]|,
        Adjoint(kernel, parent, vbts, seed, l, i - 1))
  }

  lemma {:induction false} NothingSent<V>(kernel: Kernel<V>, ps: seq<Layer>, x: Layer, d: V, l: Layer, k: nat, acc: V)
    requires k <= |ps| && l !in ps
    ensures Sent(kernel, ps, x, d, l, k, acc) == acc
  {
    if k > 0 { NothingSent(kernel, ps, x, d, l, k - 1, acc); }
  }

  /** The delta `from` of layer l becomes `to` as layer x, with delta d, goes through its parent links in
      order: vals holds it before, between and after them. */
  ghost predicate Passes<V>(kernel: Kernel<V>, ps: seq<Layer>, x: Layer, d: V, l: Layer, from: V, to: V, vals: seq<V>) {
    && |vals| == |ps| + 1 && vals[0] == from && vals[|ps|] == to
    && forall k {:trigger ps[k]} :: 0 <= k < |ps| ==>
         vals[k + 1] == if ps[k] == l then kernel.give(x, k, d, vals[k]) else vals[k]
  }

  ghost predicate PassesOn<V(!new)>(kernel: Kernel<V>, ps: seq<Layer>, x: Layer, d: V, l: Layer, from: V, to: V) {
    exists vals {:trigger Passes(kernel, ps, x, d, l, from, to, vals)} :: Passes(kernel, ps, x, d, l, from, to, vals)
  }

  lemma {:induction false} SentPasses<V>(kernel: Kernel<V>, ps: seq<Layer>, x: Layer, d: V, l: Layer, k: nat, acc: V)
    returns (vals: seq<V>)
    requires k <= |ps|
    ensures Passes(kernel, ps[..k], x, d, l, acc, Sent(kernel, ps, x, d, l, k, acc), vals)
  {
    if k == 0 {
      vals := [acc];
    } else {
      var before := SentPasses(kernel, ps, x, d, l, k - 1, acc);
      TakeOneMore(ps, k - 1);
      vals := before + [Sent(kernel, ps, x, d, l, k, acc)];
      forall m | 0 <= m < k ensures vals[m + 1] == if ps[..k][m] == l then kernel.give(x, m, d, vals[m]) else vals[m] {
        if m < k - 1 { assert ps[..k - 1][m] == ps[m]; }
      }
    }
  }

  /** A layer linked once is given to once. */
  lemma SentOnce<V>(kernel: Kernel<V>, ps: seq<Layer>, x: Layer, d: V, l: Layer, k: nat, acc: V)
    requires k < |ps| && ps[k] == l && forall m :: 0 <= m < |ps| && ps[m] == l ==> m == k
    ensures Sent(kernel, ps, x, d, l, |ps|, acc) == kernel.give(x, k, d, acc)
  {
    NotYetSent(kernel, ps, x, d, l, k, acc);
    SentNoMore(kernel, ps, x, d, l, k + 1, |ps|, acc);
  }

  lemma {:induction false} NotYetSent<V>(kernel: Kernel<V>, ps: seq<Layer>, x: Layer, d: V, l: Layer, k: nat, acc: V)
    requires k <= |ps| && forall m :: 0 <= m < k ==> ps[m] != l
    ensures Sent(kernel, ps, x, d, l, k, acc) == acc
  {
    if k > 0 { NotYetSent(kernel, ps, x, d, l, k - 1, acc); }
  }

  lemma {:induction false} SentNoMore<V>(kernel: Kernel<V>, ps: seq<Layer>, x: Layer, d: V, l: Layer, j: nat, k: nat,
                                         acc: V)
    requires j <= k <= |ps| && forall m :: j <= m < k ==> ps[m] != l
    ensures Sent(kernel, ps, x, d, l, k, acc) == Sent(kernel, ps, x, d, l, j, acc)
  {
    if j < k { SentNoMore(kernel, ps, x, d, l, j, k - 1, acc); }
  }

  /** A layer's gradient is complete when its turn comes. */
  lemma {:induction false} AdjointSettled<V>(kernel: Kernel<V>, parent: Links, child: Links, layers: seq<Layer>,
                                             vbts: seq<Layer>, seed: map<Layer, V>, i: nat, n: nat)
    requires Mirrored(parent, child) && Valid(layers, parent) && TopoOrder(child, layers, vbts)
    requires forall j :: 0 <= j < |vbts| ==> vbts[j] < |parent|
    requires i < |vbts| && i <= n <= |vbts|
    ensures Adjoint(kernel, parent, vbts, seed, vbts[i], n) == Adjoint(kernel, parent, vbts, seed, vbts[i], i)
  {
    if n > i {
      AdjointSettled(kernel, parent, child, layers, vbts, seed, i, n - 1);
      NoLateParent(parent, child, layers, vbts, i, n - 1);
      NothingSent(kernel, parent[vbts[n - 1]], vbts[n - 1], Adjoint(kernel, parent, vbts, seed, vbts[n - 1], n - 1),
        vbts[i], |parent[vbts[n - 1]]|, Adjoint(kernel, parent, vbts, seed, vbts[i], n - 1));
    }
  }

  lemma LinkBoth(parent: Links, child: Links, p: Layer, c: Layer)
    requires Mirrored(parent, child) && p < |parent| && c < |parent|
    ensures p in parent[c] <==> c in child[p]
  {
    assert p in parent[c] <==> multiset(parent[c])[p] > 0;
    assert c in child[p] <==> multiset(child[p])[c] > 0;
  }

  /** In backward order no layer feeds one that has already been visited. */
  lemma NoLateParent(parent: Links, child: Links, layers: seq<Layer>, vbts: seq<Layer>, i: nat, j: nat)
    requires Mirrored(parent, child) && Valid(layers, parent) && TopoOrder(child, layers, vbts) && i <= j < |vbts|
    requires vbts[i] < |parent| && vbts[j] < |parent|
    ensures vbts[i] !in parent[vbts[j]]
  {
    LinkBoth(parent, child, vbts[i], vbts[j]);
    assert vbts[j] in multiset(layers) && vbts[j] !in vbts[..i];
  }

  /** Layer l is an output or some layer of the net consumes it. */
  ghost predicate Fed(child: Links, layers: seq<Layer>, outs: seq<Layer>, l: Layer)
    requires l < |child|
  {
    l in outs || exists k :: 0 <= k < |child[l]| && child[l][k] in layers
  }

  ghost predicate ReachesOutput(child: Links, layers: seq<Layer>, outs: seq<Layer>, l: Layer) {
    exists p :: Path(child, p) && AllIn(p, layers) && p[0] == l && p[|p| - 1] in outs
  }

  lemma {:induction false} FedReaches(child: Links, layers: seq<Layer>, outs: seq<Layer>, vbts: seq<Layer>, i: nat)
    requires Closed(child) && Valid(layers, child) && TopoOrder(child, layers, vbts) && i < |vbts|
    requires forall l :: l in layers ==> Fed(child, layers, outs, l)
    ensures ReachesOutput(child, layers, outs, vbts[i])
    decreases i
  {
    var l := vbts[i];
    assert l in multiset(layers);
    assert Fed(child, layers, outs, l);
    if l in outs {
      assert Path(child, [l]) && AllIn([l], layers);
    } else {
      var k :| 0 <= k < |child[l]| && child[l][k] in layers;
      assert child[l][k] in vbts[..i];
      var j :| 0 <= j < i && vbts[j] == child[l][k];
      FedReaches(child, layers, outs, vbts, j);
      var p :| Path(child, p) && AllIn(p, layers) && p[0] == vbts[j] && p[|p| - 1] in outs;
      PathFront(child, l, p);
      var q := [l] + p;
      assert AllIn(q, layers) && q[0] == l && q[|q| - 1] in outs;
    }
  }

  /** Every layer of the net gets a delta exactly when every layer leads to an output. */
  lemma AllFedIffAllReach(child: Links, layers: seq<Layer>, outs: seq<Layer>, vbts: seq<Layer>)
    requires Closed(child) && Valid(layers, child) && TopoOrder(child, layers, vbts)
    ensures (forall l :: l in layers ==> Fed(child, layers, outs, l))
       <==> (forall l :: l in layers ==> ReachesOutput(child, layers, outs, l))
  {
    if forall l :: l in layers ==> Fed(child, layers, outs, l) {
      forall l | l in layers ensures ReachesOutput(child, layers, outs, l) {
        assert l in multiset(vbts);
        FedReaches(child, layers, outs, vbts, Pos(vbts, l));
      }
    }
    forall l | l in layers && ReachesOutput(child, layers, outs, l) ensures Fed(child, layers, outs, l) {
      var p :| Path(child, p) && AllIn(p, layers) && p[0] == l && p[|p| - 1] in outs;
      if |p| > 1 {
        assert p[1] in child[p[0]] && p[1] in layers;
      }
    }
  }

  /** Some layer among the first i of the backward order feeds from l. */
  ghost predicate SentTo(parent: Links, vbts: seq<Layer>, l: Layer, i: nat)
    requires i <= |vbts| && Valid(vbts, parent)
  {
    exists x :: 0 <= x < i && l in parent[vbts[x]]
  }

  lemma SentToFed(parent: Links, child: Links, layers: seq<Layer>, vbts: seq<Layer>, i: nat)
    requires Mirrored(parent, child) && Valid(layers, parent) && Valid(vbts, parent)
    requires TopoOrder(child, layers, vbts) && i < |vbts|
    ensures SentTo(parent, vbts, vbts[i], i) <==> Fed(child, layers, [], vbts[i])
  {
    var l := vbts[i];
    if SentTo(parent, vbts, l, i) {
      var x :| 0 <= x < i && l in parent[vbts[x]];
      LinkBoth(parent, child, l, vbts[x]);
      assert vbts[x] in multiset(layers);
    }
    if Fed(child, layers, [], l) {
      var k :| 0 <= k < |child[l]| && child[l][k] in layers;
      assert child[l][k] in vbts[..i];
      var x :| 0 <= x < i && vbts[x] == child[l][k];
      LinkBoth(parent, child, l, vbts[x]);
    }
  }

  ghost function SeedMap<V>(kernel: Kernel<V>, lout: seq<Layer>, output: seq<V>): map<Layer, V>
    requires forall i :: 0 <= i < |lout| ==> lout[i] < |output|
  {
    map l | l in lout && kernel.loss(Pos(lout, l), output[l]).Some? :: kernel.loss(Pos(lout, l), output[l]).value
  }

  /** Every layer of the net, in backward order, with its gradient. */
  function BackwardLog<V>(kernel: Kernel<V>, parent: Links, vbts: seq<Layer>, seed: map<Layer, V>): (r: seq<(Layer, V)>)
    requires forall j :: 0 <= j < |vbts| ==> vbts[j] < |parent|
    ensures |r| == |vbts|
    ensures forall i {:trigger r[i]} :: 0 <= i < |vbts| ==>
      r[i] == (vbts[i], Adjoint(kernel, parent, vbts, seed, vbts[i], i))
  {
    seq(|vbts|, i requires 0 <= i < |vbts| => (vbts[i], Adjoint(kernel, parent, vbts, seed, vbts[i], i)))
  }

  /** What the loss of layer l writes for these outputs, or zero. */
  ghost predicate Starts<V>(kernel: Kernel<V>, lout: seq<Layer>, output: seq<V>, l: Layer, from: V)
    requires forall i :: 0 <= i < |lout| ==> lout[i] < |output|
  {
    && (forall i {:trigger lout[i]} :: 0 <= i < |lout| && lout[i] == l ==>
          from == match kernel.loss(i, output[l]) case Some(d) => d case None => kernel.zero)
    && (l !in lout ==> from == kernel.zero)
  }

  /** The first n backward calls of a log, one after the other, take the delta of layer l through vals. */
  ghost predicate Flows<V(!new)>(kernel: Kernel<V>, parent: Links, log: seq<(Layer, V)>, l: Layer, n: nat, vals: seq<V>)
    requires n <= |log| && forall j :: 0 <= j < |log| ==> log[j].0 < |parent|
  {
    |vals| == n + 1 && forall i {:trigger log[i]} :: 0 <= i < n ==>
      PassesOn(kernel, parent[log[i].0], log[i].0, log[i].1, l, vals[i], vals[i + 1])
  }

  /** Backward call j of a log was given what the loss of its layer, and then the calls before it, made of
      the layer's delta. */
  ghost predicate GivenBy<V(!new)>(kernel: Kernel<V>, parent: Links, lout: seq<Layer>, output: seq<V>,
                                   log: seq<(Layer, V)>, j: nat)
    requires j < |log| && forall m :: 0 <= m < |log| ==> log[m].0 < |parent|
    requires forall i :: 0 <= i < |lout| ==> lout[i] < |output|
  {
    exists vals: seq<V> {:trigger Flows(kernel, parent, log, log[j].0, j, vals)} ::
      Flows(kernel, parent, log, log[j].0, j, vals) && Starts(kernel, lout, output, log[j].0, vals[0])
      && vals[j] == log[j].1
  }

  ghost predicate Propagates<V(!new)>(kernel: Kernel<V>, parent: Links, lout: seq<Layer>, output: seq<V>,
                                      log: seq<(Layer, V)>)
  {
    && (forall j :: 0 <= j < |log| ==> log[j].0 < |parent|)
    && (forall i :: 0 <= i < |lout| ==> lout[i] < |output|)
    && forall j {:trigger log[j]} :: 0 <= j < |log| ==> GivenBy(kernel, parent, lout, output, log, j)
  }

  lemma BackwardFlows<V(!new)>(kernel: Kernel<V>, parent: Links, vbts: seq<Layer>, seed: map<Layer, V>, l: Layer,
                               n: nat)
    returns (vals: seq<V>)
    requires Valid(vbts, parent) && n <= |vbts|
    ensures var log := BackwardLog(kernel, parent, vbts, seed);
      && Flows(kernel, parent, log, l, n, vals) && vals[0] == (if l in seed then seed[l] else kernel.zero)
      && vals[n] == Adjoint(kernel, parent, vbts, seed, l, n)
  {
    var log := BackwardLog(kernel, parent, vbts, seed);
    vals := seq(n + 1, i requires 0 <= i <= n => Adjoint(kernel, parent, vbts, seed, l, i));
    forall i | 0 <= i < n
      ensures PassesOn(kernel, parent[log[i].0], log[i].0, log[i].1, l, vals[i], vals[i + 1])
    {
      var x := vbts[i];
      assert log[i] == (x, Adjoint(kernel, parent, vbts, seed, x, i));
      var steps := SentPasses(kernel, parent[x], x, log[i].1, l, |parent[x]|, vals[i]);
      TakeAll(parent[x]);
    }
  }

  lemma BackwardPropagates<V(!new)>(kernel: Kernel<V>, parent: Links, lout: seq<Layer>, vbts: seq<Layer>,
                                    output: seq<V>)
    requires Valid(vbts, parent) && NoDup(lout) && forall i :: 0 <= i < |lout| ==> lout[i] < |output|
    ensures Propagates(kernel, parent, lout, output, BackwardLog(kernel, parent, vbts, SeedMap(kernel, lout, output)))
  {
    var seed := SeedMap(kernel, lout, output);
    var log := BackwardLog(kernel, parent, vbts, seed);
    forall j | 0 <= j < |log| ensures GivenBy(kernel, parent, lout, output, log, j) {
      var vals := BackwardFlows(kernel, parent, vbts, seed, vbts[j], j);
      forall i | 0 <= i < |lout| && lout[i] == vbts[j]
        ensures vals[0] == match kernel.loss(i, output[vbts[j]]) case Some(d) => d case None => kernel.zero
      {
        assert Pos(lout, lout[i]) == i;
      }
      assert log[j] == (vbts[j], vals[j]);
      assert Starts(kernel, lout, output, log[j].0, vals[0]) && Flows(kernel, parent, log, log[j].0, j, vals);
    }
  }

  /** Layer l never touches its own delta during the backward pass. */
  ghost predicate Idle(parent: Links, inputs: seq<Layer>, memLevel: nat, l: Layer)
    requires l < |parent|
  {
    parent[l] == [] && !(memLevel > 0 && l in inputs)
  }

  /** The delta of layer p before (d) and after (e) one round of the backward loop on l. */
  ghost predicate Visited<V>(kernel: Kernel<V>, parent: Links, inputs: seq<Layer>, memLevel: nat, l: Layer,
                             d: seq<Option<V>>, e: seq<Option<V>>, p: Layer)
    requires l < |parent| == |d| == |e| && p < |d|
  {
    if p == l && memLevel > 0 then e[p] == if l in inputs then Some(kernel.zero) else None
    else
      && (e[p].Some? <==> d[p].Some? || p in parent[l])
      && e[p].GetOr(kernel.zero)
         == Sent(kernel, parent[l], l, d[l].GetOr(kernel.zero), p, |parent[l]|, d[p].GetOr(kernel.zero))
  }

  /** The delta of the m-th layer of vbts before the i-th round, in terms of the deltas d0
      before the first. */
  ghost predicate Midway<V>(kernel: Kernel<V>, parent: Links, inputs: seq<Layer>, vbts: seq<Layer>, memLevel: nat,
                            seed: map<Layer, V>, d0: seq<Option<V>>, d: seq<Option<V>>, i: nat, m: nat)
    requires Valid(vbts, parent) && |d0| == |d| == |parent| && i <= |vbts| && m < |vbts|
  {
    var l := vbts[m];
    && (m >= i || memLevel == 0 ==> d[l].GetOr(kernel.zero) == Adjoint(kernel, parent, vbts, seed, l, i))
    && (m >= i ==> (d[l].Some? <==> d0[l].Some? || SentTo(parent, vbts, l, i)))
    && (m < i && memLevel > 0 ==> d[l] == if l in inputs then Some(kernel.zero) else None)
  }

  lemma VisitKeeps<V>(kernel: Kernel<V>, parent: Links, child: Links, layers: seq<Layer>, inputs: seq<Layer>,
                      vbts: seq<Layer>, memLevel: nat, seed: map<Layer, V>, d0: seq<Option<V>>, d: seq<Option<V>>,
                      e: seq<Option<V>>, i: nat, m: nat)
    requires Mirrored(parent, child) && Valid(layers, parent) && TopoOrder(child, layers, vbts) && Valid(vbts, parent)
    requires |d0| == |d| == |e| == |parent| && i < |vbts| && m < |vbts|
    requires Midway(kernel, parent, inputs, vbts, memLevel, seed, d0, d, i, i)
    requires Midway(kernel, parent, inputs, vbts, memLevel, seed, d0, d, i, m)
    requires Visited(kernel, parent, inputs, memLevel, vbts[i], d, e, vbts[m])
    ensures Midway(kernel, parent, inputs, vbts, memLevel, seed, d0, e, i + 1, m)
  {
    var l, x := vbts[m], vbts[i];
    if m <= i {
      NoLateParent(parent, child, layers, vbts, m, i);
      NothingSent(kernel, parent[x], x, d[x].GetOr(kernel.zero), l, |parent[x]|, d[l].GetOr(kernel.zero));
    }
    assert SentTo(parent, vbts, l, i + 1) <==> SentTo(parent, vbts, l, i) || l in parent[x];
  }

  /** p stands in ps at position k and nowhere else. */
  ghost predicate OnlyAt(ps: seq<Layer>, p: Layer, k: nat) {
    k < |ps| && ps[k] == p && forall m :: 0 <= m < |ps| && ps[m] == p ==> m == k
  }

  /** The delta, the states and the detached flag of a layer. */
  datatype Kept<V> = Kept(delta: Option<V>, states: seq<V>, deltaStates: seq<V>, detached: bool)

  class Trainer<V(!new)> {
    const parent: Links
    const child: Links
    /** The layers of class LInput, inputs of the net or not. */
    const inputs: seq<Layer>
    const lout: seq<Layer>
    const layers: seq<Layer>
    const vfts: seq<Layer>
    const vbts: seq<Layer>
    const memLevel: nat
    const kernel: Kernel<V>
    var output: seq<V>
    var delta: seq<Option<V>>
    var states: seq<seq<V>>
    var deltaStates: seq<seq<V>>
    var detached: seq<bool>
    /** What each backward call was given, in call order. */
    var log: seq<(Layer, V)>

    ghost predicate Ok()
      reads this
    {
      && Mirrored(parent, child) && Valid(layers, parent)
      && TopoOrder(parent, layers, vfts) && TopoOrder(child, layers, vbts)
      && Valid(vfts, parent) && Valid(vbts, parent)
      && NoDup(lout) && AllIn(lout, vbts)
      && |output| == |delta| == |parent|
      && |states| == |deltaStates| == |detached| == |parent|
    }

    /** Deltas of the net's layers between two steps. */
    ghost predicate Clean()
      requires Ok()
      reads this
    {
      forall i :: 0 <= i < |vbts| ==> delta[vbts[i]].None? || delta[vbts[i]] == Some(kernel.zero)
    }

    constructor (parent: Links, child: Links, inputs: seq<Layer>, lout: seq<Layer>, layers: seq<Layer>,
                 vfts: seq<Layer>, vbts: seq<Layer>, memLevel: nat, kernel: Kernel<V>, output: seq<V>)
      requires Mirrored(parent, child) && Valid(layers, parent)
      requires TopoOrder(parent, layers, vfts) && TopoOrder(child, layers, vbts)
      requires NoDup(lout) && AllIn(lout, layers) && |output| == |parent|
      ensures Ok() && Clean() && this.output == output && log == []
      ensures this.parent == parent && this.child == child && this.inputs == inputs && this.lout == lout
      ensures this.layers == layers && this.vfts == vfts && this.vbts == vbts
      ensures this.memLevel == memLevel && this.kernel == kernel
      ensures forall l :: 0 <= l < |delta| ==> delta[l].None?
    {
      this.parent, this.child, this.inputs, this.lout := parent, child, inputs, lout;
      this.layers, this.vfts, this.vbts := layers, vfts, vbts;
      this.memLevel, this.kernel, this.output := memLevel, kernel, output;
      delta, log := seq(|parent|, _ => None), [];
      states, deltaStates := seq(|parent|, _ => []), seq(|parent|, _ => []);
      detached := seq(|parent|, _ => false);
      new;
      SortedStandsFor(parent, layers, vfts);
      SortedStandsFor(child, layers, vbts);
    }

    method DoForward()
      requires Ok()
      modifies this`output
      ensures Ok()
      ensures forall i :: 0 <= i < |vfts| && AllIn(parent[vfts[i]], vfts) ==>
        HoldsForward(kernel, parent, inputs, old(output), output, vfts[i])
      ensures forall i {:trigger vfts[i]} :: 0 <= i < |vfts| && AllIn(parent[vfts[i]], vfts) ==>
        output[vfts[i]] == if parent[vfts[i]] == [] && vfts[i] in inputs then old(output)[vfts[i]]
                           else kernel.fwd(vfts[i], Gather(output, parent[vfts[i]]))
      ensures forall l :: 0 <= l < |output| && l !in vfts ==> output[l] == old(output[l])
    {
      SortedStandsFor(parent, layers, vfts);
      output := RunForward(kernel, parent, inputs, vfts, output);
    }

    /** What a reset touches in layer l. */
    function At(l: Layer): Kept<V>
      requires Ok() && l < |parent|
      reads this
    {
      Kept(delta[l], states[l], deltaStates[l], detached[l])
    }

    /** With full memory the delta a layer has and its states become zero; at every memory level the
        layer is attached again. */
    function Reset(k: Kept<V>): Kept<V> {
      if memLevel == 0 && k.delta.Some?
      then Kept(Some(kernel.zero), Zeros(k.states), Zeros(k.deltaStates), false)
      else k.(detached := false)
    }

    function Zeros(st: seq<V>): seq<V> { seq(|st|, _ => kernel.zero) }

    /** Layer.reset on every layer of the net. */
    method DoReset()
      requires Ok()
      requires memLevel > 0 ==> Clean()
      modifies this`delta, this`states, this`deltaStates, this`detached
      ensures Ok() && Clean()
      ensures forall l: Layer :: l < |parent| ==> At(l) == if l in vbts then Reset(old(At(l))) else old(At(l))
      ensures forall l :: 0 <= l < |delta| ==> delta[l].None? == old(delta)[l].None?
      ensures forall l: Layer :: l < |parent| && l in vbts ==> !detached[l]
      ensures forall l: Layer :: l < |parent| && l in vbts && memLevel == 0 && old(delta)[l].Some? ==>
        && delta[l] == Some(kernel.zero)
        && AllZero(states[l], old(states)[l]) && AllZero(deltaStates[l], old(deltaStates)[l])
      ensures forall l: Layer :: l < |parent| && (l !in vbts || memLevel > 0 || old(delta)[l].None?) ==>
        delta[l] == old(delta)[l] && states[l] == old(states)[l] && deltaStates[l] == old(deltaStates)[l]
      ensures forall l: Layer :: l < |parent| && l !in vbts ==> detached[l] == old(detached)[l]
    {
      for i := 0 to |vbts|
        invariant Ok()
        invariant forall l: Layer :: l < |parent| ==>
          At(l) == if l in vbts[..i] then Reset(old(At(l))) else old(At(l))
      {
        assert vbts[i] !in vbts[..i] by {
          assert Pos(vbts, vbts[i]) == i && forall m :: 0 <= m < i ==> Pos(vbts, vbts[m]) == m;
        }
        TakeOneMore(vbts, i);
        ResetLayer(vbts[i]);
      }
      TakeAll(vbts);
      forall i | 0 <= i < |vbts| ensures delta[vbts[i]].None? || delta[vbts[i]] == Some(kernel.zero) {
        assert At(vbts[i]) == Reset(old(At(vbts[i])));
      }
      forall l | 0 <= l < |delta|
        ensures At(l) == if l in vbts then Reset(old(At(l))) else old(At(l))
        ensures delta[l].None? == old(delta)[l].None?
      {
        assert At(l) == if l in vbts then Reset(old(At(l))) else old(At(l));
      }
    }

    /** As many states as before, all zero. */
    ghost predicate AllZero(now: seq<V>, was: seq<V>) {
      |now| == |was| && forall k :: 0 <= k < |now| ==> now[k] == kernel.zero
    }

    /** Layer.reset. */
    method ResetLayer(l: Layer)
      requires Ok() && l < |parent|
      modifies this`delta, this`states, this`deltaStates, this`detached
      ensures Ok() && forall m: Layer :: m < |parent| ==> At(m) == if m == l then Reset(old(At(l))) else old(At(m))
    {
      if memLevel == 0 && delta[l].Some? {
        delta := delta[l := Some(kernel.zero)];
        states := states[l := Zeros(states[l])];
        deltaStates := deltaStates[l := Zeros(deltaStates[l])];
      }
      detached := detached[l := false];
    }

    method MemDelta(l: Layer)
      requires l < |delta|
      modifies this`delta
      ensures delta == old(delta)[l := Some(old(delta)[l].GetOr(kernel.zero))]
    {
      if delta[l].None? { delta := delta[l := Some(kernel.zero)]; }
    }

    method MemDeltaParent(l: Layer)
      requires Closed(parent) && l < |parent| == |delta|
      modifies this`delta
      ensures |delta| == |parent|
      ensures forall p :: 0 <= p < |delta| ==>
        delta[p] == if p in parent[l] then Some(old(delta)[p].GetOr(kernel.zero)) else old(delta)[p]
    {
      for k := 0 to |parent[l]|
        invariant |delta| == |parent|
        invariant forall p :: 0 <= p < |delta| ==>
          delta[p] == if p in parent[l][..k] then Some(old(delta)[p].GetOr(kernel.zero)) else old(delta)[p]
      {
        MemDelta(parent[l][k]);
      }
      assert parent[l][..|parent[l]|] == parent[l];
    }

    /** What the layer makes of its parents' deltas, all of them allocated. */
    method Backward(l: Layer)
      requires Closed(parent) && l < |parent| == |delta| && l !in parent[l]
      requires parent[l] != [] ==> delta[l].Some?
      requires forall p :: p in parent[l] ==> delta[p].Some?
      modifies this`delta, this`log
      ensures |delta| == |parent|
      ensures log == old(log) + [(l, old(delta)[l].GetOr(kernel.zero))]
      ensures forall p :: 0 <= p < |delta| ==> delta[p].None? == old(delta)[p].None?
      ensures forall p :: 0 <= p < |delta| ==>
        delta[p].GetOr(kernel.zero) == Sent(kernel, parent[l], l, old(delta)[l].GetOr(kernel.zero), p, |parent[l]|,
                                            old(delta)[p].GetOr(kernel.zero))
      ensures forall p :: 0 <= p < |delta| && p !in parent[l] ==> delta[p] == old(delta)[p]
      ensures forall p, k :: 0 <= p < |delta| && 0 <= k < |parent[l]| && OnlyAt(parent[l], p, k) ==>
        delta[p] == Some(kernel.give(l, k, old(delta)[l].value, old(delta)[p].value))
      ensures forall p {:trigger delta[p]} :: 0 <= p < |delta| && p in parent[l] ==>
        delta[p].Some? && PassesOn(kernel, parent[l], l, old(delta)[l].value, p, old(delta)[p].value, delta[p].value)
    {
      ghost var d := delta[l].GetOr(kernel.zero);
      log := log + [(l, delta[l].GetOr(kernel.zero))];
      for k := 0 to |parent[l]|
        invariant |delta| == |parent|
        invariant delta[l] == old(delta)[l]
        invariant forall p :: 0 <= p < |delta| ==> delta[p].None? == old(delta)[p].None?
        invariant log == old(log) + [(l, d)]
        invariant forall p :: 0 <= p < |delta| ==>
          delta[p].GetOr(kernel.zero) == Sent(kernel, parent[l], l, d, p, k, old(delta)[p].GetOr(kernel.zero))
      {
        var p := parent[l][k];
        delta := delta[p := Some(kernel.give(l, k, delta[l].value, delta[p].value))];
      }
      BackwardPasses(l, old(delta), d);
    }

    lemma BackwardPasses(l: Layer, was: seq<Option<V>>, d: V)
      requires l < |parent| == |delta| == |was| && d == was[l].GetOr(kernel.zero)
      requires parent[l] != [] ==> was[l].Some?
      requires forall p :: 0 <= p < |delta| ==> delta[p].None? == was[p].None?
      requires forall p :: p in parent[l] ==> p < |was| && was[p].Some?
      requires forall p :: 0 <= p < |delta| ==>
        delta[p].GetOr(kernel.zero) == Sent(kernel, parent[l], l, d, p, |parent[l]|, was[p].GetOr(kernel.zero))
      ensures forall p :: 0 <= p < |delta| && p !in parent[l] ==> delta[p] == was[p]
      ensures forall p, k :: 0 <= p < |delta| && 0 <= k < |parent[l]| && OnlyAt(parent[l], p, k) ==>
        delta[p] == Some(kernel.give(l, k, was[l].value, was[p].value))
      ensures forall p {:trigger delta[p]} :: 0 <= p < |delta| && p in parent[l] ==>
        delta[p].Some? && PassesOn(kernel, parent[l], l, was[l].value, p, was[p].value, delta[p].value)
    {
      var ps := parent[l];
      forall p | 0 <= p < |delta| && p !in ps ensures delta[p] == was[p] {
        NothingSent(kernel, ps, l, d, p, |ps|, was[p].GetOr(kernel.zero));
      }
      forall p, k | 0 <= p < |delta| && 0 <= k < |ps| && OnlyAt(ps, p, k)
        ensures delta[p] == Some(kernel.give(l, k, was[l].value, was[p].value))
      {
        assert ps[k] in ps;
        SentOnce(kernel, ps, l, d, p, k, was[p].GetOr(kernel.zero));
      }
      forall p | 0 <= p < |delta| && p in ps
        ensures delta[p].Some? && PassesOn(kernel, ps, l, was[l].value, p, was[p].value, delta[p].value)
      {
        var vals := SentPasses(kernel, ps, l, d, p, |ps|, was[p].value);
        TakeAll(ps);
      }
    }

    /** The loss deltas written at the outputs. */
    ghost function Seeds(): map<Layer, V>
      requires Ok()
      reads this
    {
      SeedMap(kernel, lout, output)
    }

    method DoDelta()
      requires Ok()
      modifies this`delta
      ensures Ok()
      ensures forall l :: 0 <= l < |delta| ==>
        delta[l] == if l in Seeds() then Some(Seeds()[l])
                    else if l in lout then Some(old(delta)[l].GetOr(kernel.zero))
                    else old(delta)[l]
      ensures forall i {:trigger lout[i]} :: 0 <= i < |lout| ==> lout[i] < |output|
      ensures forall i {:trigger lout[i]} :: 0 <= i < |lout| && kernel.loss(i, output[lout[i]]).Some? ==>
        delta[lout[i]] == kernel.loss(i, output[lout[i]])
      ensures forall i {:trigger lout[i]} :: 0 <= i < |lout| && kernel.loss(i, output[lout[i]]).None? ==>
        delta[lout[i]] == Some(old(delta)[lout[i]].GetOr(kernel.zero))
      ensures forall l :: 0 <= l < |delta| && l !in lout ==> delta[l] == old(delta)[l]
    {
      for i := 0 to |lout|
        invariant Ok()
        invariant forall l :: 0 <= l < |delta| ==>
          delta[l] == if l in lout[..i] && l in Seeds() then Some(Seeds()[l])
                      else if l in lout[..i] then Some(old(delta)[l].GetOr(kernel.zero))
                      else old(delta)[l]
      {
        var l := lout[i];
        MemDelta(l);
        var written := kernel.loss(i, output[l]);
        if written.Some? { delta := delta[l := written]; }
      }
      TakeAll(lout);
      SeedsAre();
    }

    lemma SeedsAre()
      requires Ok()
      ensures forall i {:trigger lout[i]} :: 0 <= i < |lout| ==>
        && lout[i] < |output|
        && (lout[i] in Seeds() <==> kernel.loss(i, output[lout[i]]).Some?)
        && (lout[i] in Seeds() ==> Seeds()[lout[i]] == kernel.loss(i, output[lout[i]]).value)
    {
      forall i | 0 <= i < |lout| ensures lout[i] in vbts && Pos(lout, lout[i]) == i {
      }
    }

    /** False stands for a dereferenced null delta. */
    method FreeDelta(l: Layer) returns (ok: bool)
      requires l < |delta|
      modifies this`delta
      ensures ok <==> l !in inputs || old(delta)[l].Some?
      ensures !ok ==> delta == old(delta)
      ensures ok ==> delta == old(delta)[l := if l in inputs then Some(kernel.zero) else None]
    {
      if l in inputs {
        if delta[l].None? { return false; }
        delta := delta[l := Some(kernel.zero)];
      } else if delta[l].Some? {
        delta := delta[l := None];
      }
      ok := true;
    }

    /** One round of the backward loop; false stands for a dereferenced null delta. */
    method Visit(l: Layer) returns (ok: bool)
      requires Closed(parent) && l < |parent| == |delta| && l !in parent[l]
      modifies this`delta, this`log
      ensures |delta| == |parent|
      ensures ok <==> old(delta)[l].Some? || (parent[l] == [] && (memLevel == 0 || l !in inputs))
      ensures ok ==> log == old(log) + [(l, old(delta)[l].GetOr(kernel.zero))]
      ensures ok ==> forall p :: 0 <= p < |delta| ==> Visited(kernel, parent, inputs, memLevel, l, old(delta), delta, p)
    {
      MemDeltaParent(l);
      if parent[l] != [] && delta[l].None? { return false; }
      Backward(l);
      ok := true;
      if memLevel > 0 { ok := FreeDelta(l); }
    }

    /** After the pass: freed (an input layer's is zeroed instead), or the complete gradient. */
    ghost predicate Released(seed: map<Layer, V>, i: nat)
      requires Ok() && i < |vbts|
      reads this
    {
      if memLevel > 0 then delta[vbts[i]] == if vbts[i] in inputs then Some(kernel.zero) else None
      else delta[vbts[i]].GetOr(kernel.zero) == Adjoint(kernel, parent, vbts, seed, vbts[i], |vbts|)
    }

    ghost predicate AllReleased(seed: map<Layer, V>)
      requires Ok()
      reads this
    {
      forall i {:trigger Released(seed, i)} :: 0 <= i < |vbts| ==> Released(seed, i)
    }

    ghost predicate AllMidway(seed: map<Layer, V>, d0: seq<Option<V>>, i: nat)
      requires Ok() && |d0| == |parent| && i <= |vbts|
      reads this
    {
      forall m {:trigger Midway(kernel, parent, inputs, vbts, memLevel, seed, d0, delta, i, m)} :: 0 <= m < |vbts| ==>
        Midway(kernel, parent, inputs, vbts, memLevel, seed, d0, delta, i, m)
    }

    method Round(i: nat, ghost seed: map<Layer, V>, ghost d0: seq<Option<V>>) returns (ok: bool)
      requires Ok() && |d0| == |parent| && i < |vbts| && AllMidway(seed, d0, i)
      modifies this`delta, this`log
      ensures Ok()
      ensures ok <==> Runs(d0, vbts[i])
      ensures ok ==> log == old(log) + [BackwardLog(kernel, parent, vbts, seed)[i]]
      ensures ok ==> AllMidway(seed, d0, i + 1)
    {
      SentToFed(parent, child, layers, vbts, i);
      NoLateParent(parent, child, layers, vbts, i, i);
      ghost var d := delta;
      assert Midway(kernel, parent, inputs, vbts, memLevel, seed, d0, d, i, i);
      ok := Visit(vbts[i]);
      if ok {
        ghost var next := i + 1;
        forall m | 0 <= m < |vbts|
          ensures Midway(kernel, parent, inputs, vbts, memLevel, seed, d0, delta, next, m)
        {
          assert Midway(kernel, parent, inputs, vbts, memLevel, seed, d0, d, i, m);
          VisitKeeps(kernel, parent, child, layers, inputs, vbts, memLevel, seed, d0, d, delta, i, m);
        }
      }
    }

    method DoBackward(ghost seed: map<Layer, V>) returns (ok: bool)
      requires Ok() && AllMidway(seed, delta, 0)
      modifies this`delta, this`log
      ensures Ok()
      ensures ok <==> forall i {:trigger Runs(old(delta), vbts[i])} :: 0 <= i < |vbts| ==> Runs(old(delta), vbts[i])
      ensures ok ==> log == old(log) + BackwardLog(kernel, parent, vbts, seed)
      ensures ok ==> AllReleased(seed)
    {
      ghost var d0 := delta;
      for i := 0 to |vbts|
        invariant Ok() && AllMidway(seed, d0, i)
        invariant log == old(log) + BackwardLog(kernel, parent, vbts, seed)[..i]
        invariant forall m {:trigger Runs(d0, vbts[m])} :: 0 <= m < i ==> Runs(d0, vbts[m])
      {
        var visited := Round(i, seed, d0);
        if !visited { return false; }
        TakeOneMore(BackwardLog(kernel, parent, vbts, seed), i);
      }
      TakeAll(BackwardLog(kernel, parent, vbts, seed));
      forall m | 0 <= m < |vbts| ensures Released(seed, m) {
        assert Midway(kernel, parent, inputs, vbts, memLevel, seed, d0, delta, |vbts|, m);
      }
      ok := true;
    }

    /** Layer l's backward finds a delta: it had one before the pass, or a layer of the net
        feeds from it, or it needs none. */
    ghost predicate Runs(d0: seq<Option<V>>, l: Layer)
      requires l < |child| == |parent| == |d0|
    {
      d0[l].Some? || Fed(child, layers, [], l) || Idle(parent, inputs, memLevel, l)
    }

    /** train_batch_t up to the weight update.  It fails, dereferencing a null delta, exactly when
        some layer that needs a delta is neither an output nor feeds a layer of the net.  What
        the backward calls see does not depend on mem_level. */
    method TrainStep() returns (ok: bool)
      requires Ok()
      requires memLevel > 0 ==> Clean()
      modifies this`output, this`delta, this`log, this`states, this`deltaStates, this`detached
      ensures Ok()
      ensures ok <==> forall i {:trigger vbts[i]} :: 0 <= i < |vbts| ==>
        || vbts[i] in lout || (exists k :: 0 <= k < |child[vbts[i]]| && child[vbts[i]][k] in layers)
        || old(delta)[vbts[i]].Some?
        || (parent[vbts[i]] == [] && (memLevel == 0 || vbts[i] !in inputs))
      ensures ok ==> log == old(log) + BackwardLog(kernel, parent, vbts, Seeds())
      ensures ok ==> |log| >= |old(log)| && Propagates(kernel, parent, lout, output, log[|old(log)|..])
      ensures ok ==> AllReleased(Seeds())
      ensures ok && memLevel > 0 ==> Clean()
      ensures ok && memLevel > 0 ==> forall i {:trigger vbts[i]} :: 0 <= i < |vbts| ==>
        delta[vbts[i]] == if vbts[i] in inputs then Some(kernel.zero) else None
      ensures Ok() && forall l :: 0 <= l < |output| && l !in vfts ==> output[l] == old(output[l])
      ensures forall i :: 0 <= i < |vfts| && AllIn(parent[vfts[i]], vfts) ==>
        HoldsForward(kernel, parent, inputs, old(output), output, vfts[i])
    {
      DoReset();
      ghost var reset := delta;
      DoForward();
      DoDelta();
      ghost var seed, seeded := Seeds(), delta;
      forall m | 0 <= m < |vbts|
        ensures Midway(kernel, parent, inputs, vbts, memLevel, seed, delta, delta, 0, m)
      {
      }
      ok := DoBackward(seed);
      BackwardPropagates(kernel, parent, lout, vbts, output);
      assert ok ==> log[|old(log)|..] == BackwardLog(kernel, parent, vbts, seed);
      forall i | 0 <= i < |vbts|
        ensures Runs(seeded, vbts[i])
          <==> Fed(child, layers, lout, vbts[i]) || reset[vbts[i]].Some? || Idle(parent, inputs, memLevel, vbts[i])
      {
      }
      if ok && memLevel > 0 {
        forall i | 0 <= i < |vbts|
          ensures delta[vbts[i]] == if vbts[i] in inputs then Some(kernel.zero) else None
        {
          assert Released(seed, i);
        }
      }
    }

    /** A step over a net that is complete and whose layers all lead to an output. */
    method CompleteStep()
      requires Ok() && (memLevel > 0 ==> Clean())
      requires LeadsOut(child, layers, lout) && HasParents(parent, vfts)
      modifies this`output, this`delta, this`log, this`states, this`deltaStates, this`detached
      ensures Ok() && Solves(kernel, parent, inputs, vfts, old(output), output)
      ensures log == old(log) + BackwardLog(kernel, parent, vbts, Seeds())
      ensures Propagates(kernel, parent, lout, output, log[|old(log)|..])
      ensures AllReleased(Seeds())
    {
      AllFed(child, layers, lout, vbts);
      var ok := TrainStep();
    }
  }

  /** Every layer leads to an output. */
  ghost predicate LeadsOut(child: Links, layers: seq<Layer>, outs: seq<Layer>) {
    forall l :: l in layers ==> ReachesOutput(child, layers, outs, l)
  }

  /** Every parent of a layer is in the list. */
  ghost predicate HasParents(parent: Links, order: seq<Layer>) {
    forall i {:trigger order[i]} :: 0 <= i < |order| && order[i] < |parent| ==> AllIn(parent[order[i]], order)
  }

  /** The outputs after a forward pass that started from `fed`. */
  ghost predicate Solves<V(!new)>(kernel: Kernel<V>, parent: Links, inputs: seq<Layer>, order: seq<Layer>, fed: seq<V>,
                                  output: seq<V>)
    requires Closed(parent) && Valid(order, parent)
  {
    && |output| == |fed| == |parent|
    && (forall i {:trigger order[i]} :: 0 <= i < |order| ==>
        HoldsForward(kernel, parent, inputs, fed, output, order[i]))
    && (forall l {:trigger output[l]} :: 0 <= l < |output| && l !in order ==> output[l] == fed[l])
  }

  /** Two trainers of the same net, apart from the memory level, in the same state. */
  ghost predicate SameNet<V(!new)>(a: Trainer<V>, b: Trainer<V>)
    reads a, b
  {
    && a.parent == b.parent && a.child == b.child && a.inputs == b.inputs && a.lout == b.lout
    && a.layers == b.layers && a.vfts == b.vfts && a.vbts == b.vbts
    && a.kernel == b.kernel && a.output == b.output && a.log == b.log
  }

  lemma SameOutputs<V(!new)>(kernel: Kernel<V>, parent: Links, inputs: seq<Layer>, order: seq<Layer>, fed: seq<V>,
                             a: seq<V>, b: seq<V>)
    requires Closed(parent) && Valid(order, parent) && ParentsFirst(parent, order, order) && HasParents(parent, order)
    requires Solves(kernel, parent, inputs, order, fed, a) && Solves(kernel, parent, inputs, order, fed, b)
    ensures a == b
  {
    ForwardUnique(kernel, parent, inputs, fed, order, a, b, |order|);
    forall l | 0 <= l < |a| ensures a[l] == b[l] {
      if l in order {
        assert order[Pos(order, l)] == l;
      }
    }
  }

  lemma AllFed(child: Links, layers: seq<Layer>, outs: seq<Layer>, vbts: seq<Layer>)
    requires Closed(child) && Valid(layers, child) && TopoOrder(child, layers, vbts) && LeadsOut(child, layers, outs)
    ensures forall i {:trigger vbts[i]} :: 0 <= i < |vbts| ==> vbts[i] < |child| && Fed(child, layers, outs, vbts[i])
  {
    SortedStandsFor(child, layers, vbts);
    AllFedIffAllReach(child, layers, outs, vbts);
    forall i | 0 <= i < |vbts| ensures vbts[i] < |child| && Fed(child, layers, outs, vbts[i]) {
      assert vbts[i] in layers;
    }
  }

  /** Saving memory changes nothing: in a net whose layers all lead to an output, a step with
      mem_level > 0 and a step with mem_level 0 both succeed, compute the same outputs and give every
      backward call the same delta; the first leaves every delta freed, the second every delta
      complete. */
  method LowMemoryRefinesFull<V(!new)>(low: Trainer<V>, full: Trainer<V>)
    requires low != full && low.Ok() && full.Ok() && SameNet(low, full)
    requires low.memLevel > 0 && full.memLevel == 0 && low.Clean()
    requires LeadsOut(low.child, low.layers, low.lout) && HasParents(low.parent, low.vfts)
    modifies low, full
    ensures low.output == full.output && low.log == full.log
    ensures low.Ok() && full.Ok() && low.AllReleased(low.Seeds()) && full.AllReleased(full.Seeds())
  {
    ghost var fed := low.output;
    SortedStandsFor(low.parent, low.layers, low.vfts);
    low.CompleteStep();
    full.CompleteStep();
    SameOutputs(low.kernel, low.parent, low.inputs, low.vfts, fed, low.output, full.output);
  }
}
