/** Running an unrolled net computes the recurrence of the net it was unrolled from. */
module RecurrentNets {
  import opened Arithmetic
  import opened Graphs
  import opened Sequences
  import opened Wrappers
  import opened Nets
  import opened Training
  import opened Unrolling

  /** A copy shares the parameters of its original, so both apply the same function. */
  ghost predicate SharesParams<V(!new)>(kernel: Kernel<V>, orig: seq<Option<Layer>>, base: nat) {
    forall l, xs {:trigger kernel.fwd(l, xs)} :: base <= l < |orig| && orig[l].Some? ==>
      kernel.fwd(l, xs) == kernel.fwd(orig[l].value, xs)
  }

  /** A set of layers that contains the parents of its members, all holding what their forward
      computes. */
  ghost predicate Computed<V(!new)>(kernel: Kernel<V>, parent: Links, inputs: seq<Layer>, fed: seq<V>, output: seq<V>,
                                    need: set<Layer>)
    requires Closed(parent) && |parent| == |fed| == |output|
  {
    forall l {:trigger HoldsForward(kernel, parent, inputs, fed, output, l)} :: l in need && l < |parent| ==>
      && HoldsForward(kernel, parent, inputs, fed, output, l)
      && forall k {:trigger parent[l][k]} :: 0 <= k < |parent[l]| ==> parent[l][k] in need
  }

  /** Exactly the copies of input layers are fed, each with its step's value. */
  ghost predicate FedRows<V(!new)>(src: Source, rows: seq<seq<Layer>>, inputs: seq<Layer>, fed: seq<V>,
                                   feed: (nat, nat) -> V) {
    forall i, j {:trigger rows[i][j] in inputs} :: 0 <= i < |rows| && 0 <= j < |rows[i]| ==>
      && (rows[i][j] in inputs <==> j < |src.lin|)
      && (j < |src.lin| ==> rows[i][j] < |fed| && fed[rows[i][j]] == feed(i, j))
  }

  /** How a copy that is not an input copy is linked. */
  lemma CopyLinks(src: Source, parent: Links, orig: seq<Option<Layer>>, rows: seq<seq<Layer>>, t: nat, j: nat)
    requires src.Ok() && src.Aligned() && |orig| == |parent| && Rows(src, parent, orig, rows)
    requires t < |rows| && |src.lin| <= j < |rows[t]| && j < |src.layers|
    ensures |src.parent| <= rows[t][j] < |parent| && orig[rows[t][j]] == Some(src.layers[j])
    ensures var l, ps, links := src.layers[j], src.parent[src.layers[j]], parent[rows[t][j]];
      && |links| == |ps| + (if src.recurrent[l] && t > 0 then 1 else 0)
      && (forall k :: 0 <= k < |ps| ==>
          ps[k] in src.layers && Pos(src.layers, ps[k]) < j && links[k] == rows[t][Pos(src.layers, ps[k])])
      && (src.recurrent[l] && t > 0 ==> Back(src, j) < |rows[t - 1]| && links[|ps|] == rows[t - 1][Back(src, j)])
  {
    InputByPosition(src, j);
    var cur, prev, l := rows[t], Before(rows, t), src.layers[j];
    assert Row(src, parent, orig, prev, cur, t);
    assert CopyOf(src, parent, orig, prev, cur, t, j);
    forall k | 0 <= k < |src.parent[l]|
      ensures src.parent[l][k] in src.layers && Pos(src.layers, src.parent[l][k]) < j
    {
      EarlierParent(src, j, k);
    }
  }

  /** The copy of layer l in row t ends up holding the recurrence's value for l at time t. */
  lemma {:induction false} CopyComputes<V(!new)>(src: Source, parent: Links, orig: seq<Option<Layer>>,
                                                 rows: seq<seq<Layer>>, kernel: Kernel<V>, inputs: seq<Layer>,
                                                 fed: seq<V>, output: seq<V>, need: set<Layer>, feed: (nat, nat) -> V,
                                                 t: nat, j: nat)
    requires src.Ok() && src.Aligned() && src.Complete()
    requires Closed(parent) && |orig| == |parent| == |fed| == |output| && Rows(src, parent, orig, rows)
    requires SharesParams(kernel, orig, |src.parent|)
    requires Computed(kernel, parent, inputs, fed, output, need) && FedRows(src, rows, inputs, fed, feed)
    requires t < |rows| && j < |rows[t]| && j < |src.layers| && rows[t][j] < |parent| && rows[t][j] in need
    ensures output[rows[t][j]] == Rec(src, kernel.fwd, feed, t, src.layers[j])
    decreases t, j
  {
    var id, l := rows[t][j], src.layers[j];
    assert HoldsForward(kernel, parent, inputs, fed, output, id);
    assert id in inputs <==> j < |src.lin|;
    InputByPosition(src, j);
    if j < |src.lin| {
      assert Row(src, parent, orig, Before(rows, t), rows[t], t);
      assert CopyOf(src, parent, orig, Before(rows, t), rows[t], t, j);
      assert parent[id] == [];
    } else {
      CopyLinks(src, parent, orig, rows, t, j);
      var ps, links := src.parent[l], parent[id];
      if src.recurrent[l] && t > 0 {
        var before := t - 1;
        var m := Back(src, j);
        assert links[|ps|] in need && links[|ps|] == rows[before][m] && rows[before][m] < |parent|;
        CopyComputes(src, parent, orig, rows, kernel, inputs, fed, output, need, feed, before, m);
      }
      forall k | 0 <= k < |ps|
        ensures output[links[k]] == Rec(src, kernel.fwd, feed, t, ps[k])
      {
        assert links[k] in need;
        CopyComputes(src, parent, orig, rows, kernel, inputs, fed, output, need, feed, t, Pos(src.layers, ps[k]));
      }
      ArgumentsMatch(src, kernel, parent, output, feed, t, l, id);
      assert output[id] == kernel.fwd(id, Gather(output, links)) == kernel.fwd(l, Gather(output, links));
    }
  }

  lemma ArgumentsMatch<V(!new)>(src: Source, kernel: Kernel<V>, parent: Links, output: seq<V>, feed: (nat, nat) -> V,
                                t: nat, l: Layer, id: Layer)
    requires src.Ok() && src.Complete() && l in src.layers && l !in src.lin && l < |src.parent|
    requires Closed(parent) && |parent| == |output| && id < |parent|
    requires src.past[l] in src.layers
    requires var ps := src.parent[l];
      && AllIn(ps, src.layers)
      && |parent[id]| == |ps| + (if src.recurrent[l] && t > 0 then 1 else 0)
      && (forall k :: 0 <= k < |ps| ==> output[parent[id][k]] == Rec(src, kernel.fwd, feed, t, ps[k]))
      && (src.recurrent[l] && t > 0 ==> output[parent[id][|ps|]] == Rec(src, kernel.fwd, feed, t - 1, src.past[l]))
    ensures kernel.fwd(l, Gather(output, parent[id])) == Rec(src, kernel.fwd, feed, t, l)
  {
    var ps := src.parent[l];
    var now := seq(|ps|, k requires 0 <= k < |ps| => Rec(src, kernel.fwd, feed, t, ps[k]));
    assert Gather(output, parent[id])
        == if src.recurrent[l] && t > 0 then now + [Rec(src, kernel.fwd, feed, t - 1, src.past[l])] else now;
  }

  // ---------------------------------------------------------------- the unrolled net

  method Flatten<T>(ss: seq<seq<T>>) returns (r: seq<T>)
    ensures r == Concat(ss)
  {
    r := [];
    for i := 0 to |ss|
      invariant r == Concat(ss[..i])
    {
      assert ss[..i + 1][..i] == ss[..i];
      r := r + ss[i];
    }
    assert ss[..|ss|] == ss;
  }

  lemma {:induction false} ParentPathDescends(parent: Links, base: nat, p: seq<Layer>, n: nat)
    requires CopiesOlder(parent, base) && Path(parent, p) && base <= p[0] && n < |p|
    ensures base <= p[n] && p[n] + n <= p[0]
  {
    if n > 0 {
      ParentPathDescends(parent, base, p, n - 1);
      assert p[n] in parent[p[n - 1]];
    }
  }

  lemma {:induction false} ChildPathStays(parent: Links, child: Links, base: nat, cut: seq<Layer>, p: seq<Layer>,
                                          n: nat)
    requires Mirrored(parent, child) && CopiesOlder(parent, base) && base <= |parent|
    requires forall l, k :: 0 <= l < base && 0 <= k < |parent[l]| ==> parent[l][k] < base
    requires Path(Prune(child, cut), p) && base <= p[0] && n < |p|
    ensures base <= p[n]
  {
    if n > 0 {
      ChildPathStays(parent, child, base, cut, p, n - 1);
      assert p[n] in Prune(child, cut)[p[n - 1]];
      assert p[n] in child[p[n - 1]];
      LinkBoth(parent, child, p[n - 1], p[n]);
    }
  }

  /** The walks of the Net constructor never leave the copies, and copies form no cycle. */
  lemma CopiesFormANet(parent: Links, child: Links, base: nat, ins: seq<Layer>, outs: seq<Layer>, layers: seq<Layer>)
    requires Mirrored(parent, child) && CopiesOlder(parent, base) && base <= |parent|
    requires forall l, k :: 0 <= l < base && 0 <= k < |parent[l]| ==> parent[l][k] < base
    requires (forall i :: 0 <= i < |ins| ==> base <= ins[i]) && (forall i :: 0 <= i < |outs| ==> base <= outs[i])
    requires forall v :: v in layers <==> InNet(parent, child, ins, outs, v)
    ensures Acyclic(parent, layers)
  {
    forall v | v in layers ensures base <= v {
      if ReachedFrom(parent, outs, v) {
        var i :| 0 <= i < |outs| && Reach(parent, outs[i], v);
        var p :| Path(parent, p) && p[0] == outs[i] && p[|p| - 1] == v;
        ParentPathDescends(parent, base, p, |p| - 1);
      } else {
        var i :| 0 <= i < |ins| && Reach(Prune(child, outs), ins[i], v);
        var p :| Path(Prune(child, outs), p) && p[0] == ins[i] && p[|p| - 1] == v;
        ChildPathStays(parent, child, base, outs, p, |p| - 1);
      }
    }
    forall p: seq<Layer> | Path(parent, p) && AllIn(p, layers) && |p| >= 2 ensures p[0] != p[|p| - 1] {
      ParentPathDescends(parent, base, p, |p| - 1);
    }
  }

  /** The values written into the input copies of each step. */
  method FeedInputs<V(!new)>(nin: seq<seq<Layer>>, xs: seq<seq<V>>, start: seq<V>) returns (fed: seq<V>)
    requires |xs| == |nin| && forall i :: 0 <= i < |nin| ==> |xs[i]| == |nin[i]|
    requires forall i, j :: 0 <= i < |nin| && 0 <= j < |nin[i]| ==> nin[i][j] < |start|
    requires Spread(nin) && forall i :: 0 <= i < |nin| ==> NoDup(nin[i])
    ensures |fed| == |start|
    ensures forall i, j :: 0 <= i < |nin| && 0 <= j < |nin[i]| ==> fed[nin[i][j]] == xs[i][j]
  {
    fed := start;
    for i := 0 to |nin|
      invariant |fed| == |start|
      invariant forall a, b :: 0 <= a < i && 0 <= b < |nin[a]| ==> fed[nin[a][b]] == xs[a][b]
    {
      for j := 0 to |nin[i]|
        invariant |fed| == |start|
        invariant forall b :: 0 <= b < j ==> fed[nin[i][b]] == xs[i][b]
        invariant forall a, b :: 0 <= a < i && 0 <= b < |nin[a]| ==> fed[nin[a][b]] == xs[a][b]
      {
        forall a, b | 0 <= a < i && 0 <= b < |nin[a]| ensures nin[a][b] != nin[i][j] {
          assert Below(nin[a], nin[i]);
        }
        assert forall b :: 0 <= b < j ==> Pos(nin[i], nin[i][b]) == b && Pos(nin[i], nin[i][j]) == j;
        fed := fed[nin[i][j] := xs[i][j]];
      }
    }
  }

  lemma InputIds(src: Source, parent: Links, orig: seq<Option<Layer>>, rows: seq<seq<Layer>>, nin: seq<seq<Layer>>,
                 nout: seq<seq<Layer>>, lout: seq<Layer>, from: int)
    requires src.Ok() && src.Aligned() && |orig| == |parent| && Rows(src, parent, orig, rows) && Spread(rows)
    requires Listed(src, rows, nin, nout, lout, from, 0)
    ensures Spread(nin)
    ensures forall i {:trigger nin[i]} :: 0 <= i < |nin| ==> |nin[i]| == |src.lin| && NoDup(nin[i])
    ensures forall i, j :: 0 <= i < |nin| && 0 <= j < |nin[i]| ==>
      |src.parent| <= nin[i][j] < |parent| && nin[i][j] == rows[i][j]
  {
    forall i | 0 <= i < |nin|
      ensures |nin[i]| == |src.lin| && NoDup(nin[i])
      ensures forall j :: 0 <= j < |nin[i]| ==> |src.parent| <= nin[i][j] < |parent| && nin[i][j] == rows[i][j]
    {
      RowIds(src, parent, orig, rows, i);
      var a, row := nin[i], rows[i];
      forall j | 0 <= j < |a| ensures Pos(a, a[j]) == j {
        assert row[Pos(a, a[j])] == row[j];
      }
    }
    forall i, k | 0 <= i < k < |nin| ensures Below(nin[i], nin[k]) {
      assert Below(rows[i], rows[k]);
    }
  }

  /** Feeding the input copies feeds the rows. */
  lemma InputsFeedRows<V(!new)>(src: Source, parent: Links, orig: seq<Option<Layer>>, rows: seq<seq<Layer>>,
                                nin: seq<seq<Layer>>, nout: seq<seq<Layer>>, lout: seq<Layer>, from: int, fed: seq<V>,
                                feed: (nat, nat) -> V)
    requires src.Ok() && src.Aligned() && |orig| == |parent| == |fed| && Rows(src, parent, orig, rows) && Spread(rows)
    requires Listed(src, rows, nin, nout, lout, from, 0)
    requires forall i, j :: 0 <= i < |rows| && 0 <= j < |src.lin| ==>
      j < |rows[i]| && rows[i][j] < |fed| && fed[rows[i][j]] == feed(i, j)
    ensures FedRows(src, rows, Concat(nin), fed, feed)
  {
    InputIds(src, parent, orig, rows, nin, nout, lout, from);
    forall i, j | 0 <= i < |rows| && 0 <= j < |rows[i]|
      ensures rows[i][j] in Concat(nin) <==> j < |src.lin|
    {
      InConcat(nin, rows[i][j]);
      RowIds(src, parent, orig, rows, i);
      if j < |src.lin| { assert nin[i][j] == rows[i][j]; }
      if k :| 0 <= k < |nin| && rows[i][j] in nin[k] {
        var m :| 0 <= m < |nin[k]| && nin[k][m] == rows[i][j];
        RowIds(src, parent, orig, rows, k);
        assert orig[rows[k][m]] == orig[rows[i][j]];
      }
    }
  }

  lemma DependsOn(parent: Links, outs: seq<Layer>, l: Layer, p: Layer)
    requires Closed(parent) && l < |parent| && p in parent[l] && ReachedFrom(parent, outs, l)
    ensures p < |parent| && ReachedFrom(parent, outs, p)
  {
    var i :| 0 <= i < |outs| && Reach(parent, outs[i], l);
    ReachThen(parent, outs[i], l, p);
  }

  ghost function Needed(parent: Links, outs: seq<Layer>): set<Layer> {
    set l: Layer | 0 <= l < |parent| && ReachedFrom(parent, outs, l)
  }

  /** Running the assembled net's layers in order computes everything the outputs need. */
  lemma RunComputes<V(!new)>(kernel: Kernel<V>, parent: Links, child: Links, ins: seq<Layer>, outs: seq<Layer>,
                             vfts: seq<Layer>, fed: seq<V>, output: seq<V>)
    requires Closed(parent) && |parent| == |fed| == |output| && Valid(vfts, parent)
    requires forall v :: v in vfts <==> InNet(parent, child, ins, outs, v)
    requires forall i :: 0 <= i < |vfts| && AllIn(parent[vfts[i]], vfts) ==>
      HoldsForward(kernel, parent, ins, fed, output, vfts[i])
    ensures Computed(kernel, parent, ins, fed, output, Needed(parent, outs))
  {
    forall l | l in Needed(parent, outs)
      ensures HoldsForward(kernel, parent, ins, fed, output, l)
      ensures forall k :: 0 <= k < |parent[l]| ==> parent[l][k] in Needed(parent, outs)
    {
      forall k | 0 <= k < |parent[l]| ensures parent[l][k] in vfts && parent[l][k] in Needed(parent, outs) {
        DependsOn(parent, outs, l, parent[l][k]);
        assert InNet(parent, child, ins, outs, parent[l][k]);
      }
      assert InNet(parent, child, ins, outs, l);
      var i := Pos(vfts, l);
      assert vfts[i] == l && AllIn(parent[l], vfts);
    }
  }

  /** Builds the net from the unrolled inputs and outputs, sorts it, feeds it and runs it. */
  method RunNet<V(!new)>(kernel: Kernel<V>, parent: Links, child: Links, ghost base: nat, ninl: seq<Layer>,
                         noutl: seq<Layer>, fed: seq<V>)
    returns (output: seq<V>)
    requires Mirrored(parent, child) && |fed| == |parent| && CopiesOlder(parent, base) && base <= |parent|
    requires forall l, k :: 0 <= l < base && 0 <= k < |parent[l]| ==> parent[l][k] < base
    requires forall i :: 0 <= i < |ninl| ==> base <= ninl[i] < |parent|
    requires forall i :: 0 <= i < |noutl| ==> base <= noutl[i] < |parent|
    ensures |output| == |parent|
    ensures Computed(kernel, parent, ninl, fed, output, Needed(parent, noutl))
  {
    var rnet := new Net(parent, child);
    var built := rnet.Assemble(ninl, noutl);
    CopiesFormANet(parent, child, base, ninl, noutl, rnet.layers);
    var made := rnet.MakeGraph();
    output := RunForward(kernel, parent, ninl, rnet.vfts, fed);
    RunComputes(kernel, parent, child, ninl, noutl, rnet.vfts, fed, output);
  }

  /** share() gives a copy the parameters of the layer it was made from. */
  function SharedKernel<V>(kernel: Kernel<V>, orig: seq<Option<Layer>>, base: nat): Kernel<V> {
    kernel.(fwd := (l: Layer, xs: seq<V>) =>
      kernel.fwd(if base <= l < |orig| && orig[l].Some? then orig[l].value else l, xs))
  }

  lemma {:induction false} RecByFunction<V(!new)>(src: Source, f: (Layer, seq<V>) -> V, g: (Layer, seq<V>) -> V,
                                                  feed: (nat, nat) -> V, t: nat, l: Layer)
    requires src.Ok() && src.Complete() && l in src.layers
    requires forall x, xs :: 0 <= x < |src.parent| ==> f(x, xs) == g(x, xs)
    ensures Rec(src, f, feed, t, l) == Rec(src, g, feed, t, l)
    decreases t, Pos(src.layers, l)
  {
    if l !in src.lin {
      var ps := src.parent[l];
      var i := Pos(src.layers, l);
      assert src.layers[i] == l;
      forall k | 0 <= k < |ps| ensures Rec(src, f, feed, t, ps[k]) == Rec(src, g, feed, t, ps[k]) {
        EarlierParent(src, i, k);
        RecByFunction(src, f, g, feed, t, ps[k]);
      }
      assert seq(|ps|, k requires 0 <= k < |ps| => Rec(src, f, feed, t, ps[k]))
          == seq(|ps|, k requires 0 <= k < |ps| => Rec(src, g, feed, t, ps[k]));
      if t > 0 { RecByFunction(src, f, g, feed, t - 1, src.past[l]); }
    }
  }

  function FedAt<V>(xs: seq<seq<V>>, blank: V): (nat, nat) -> V {
    (i: nat, j: nat) => if i < |xs| && j < |xs[i]| then xs[i][j] else blank
  }

  /** Output row i holds the recurrence's values at time i. */
  ghost predicate RowComputes<V(!new)>(net: Source, kernel: Kernel<V>, feed: (nat, nat) -> V, lout: seq<Layer>,
                                       outs: seq<Layer>, output: seq<V>, i: nat)
    requires net.Ok() && net.Complete()
  {
    && |outs| == |lout|
    && forall k {:trigger outs[k]} :: 0 <= k < |lout| ==>
         outs[k] < |output| && lout[k] in net.layers && output[outs[k]] == Rec(net, kernel.fwd, feed, i, lout[k])
  }

  lemma OutputComputes<V(!new)>(net: Source, src: Source, parent: Links, orig: seq<Option<Layer>>,
                                rows: seq<seq<Layer>>, nin: seq<seq<Layer>>, nout: seq<seq<Layer>>, lout: seq<Layer>,
                                from: int, kernel: Kernel<V>, fed: seq<V>, output: seq<V>, feed: (nat, nat) -> V,
                                i: nat, k: nat)
    requires net.Ok() && net.Complete() && src.Ok() && src.Aligned() && src.Complete()
    requires net.(layers := src.layers) == src
    requires forall x :: x in net.layers <==> x in src.layers
    requires Closed(parent) && |orig| == |parent| == |fed| == |output| && Rows(src, parent, orig, rows)
    requires forall l {:trigger orig[l]} :: |src.parent| <= l < |orig| && orig[l].Some? ==> orig[l].value < |src.parent|
    requires Listed(src, rows, nin, nout, lout, from, 0) && FedRows(src, rows, Concat(nin), fed, feed)
    requires Computed(SharedKernel(kernel, orig, |src.parent|), parent, Concat(nin), fed, output,
      Needed(parent, Concat(nout)))
    requires i < |rows| && i >= from && k < |lout|
    ensures |nout[i]| == |lout| && nout[i][k] < |parent| && lout[k] in net.layers
    ensures output[nout[i][k]] == Rec(net, kernel.fwd, feed, i, lout[k])
  {
    var shared := SharedKernel(kernel, orig, |src.parent|);
    assert IsOutRow(src, rows[i], lout, nout[i]);
    var id := nout[i][k];
    assert lout[k] in src.layers && id == rows[i][Pos(src.layers, lout[k])];
    var j := Pos(src.layers, lout[k]);
    RowIds(src, parent, orig, rows, i);
    InConcat(nout, id);
    ReachSelf(parent, id);
    assert Concat(nout)[Pos(Concat(nout), id)] == id;
    assert ReachedFrom(parent, Concat(nout), id);
    CopyComputes(src, parent, orig, rows, shared, Concat(nin), fed, output, Needed(parent, Concat(nout)), feed, i, j);
    RecByFunction(src, shared.fwd, kernel.fwd, feed, i, lout[k]);
    RecOrderFree(net, src, kernel.fwd, feed, i, lout[k]);
  }

  lemma OutputsCompute<V(!new)>(net: Source, src: Source, parent: Links, orig: seq<Option<Layer>>,
                                rows: seq<seq<Layer>>, nin: seq<seq<Layer>>, nout: seq<seq<Layer>>, lout: seq<Layer>,
                                from: int, kernel: Kernel<V>, fed: seq<V>, output: seq<V>, feed: (nat, nat) -> V,
                                i: nat)
    requires net.Ok() && net.Complete() && src.Ok() && src.Aligned() && src.Complete()
    requires net.(layers := src.layers) == src
    requires forall x :: x in net.layers <==> x in src.layers
    requires Closed(parent) && |orig| == |parent| == |fed| == |output| && Rows(src, parent, orig, rows)
    requires forall l {:trigger orig[l]} :: |src.parent| <= l < |orig| && orig[l].Some? ==> orig[l].value < |src.parent|
    requires Listed(src, rows, nin, nout, lout, from, 0) && FedRows(src, rows, Concat(nin), fed, feed)
    requires Computed(SharedKernel(kernel, orig, |src.parent|), parent, Concat(nin), fed, output,
      Needed(parent, Concat(nout)))
    requires i < |rows| && i >= from
    ensures RowComputes(net, kernel, feed, lout, nout[i], output, i)
  {
    assert IsOutRow(src, rows[i], lout, nout[i]);
    forall k | 0 <= k < |lout|
      ensures nout[i][k] < |output| && lout[k] in net.layers
        && output[nout[i][k]] == Rec(net, kernel.fwd, feed, i, lout[k])
    {
      OutputComputes(net, src, parent, orig, rows, nin, nout, lout, from, kernel, fed, output, feed, i, k);
    }
  }

  /** Builds, feeds and runs the net of the unrolled rows. */
  method RunUnrolled<V(!new)>(arena: Arena, kernel: Kernel<V>, nin: seq<seq<Layer>>, nout: seq<seq<Layer>>,
                              xs: seq<seq<V>>, blank: V, originals: nat, ghost net: Source, ghost src: Source,
                              ghost rows: seq<seq<Layer>>, lout: seq<Layer>, from: int)
    returns (output: seq<V>)
    requires arena.Grown(src) && src.Complete() && originals == |src.parent|
    requires Closed(src.parent)
    requires net.Ok() && net.Complete()
    requires net.(layers := src.layers) == src
    requires forall x :: x in net.layers <==> x in src.layers
    requires Rows(src, arena.parent, arena.orig, rows) && Spread(rows) && Listed(src, rows, nin, nout, lout, from, 0)
    requires |xs| == |nin| && forall i :: 0 <= i < |xs| ==> |xs[i]| == |src.lin|
    ensures forall i {:trigger nout[i]} :: 0 <= i < |rows| && i >= from ==>
      RowComputes(net, kernel, FedAt(xs, blank), lout, nout[i], output, i)
  {
    ghost var parent, orig := arena.parent, arena.orig;
    InputIds(src, parent, orig, rows, nin, nout, lout, from);
    var ninl := Flatten(nin);
    var noutl := Flatten(nout);
    CollectedAreCopies(src, parent, orig, rows, nin, nout, lout, from, ninl, noutl);
    var fed := FeedInputs(nin, xs, seq(|arena.parent|, _ => blank));
    forall i, j | 0 <= i < |rows| && 0 <= j < |src.lin|
      ensures j < |rows[i]| && rows[i][j] < |fed| && fed[rows[i][j]] == FedAt(xs, blank)(i, j)
    {
      assert nin[i][j] == rows[i][j];
    }
    InputsFeedRows(src, parent, orig, rows, nin, nout, lout, from, fed, FedAt(xs, blank));
    output := RunNet(SharedKernel(kernel, arena.orig, originals), arena.parent, arena.child, originals, ninl, noutl,
      fed);
    forall i | 0 <= i < |rows| && i >= from
      ensures RowComputes(net, kernel, FedAt(xs, blank), lout, nout[i], output, i)
    {
      OutputsCompute(net, src, parent, orig, rows, nin, nout, lout, from, kernel, fed, output, FedAt(xs, blank), i);
    }
  }

  /** The outputs of one step are the recurrence's values at time t. */
  ghost predicate StepComputes<V(!new)>(net: Source, kernel: Kernel<V>, feed: (nat, nat) -> V, lout: seq<Layer>,
                                        y: seq<V>, t: nat)
    requires net.Ok() && net.Complete()
  {
    |y| == |lout| && forall k {:trigger y[k]} :: 0 <= k < |lout| ==>
      lout[k] in net.layers && y[k] == Rec(net, kernel.fwd, feed, t, lout[k])
  }

  ghost predicate StepsCompute<V(!new)>(net: Source, kernel: Kernel<V>, feed: (nat, nat) -> V, lout: seq<Layer>,
                                        ys: seq<seq<V>>, from: nat)
    requires net.Ok() && net.Complete()
  {
    forall s {:trigger ys[s]} :: 0 <= s < |ys| ==> StepComputes(net, kernel, feed, lout, ys[s], from + s)
  }

  method ReadOutputs<V(!new)>(ghost net: Source, ghost kernel: Kernel<V>, ghost feed: (nat, nat) -> V,
                              ghost lout: seq<Layer>, output: seq<V>, nout: seq<seq<Layer>>, from: nat)
    returns (ys: seq<seq<V>>)
    requires net.Ok() && net.Complete() && from <= |nout|
    requires forall i {:trigger nout[i]} :: from <= i < |nout| ==>
      RowComputes(net, kernel, feed, lout, nout[i], output, i)
    ensures |ys| == |nout| - from
    ensures StepsCompute(net, kernel, feed, lout, ys, from)
  {
    ys := [];
    for i := from to |nout|
      invariant |ys| == i - from
      invariant forall s {:trigger ys[s]} :: 0 <= s < |ys| ==> StepComputes(net, kernel, feed, lout, ys[s], from + s)
    {
      assert RowComputes(net, kernel, feed, lout, nout[i], output, i);
      var y := Gather(output, nout[i]);
      forall k | 0 <= k < |lout| ensures lout[k] in net.layers && y[k] == Rec(net, kernel.fwd, feed, i, lout[k]) {
        assert nout[i][k] < |output|;
      }
      ys := ys + [y];
    }
  }

  /** The step at which outputs start. */
  function FirstStep(inl: nat, outl: nat): nat {
    if outl <= inl then inl - outl else 0
  }

  /** The call itself, with the links to the step before that the lookup by position makes. */
  method ForwardLinked<V(!new)>(arena: Arena, kernel: Kernel<V>, vfts: seq<Layer>, lin: seq<Layer>, lout: seq<Layer>,
                                inl: nat, outl: nat, xs: seq<seq<V>>, blank: V)
    returns (ok: bool, ys: seq<seq<V>>)
    requires arena.Ok() && CanUnroll(arena.parent, arena.child, arena.recurrent, vfts, lin, lout)
    requires inl >= 1 && outl >= 1 && |xs| == inl && SameWidth(xs, |lin|)
    modifies arena
    ensures Computes(AsLinked(old(arena.parent), old(arena.child), old(arena.recurrent), vfts, lin), kernel, lout,
      inl, outl, FedAt(xs, blank), ok, ys)
  {
    ghost var net := AsLinked(arena.parent, arena.child, arena.recurrent, vfts, lin);
    FrnnOrderIsForward(arena.parent, arena.child, arena.recurrent, vfts);
    LaidMembers(FrnnOrder(arena.child, arena.recurrent, vfts), lin);
    var originals := |arena.parent|;
    var nin, nout;
    ghost var src, rows;
    ok, nin, nout, src, rows := arena.UnrollEnc(vfts, lin, lout, inl, outl);
    NetOk(net, src);
    ys := [];
    if ok {
      var output := RunUnrolled(arena, kernel, nin, nout, xs, blank, originals, net, src, rows, lout, inl - outl);
      ys := ReadOutputs(net, kernel, FedAt(xs, blank), lout, output, nout, FirstStep(inl, outl));
    }
  }

  /** A forward call on a recurrent encoder net: unroll it for the input's length, build and sort
      the unrolled net, feed one input per step, run it, and read the outputs of the last steps.
      It fails exactly when some layer of the net other than an input has a parent outside it.
      Otherwise step s of the result holds, at time FirstStep(inl, outl) + s, the values of the
      recurrence in which a recurrent layer takes from the step before what the lookup by position
      finds; when all recurrent layers come after the inputs that is its own value. */
  method ForwardRecurrent<V(!new)>(arena: Arena, kernel: Kernel<V>, vfts: seq<Layer>, lin: seq<Layer>,
                                   lout: seq<Layer>, inl: nat, outl: nat, xs: seq<seq<V>>, blank: V)
    returns (ok: bool, ys: seq<seq<V>>)
    requires arena.Ok() && CanUnroll(arena.parent, arena.child, arena.recurrent, vfts, lin, lout)
    requires inl >= 1 && outl >= 1 && |xs| == inl && SameWidth(xs, |lin|)
    modifies arena
    ensures Computes(AsLinked(old(arena.parent), old(arena.child), old(arena.recurrent), vfts, lin), kernel, lout,
      inl, outl, FedAt(xs, blank), ok, ys)
    ensures Timely(FrnnOrder(old(arena.child), old(arena.recurrent), vfts), old(arena.recurrent), lin) ==>
      Computes(AsMeant(old(arena.parent), old(arena.recurrent), vfts, lin), kernel, lout,
        inl, outl, FedAt(xs, blank), ok, ys)
  {
    ghost var parent, child, recurrent := arena.parent, arena.child, arena.recurrent;
    ok, ys := ForwardLinked(arena, kernel, vfts, lin, lout, inl, outl, xs, blank);
    if Timely(FrnnOrder(child, recurrent, vfts), recurrent, lin) {
      TimelyComputes(parent, child, recurrent, vfts, lin, lout, kernel, inl, outl, FedAt(xs, blank), ok, ys);
    }
  }

  lemma TimelyComputes<V(!new)>(parent: Links, child: Links, recurrent: seq<bool>, vfts: seq<Layer>, lin: seq<Layer>,
                                lout: seq<Layer>, kernel: Kernel<V>, inl: nat, outl: nat, feed: (nat, nat) -> V,
                                ok: bool, ys: seq<seq<V>>)
    requires Mirrored(parent, child) && CanUnroll(parent, child, recurrent, vfts, lin, lout)
    requires Timely(FrnnOrder(child, recurrent, vfts), recurrent, lin)
    requires Computes(AsLinked(parent, child, recurrent, vfts, lin), kernel, lout, inl, outl, feed, ok, ys)
    ensures Computes(AsMeant(parent, recurrent, vfts, lin), kernel, lout, inl, outl, feed, ok, ys)
  {
    var layers := FrnnOrder(child, recurrent, vfts);
    FrnnOrderIsForward(parent, child, recurrent, vfts);
    LaidIsOrdered(parent, recurrent, layers, lin);
    LaidMembers(layers, lin);
    var src, net := Unrolled(parent, recurrent, layers, lin), AsLinked(parent, child, recurrent, vfts, lin);
    OwnPastIff(src, layers);
    OwnComputes(net, AsMeant(parent, recurrent, vfts, lin), src, kernel, lout, inl, outl, feed, ok, ys);
  }

  /** The net with the links to the step before that the lookup by position makes. */
  ghost function AsLinked(parent: Links, child: Links, recurrent: seq<bool>, vfts: seq<Layer>, lin: seq<Layer>): Source
    requires |recurrent| == |child| && forall i :: 0 <= i < |vfts| ==> vfts[i] < |child|
  {
    Source(parent, recurrent, vfts, lin, Linked(|parent|, FrnnOrder(child, recurrent, vfts), lin))
  }

  /** The net in which every recurrent layer takes its own value from the step before. */
  ghost function AsMeant(parent: Links, recurrent: seq<bool>, vfts: seq<Layer>, lin: seq<Layer>): Source {
    Source(parent, recurrent, vfts, lin, UpTo(|parent|))
  }

  /** What a forward call promises: failure exactly on an incomplete net, and otherwise, at each of
      the last steps, the values of the recurrence for the given feed. */
  ghost predicate Computes<V(!new)>(net: Source, kernel: Kernel<V>, lout: seq<Layer>, inl: nat, outl: nat,
                                    feed: (nat, nat) -> V, ok: bool, ys: seq<seq<V>>)
  {
    && net.Ok() && (ok <==> net.Complete())
    && (ok ==> |ys| == if outl <= inl then outl else inl)
    && (ok ==> StepsCompute(net, kernel, feed, lout, ys, FirstStep(inl, outl)))
  }

  /** The same net, its layers in another forward order. */
  lemma NetOk(net: Source, src: Source)
    requires src.Ok() && net.(layers := src.layers) == src && forall x :: x in net.layers <==> x in src.layers
    requires Valid(net.layers, net.parent) && ParentsFirst(net.parent, net.layers, net.layers)
    ensures net.Ok() && (net.Complete() <==> src.Complete())
  {
    forall i | 0 <= i < |net.lin| ensures net.lin[i] in net.layers {
      assert net.lin[i] in src.layers;
    }
    if net.Complete() { SameComplete(net, src); }
    if src.Complete() { SameComplete(src, net); }
  }

  /** When the lookup finds every recurrent layer's own copy, the recurrence is the one meant. */
  lemma OwnComputes<V(!new)>(net: Source, own: Source, src: Source, kernel: Kernel<V>, lout: seq<Layer>, inl: nat,
                             outl: nat, feed: (nat, nat) -> V, ok: bool, ys: seq<seq<V>>)
    requires Computes(net, kernel, lout, inl, outl, feed, ok, ys)
    requires own == net.(past := UpTo(|net.parent|)) && src.OwnPast()
    requires net.(layers := src.layers) == src && forall x :: x in net.layers <==> x in src.layers
    ensures Computes(own, kernel, lout, inl, outl, feed, ok, ys)
  {
    forall l: Layer | net.Remembers(l) ensures net.past[l] == l {
      assert src.Remembers(l);
    }
    assert own.Ok() && SamePast(net, own) && (own.Complete() <==> net.Complete());
    if ok {
      forall s | 0 <= s < |ys| ensures StepComputes(own, kernel, feed, lout, ys[s], FirstStep(inl, outl) + s) {
        SameStep(net, own, kernel, feed, lout, ys[s], FirstStep(inl, outl) + s);
      }
    }
  }

  lemma SameStep<V(!new)>(net: Source, own: Source, kernel: Kernel<V>, feed: (nat, nat) -> V, lout: seq<Layer>,
                          y: seq<V>, t: nat)
    requires net.Ok() && net.Complete() && own.Ok() && own.Complete() && SamePast(net, own)
    requires own == net.(past := own.past) && StepComputes(net, kernel, feed, lout, y, t)
    ensures StepComputes(own, kernel, feed, lout, y, t)
  {
    forall k | 0 <= k < |lout| ensures lout[k] in own.layers && y[k] == Rec(own, kernel.fwd, feed, t, lout[k]) {
      var v := y[k];
      assert lout[k] in net.layers && v == Rec(net, kernel.fwd, feed, t, lout[k]);
      RecOrderFree(net, own, kernel.fwd, feed, t, lout[k]);
    }
  }

  /** The recurrence the unrolled net computes is the one meant, for all layer functions and feeds and
      at every layer, exactly when all recurrent layers come after the inputs. */
  lemma MeaningKeptIff(parent: Links, child: Links, recurrent: seq<bool>, vfts: seq<Layer>, lin: seq<Layer>)
    requires Mirrored(parent, child) && CanUnroll(parent, child, recurrent, vfts, lin, [])
    requires AsMeant(parent, recurrent, vfts, lin).Complete()
    ensures AsLinked(parent, child, recurrent, vfts, lin).Ok()
    ensures AsLinked(parent, child, recurrent, vfts, lin).Complete()
    ensures SameMeaning(AsLinked(parent, child, recurrent, vfts, lin))
      <==> Timely(FrnnOrder(child, recurrent, vfts), recurrent, lin)
  {
    var layers := FrnnOrder(child, recurrent, vfts);
    FrnnOrderIsForward(parent, child, recurrent, vfts);
    LaidIsOrdered(parent, recurrent, layers, lin);
    var src, net := Unrolled(parent, recurrent, layers, lin), AsLinked(parent, child, recurrent, vfts, lin);
    LaidMembers(layers, lin);
    NetOk(net, src);
    assert forall l: Layer :: net.Remembers(l) <==> src.Remembers(l);
    OwnPastIff(src, layers);
    SameMeaningIff(net);
  }

  const SMALL_PARENT: Links := [[], [0]]
  const SMALL_CHILD: Links := [[1], []]

  lemma SmallMirrored()
    ensures Mirrored(SMALL_PARENT, SMALL_CHILD)
  {
    var parent, child := SMALL_PARENT, SMALL_CHILD;
    forall p, c | 0 <= p < |child| && 0 <= c < |child| ensures multiset(child[p])[c] == multiset(parent[c])[p] {
      assert p == 0 || p == 1;
      assert c == 0 || c == 1;
    }
  }

  lemma SmallAcyclic()
    ensures Acyclic(SMALL_CHILD, UpTo(|SMALL_CHILD|))
  {
    var child := SMALL_CHILD;
    forall p: seq<Layer> | Path(child, p) && |p| >= 2 ensures p[0] != p[|p| - 1] {
      var last, before := |p| - 1, |p| - 2;
      assert p[1] in child[p[0]] && p[last] in child[p[before]];
      assert p[0] == 0 && p[last] == 1;
    }
  }

  /** A net that can be unrolled, with no parent outside: an input that feeds a recurrent layer, which is
      the output. */
  lemma SomeNetUnrolls()
    ensures Mirrored(SMALL_PARENT, SMALL_CHILD)
    ensures CanUnroll(SMALL_PARENT, SMALL_CHILD, [false, true], [0, 1], [0], [1])
    ensures AsMeant(SMALL_PARENT, [false, true], [0, 1], [0]).Complete()
  {
    SmallMirrored();
    SmallAcyclic();
    SmallOrdered();
    var lin: seq<Layer> := [0];
    assert NoDup(lin);
  }

  lemma SmallOrdered()
    ensures Valid([0, 1], SMALL_PARENT) && ParentsFirst(SMALL_PARENT, [0, 1], [0, 1])
  {
    var vfts: seq<Layer> := [0, 1];
    assert vfts[..1] == [0] && SMALL_PARENT[vfts[1]][0] == 0;
    assert NoDup(vfts);
  }

  // ---------------------------------------------------------------- a lookup that misses

  lemma MisalignedAcyclic()
    ensures Acyclic(MISALIGNED_CHILD, UpTo(|MISALIGNED_CHILD|))
  {
    var child := MISALIGNED_CHILD;
    forall p: seq<Layer> | Path(child, p) && |p| >= 2 ensures p[0] != p[|p| - 1] {
      var last, before := |p| - 1, |p| - 2;
      assert p[1] in child[p[0]] && p[last] in child[p[before]];
      assert p[0] == 1 && p[last] == 2;
    }
  }

  lemma MisalignedOrdered()
    ensures Valid([0, 1, 2], MISALIGNED_CHILD) && ParentsFirst(MISALIGNED_PARENT, [0, 1, 2], [0, 1, 2])
  {
    var vfts: seq<Layer> := [0, 1, 2];
    assert NoDup(vfts) && vfts[..2][1] == 1;
  }

  lemma MisalignedUnrolls()
    ensures Mirrored(MISALIGNED_PARENT, MISALIGNED_CHILD)
    ensures CanUnroll(MISALIGNED_PARENT, MISALIGNED_CHILD, MISALIGNED_RECURRENT, [0, 1, 2], [0, 1], [2])
  {
    MisalignedMirrored();
    MisalignedAcyclic();
    MisalignedOrdered();
    var vfts: seq<Layer>, lin: seq<Layer>, lout: seq<Layer> := [0, 1, 2], [0, 1], [2];
    assert NoDup(lin) && AllIn(lin, vfts) && AllIn(lout, vfts);
  }

  lemma MisalignedLaid(src: Source)
    requires LaidFrom(src, [1, 2, 0]) && src.lin == [0, 1] && |src.parent| == 3
    ensures src.layers == [0, 1, 2] && src.past[2] == 1 && Back(src, 2) == 1
  {
    var layers: seq<Layer> := [1, 2, 0];
    MisalignedLate();
    var laid := Laid(layers, [0, 1]);
    assert 2 in layers && laid[Pos(laid, 2)] == 2 && laid[..2][0] == 0 && laid[..2][1] == 1;
    assert layers[Pos(layers, 2)] == 2 && Pos(layers, 2) == 1;
    assert Pos(src.layers, 1) == 1;
  }

  lemma MisalignedLinks(src: Source, parent: Links, orig: seq<Option<Layer>>, rows: seq<seq<Layer>>,
                        nin: seq<seq<Layer>>, nout: seq<seq<Layer>>)
    requires src.Aligned() && src.parent == MISALIGNED_PARENT && src.recurrent == MISALIGNED_RECURRENT
    requires src.lin == [0, 1] && LaidFrom(src, [1, 2, 0])
    requires |orig| == |parent| && Rows(src, parent, orig, rows) && |rows| == 2
    requires Listed(src, rows, nin, nout, [2], 1, 0)
    ensures MissesIn(parent, orig, nin, nout)
  {
    MisalignedLaid(src);
    RowIds(src, parent, orig, rows, 0);
    RowIds(src, parent, orig, rows, 1);
    assert src.layers[Pos(src.layers, 1)] == 1 && src.layers[Pos(src.layers, 2)] == 2;
    assert nin[0] == rows[0][..2] && nin[1] == rows[1][..2] && IsOutRow(src, rows[1], [2], nout[1]);
    assert nout[1][0] == rows[1][2];
    CopyLinks(src, parent, orig, rows, 1, 2);
  }

  /** The second row's copy of layer 2 is linked to its row's copy of layer 1 and to the first row's copy
      of layer 1. */
  ghost predicate MissesIn(parent: Links, orig: seq<Option<Layer>>, nin: seq<seq<Layer>>, nout: seq<seq<Layer>>) {
    && |nin| == |nout| == 2 && |nin[0]| == |nin[1]| == 2 && |nout[1]| == 1
    && nin[0][1] < |orig| && nout[1][0] < |orig| == |parent|
    && orig[nin[0][1]] == Some(1) && orig[nout[1][0]] == Some(2)
    && parent[nout[1][0]] == [nin[1][1], nin[0][1]]
  }

  /** Unrolling that net for two steps and one output: the recurrent layer's copy is linked to the
      previous copy of another layer, which the lookup by position finds. */
  method LinksToAnother() returns (parent: Links, orig: seq<Option<Layer>>, nin: seq<seq<Layer>>, nout: seq<seq<Layer>>)
    ensures MissesIn(parent, orig, nin, nout)
  {
    MisalignedUnrolls();
    LookupMisses();
    var arena := new Arena(MISALIGNED_PARENT, MISALIGNED_CHILD, MISALIGNED_RECURRENT);
    var ok;
    ghost var src, rows;
    ok, nin, nout, src, rows := arena.UnrollEnc([0, 1, 2], [0, 1], [2], 2, 1);
    MisalignedComplete(src);
    parent, orig := arena.parent, arena.orig;
    MisalignedLinks(src, parent, orig, rows, nin, nout);
  }

  lemma MisalignedComplete(src: Source)
    requires src.parent == MISALIGNED_PARENT && src.lin == [0, 1] && LaidFrom(src, [1, 2, 0])
    ensures src.Complete()
  {
    MisalignedLaid(src);
  }

  lemma MisalignedRecalls(past: seq<Layer>, feed: (nat, nat) -> nat)
    requires |past| == 3 && forall l: Layer :: l < 3 ==> past[l] < 3
    requires feed(0, 0) == 0 && feed(0, 1) == 1
    ensures var net := Source(MISALIGNED_PARENT, MISALIGNED_RECURRENT, [0, 1, 2], [0, 1], past);
      net.Ok() && net.Complete() && Rec(net, Recall(2, 1), feed, 1, 2) == past[2]
  {
    var net := Source(MISALIGNED_PARENT, MISALIGNED_RECURRENT, [0, 1, 2], [0, 1], past);
    MisalignedOrdered();
    assert NoDup(net.lin);
    forall l: Layer | l in net.layers && l < |past| ensures past[l] in net.layers {
      assert net.layers[past[l]] == past[l];
    }
    RecallsPast(net, 2, feed);
  }

  lemma MisalignedPast()
    ensures var past := Linked(3, [1, 2, 0], [0, 1]);
      past[2] == 1 && forall l: Layer :: l < 3 ==> past[l] < 3
  {
    var layers: seq<Layer>, lin: seq<Layer> := [1, 2, 0], [0, 1];
    var laid := Laid(layers, lin);
    MisalignedLate();
    assert layers[0] == 1 && layers[1] == 2 && layers[2] == 0 && NoDup(layers) && NoDup(lin);
    LaidMembers(layers, lin);
    assert laid[..2][1] == 1 && layers[Pos(layers, 2)] == 2 && Pos(layers, 2) == 1;
    forall m | 0 <= m < |laid| ensures laid[m] < 3 {
      assert laid[m] in layers;
    }
  }

  /** What one output of the second step must be. */
  lemma MisalignedOutcome(past: seq<Layer>, kernel: Kernel<nat>, feed: (nat, nat) -> nat, ok: bool, ys: seq<seq<nat>>)
    requires |past| == 3 && (forall l: Layer :: l < 3 ==> past[l] < 3) && kernel.fwd == Recall(2, 1)
    requires feed(0, 0) == 0 && feed(0, 1) == 1
    requires Computes(Source(MISALIGNED_PARENT, MISALIGNED_RECURRENT, [0, 1, 2], [0, 1], past), kernel, [2], 2, 1,
      feed, ok, ys)
    ensures ok && ys == [[past[2]]]
  {
    var net := Source(MISALIGNED_PARENT, MISALIGNED_RECURRENT, [0, 1, 2], [0, 1], past);
    var lout: seq<Layer> := [2];
    MisalignedRecalls(past, feed);
    var y := ys[0];
    assert StepComputes(net, kernel, feed, lout, y, 1);
    var v := y[0];
    assert v == Rec(net, kernel.fwd, feed, 1, lout[0]) == past[2];
    assert y == [v] && ys == [y];
  }

  lemma MisalignedShows(net: Source, kernel: Kernel<nat>, feed: (nat, nat) -> nat, ok: bool, ys: seq<seq<nat>>)
    requires kernel.fwd == Recall(2, 1) && feed(0, 0) == 0 && feed(0, 1) == 1
    requires net == AsLinked(MISALIGNED_PARENT, MISALIGNED_CHILD, MISALIGNED_RECURRENT, [0, 1, 2], [0, 1])
    requires Computes(net, kernel, [2], 2, 1, feed, ok, ys)
    ensures ok && ys == [[1]]
    ensures !Computes(AsMeant(MISALIGNED_PARENT, MISALIGNED_RECURRENT, [0, 1, 2], [0, 1]), kernel,
      [2], 2, 1, feed, ok, ys)
  {
    LookupMisses();
    MisalignedPast();
    MisalignedOutcome(Linked(3, [1, 2, 0], [0, 1]), kernel, feed, ok, ys);
    if Computes(AsMeant(MISALIGNED_PARENT, MISALIGNED_RECURRENT, [0, 1, 2], [0, 1]), kernel, [2], 2, 1, feed, ok, ys) {
      MisalignedOutcome(UpTo(3), kernel, feed, ok, ys);
    }
  }

  method RunMisaligned(kernel: Kernel<nat>, xs: seq<seq<nat>>) returns (ok: bool, ys: seq<seq<nat>>)
    requires |xs| == 2 && SameWidth(xs, 2)
    ensures Computes(AsLinked(MISALIGNED_PARENT, MISALIGNED_CHILD, MISALIGNED_RECURRENT, [0, 1, 2], [0, 1]), kernel,
      [2], 2, 1, FedAt(xs, 0), ok, ys)
  {
    MisalignedUnrolls();
    var arena := new Arena(MISALIGNED_PARENT, MISALIGNED_CHILD, MISALIGNED_RECURRENT);
    ok, ys := ForwardRecurrent(arena, kernel, [0, 1, 2], [0, 1], [2], 2, 1, xs, 0);
  }

  /** Running it: the recurrent layer shows the past of layer 1, which is not the value meant. */
  method ShowsAnother(kernel: Kernel<nat>) returns (ok: bool, ys: seq<seq<nat>>)
    requires kernel.fwd == Recall(2, 1)
    ensures ok && ys == [[1]]
    ensures !Computes(AsMeant(MISALIGNED_PARENT, MISALIGNED_RECURRENT, [0, 1, 2], [0, 1]), kernel, [2], 2, 1,
      FedAt([[0, 1], [0, 1]], 0), ok, ys)
  {
    ghost var net := AsLinked(MISALIGNED_PARENT, MISALIGNED_CHILD, MISALIGNED_RECURRENT, [0, 1, 2], [0, 1]);
    var xs := [[0, 1], [0, 1]];
    ok, ys := RunMisaligned(kernel, xs);
    MisalignedShows(net, kernel, FedAt(xs, 0), ok, ys);
  }

  // ---------------------------------------------------------------- feeding a flat list

  /** prepare_recurrent_enc: step j of input i, one input after the other. */
  method PrepareInputs<V>(xt: seq<seq<V>>, inl: nat) returns (tinr: seq<V>)
    requires SameWidth(xt, inl)
    ensures tinr == Concat(xt) && |tinr| == |xt| * inl
  {
    tinr := [];
    for i := 0 to |xt|
      invariant tinr == Concat(xt[..i])
    {
      ConcatPrefix(xt, i);
      for j := 0 to inl
        invariant tinr == Concat(xt[..i]) + xt[i][..j]
      {
        tinr := tinr + [xt[i][j]];
      }
      TakeAll(xt[i]);
    }
    TakeAll(xt);
    ConcatLength(xt, inl);
  }

  /** Where prepare_recurrent_enc puts step j of input i. */
  function PutAt(i: nat, j: nat, inl: nat): nat { i * inl + j }

  /** Where the unrolled net, whose inputs are listed step after step, takes step j of input i from. */
  function TakenFrom(i: nat, j: nat, n: nat): nat { j * n + i }

  lemma RowInside(j: nat, n: nat, inl: nat)
    requires j < inl
    ensures 0 <= j * n && j * n + n <= n * inl
  {
    MulMono(j + 1, inl, n);
    assert (j + 1) * n == j * n + n;
  }

  function StepInputs<V>(tinr: seq<V>, n: nat, inl: nat, j: nat): (x: seq<V>)
    requires |tinr| == n * inl && j < inl
    ensures |x| == n
  {
    RowInside(j, n, inl);
    tinr[j * n..j * n + n]
  }

  lemma StepInput<V>(tinr: seq<V>, n: nat, inl: nat, j: nat, i: nat)
    requires |tinr| == n * inl && j < inl && i < n
    ensures TakenFrom(i, j, n) < |tinr| && StepInputs(tinr, n, inl, j)[i] == tinr[TakenFrom(i, j, n)]
  {
    RowInside(j, n, inl);
  }

  /** What the unrolled net feeds at each step, taking the list by position. */
  function ByStep<V>(tinr: seq<V>, n: nat, inl: nat): (xs: seq<seq<V>>)
    requires |tinr| == n * inl
    ensures |xs| == inl && SameWidth(xs, n)
    ensures forall j :: 0 <= j < inl ==> xs[j] == StepInputs(tinr, n, inl, j)
  {
    seq(inl, j requires 0 <= j < inl => StepInputs(tinr, n, inl, j))
  }

  /** What each step should be fed. */
  function Transposed<V>(xt: seq<seq<V>>, inl: nat): (xs: seq<seq<V>>)
    requires SameWidth(xt, inl)
    ensures |xs| == inl && SameWidth(xs, |xt|)
    ensures forall j, i {:trigger xs[j][i]} :: 0 <= j < inl && 0 <= i < |xt| ==> xs[j][i] == xt[i][j]
  {
    seq(inl, j requires 0 <= j < inl => seq(|xt|, i requires 0 <= i < |xt| => xt[i][j]))
  }

  /** The list is written and read at the same positions only with one input or one step. */
  lemma PositionsAgreeIff(n: nat, inl: nat)
    ensures (forall i, j {:trigger PutAt(i, j, inl)} :: 0 <= i < n && 0 <= j < inl ==>
      PutAt(i, j, inl) == TakenFrom(i, j, n))
       <==> n <= 1 || inl <= 1
  {
    if n > 1 && inl > 1 {
      assert PutAt(0, 1, inl) == 1 && TakenFrom(0, 1, n) == n;
    }
  }

  /** Whatever the inputs, each step is fed its own values exactly when there is one input or one
      step; otherwise the given values make a wrong feed. */
  lemma FeedOrderIff<V(!new)>(n: nat, inl: nat, a: V, b: V)
    requires a != b
    ensures (forall xt: seq<seq<V>> {:trigger Concat(xt)} :: |xt| == n && SameWidth(xt, inl) ==>
               |Concat(xt)| == n * inl && ByStep(Concat(xt), n, inl) == Transposed(xt, inl))
       <==> n <= 1 || inl <= 1
  {
    if n <= 1 || inl <= 1 {
      forall xt: seq<seq<V>> | |xt| == n && SameWidth(xt, inl)
        ensures |Concat(xt)| == n * inl && ByStep(Concat(xt), n, inl) == Transposed(xt, inl)
      {
        FeedsAlike(xt, inl);
      }
    } else {
      var xt := seq(n, i => seq(inl, j => if i == 0 && j == 1 then b else a));
      assert SameWidth(xt, inl);
      ConcatLength(xt, inl);
      ConcatCell(xt, inl, 0, 1);
      StepInput(Concat(xt), n, inl, 0, 1);
      assert TakenFrom(1, 0, n) == 1 == 0 * inl + 1;
      assert ByStep(Concat(xt), n, inl)[0][1] == b && Transposed(xt, inl)[0][1] == a;
    }
  }

  lemma FeedsAlike<V>(xt: seq<seq<V>>, inl: nat)
    requires SameWidth(xt, inl) && (|xt| <= 1 || inl <= 1)
    ensures |Concat(xt)| == |xt| * inl && ByStep(Concat(xt), |xt|, inl) == Transposed(xt, inl)
  {
    var n := |xt|;
    ConcatLength(xt, inl);
    PositionsAgreeIff(n, inl);
    forall j, i | 0 <= j < inl && 0 <= i < n ensures ByStep(Concat(xt), n, inl)[j][i] == xt[i][j] {
      ConcatCell(xt, inl, i, j);
      StepInput(Concat(xt), n, inl, j, i);
      assert PutAt(i, j, inl) == TakenFrom(i, j, n);
    }
    forall j | 0 <= j < inl ensures ByStep(Concat(xt), n, inl)[j] == Transposed(xt, inl)[j] {
    }
  }

  /** A forward call as the program makes it: the inputs are flattened and fed by position.  The
      result is the recurrence's for what each step is fed, and so for the inputs themselves when
      there is one input or one step. */
  method ForwardFlat<V(!new)>(arena: Arena, kernel: Kernel<V>, vfts: seq<Layer>, lin: seq<Layer>, lout: seq<Layer>,
                              inl: nat, outl: nat, xt: seq<seq<V>>, blank: V) returns (ok: bool, ys: seq<seq<V>>)
    requires arena.Ok() && CanUnroll(arena.parent, arena.child, arena.recurrent, vfts, lin, lout)
    requires inl >= 1 && outl >= 1 && |xt| == |lin| && SameWidth(xt, inl)
    modifies arena
    ensures |Concat(xt)| == |lin| * inl
    ensures var net := AsLinked(old(arena.parent), old(arena.child), old(arena.recurrent), vfts, lin);
      && Computes(net, kernel, lout, inl, outl, FedAt(ByStep(Concat(xt), |lin|, inl), blank), ok, ys)
      && (|lin| <= 1 || inl <= 1 ==> Computes(net, kernel, lout, inl, outl, FedAt(Transposed(xt, inl), blank), ok, ys))
    ensures Timely(FrnnOrder(old(arena.child), old(arena.recurrent), vfts), old(arena.recurrent), lin) ==>
      var net := AsMeant(old(arena.parent), old(arena.recurrent), vfts, lin);
      && Computes(net, kernel, lout, inl, outl, FedAt(ByStep(Concat(xt), |lin|, inl), blank), ok, ys)
      && (|lin| <= 1 || inl <= 1 ==> Computes(net, kernel, lout, inl, outl, FedAt(Transposed(xt, inl), blank), ok, ys))
  {
    var tinr := PrepareInputs(xt, inl);
    var xs := ByStep(tinr, |lin|, inl);
    if |lin| <= 1 || inl <= 1 { FeedsAlike(xt, inl); }
    ok, ys := ForwardRecurrent(arena, kernel, vfts, lin, lout, inl, outl, xs, blank);
  }

  lemma SameComplete(a: Source, b: Source)
    requires a.Ok() && b.Ok() && a.parent == b.parent && a.lin == b.lin
    requires forall x :: x in a.layers <==> x in b.layers
    requires a.Complete()
    ensures b.Complete()
  {
    forall j | 0 <= j < |b.layers| && b.layers[j] !in b.lin ensures AllIn(b.parent[b.layers[j]], b.layers) {
      var l := b.layers[j];
      assert a.layers[Pos(a.layers, l)] == l;
      assert AllIn(a.parent[l], a.layers);
    }
  }

  /** All collected inputs and outputs are copies. */
  lemma CollectedAreCopies(src: Source, parent: Links, orig: seq<Option<Layer>>, rows: seq<seq<Layer>>,
                           nin: seq<seq<Layer>>, nout: seq<seq<Layer>>, lout: seq<Layer>, from: int, ninl: seq<Layer>,
                           noutl: seq<Layer>)
    requires src.Ok() && src.Aligned() && |orig| == |parent| && Rows(src, parent, orig, rows) && Spread(rows)
    requires Listed(src, rows, nin, nout, lout, from, 0) && ninl == Concat(nin) && noutl == Concat(nout)
    ensures forall i :: 0 <= i < |ninl| ==> |src.parent| <= ninl[i] < |parent|
    ensures forall i :: 0 <= i < |noutl| ==> |src.parent| <= noutl[i] < |parent|
  {
    InputIds(src, parent, orig, rows, nin, nout, lout, from);
    forall i | 0 <= i < |ninl| ensures |src.parent| <= ninl[i] < |parent| {
      InConcat(nin, ninl[i]);
      var a :| 0 <= a < |nin| && ninl[i] in nin[a];
      var b :| 0 <= b < |nin[a]| && nin[a][b] == ninl[i];
    }
    forall i | 0 <= i < |noutl| ensures |src.parent| <= noutl[i] < |parent| {
      InConcat(nout, noutl[i]);
      var a :| 0 <= a < |nout| && noutl[i] in nout[a];
      RowIds(src, parent, orig, rows, a);
      var b :| 0 <= b < |nout[a]| && nout[a][b] == noutl[i];
      assert nout[a] != [] ==> a >= from;
      assert IsOutRow(src, rows[a], lout, nout[a]);
      assert nout[a][b] == rows[a][Pos(src.layers, lout[b])];
    }
  }
}
