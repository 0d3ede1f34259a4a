/** Network construction: layer collection by graph walks, and the forward and backward
    topological sorts. */
module Nets {
  import opened Graphs
  import opened Sequences

  /** What one walk from `root` adds to the list of visited layers. */
  ghost predicate Explored(next: Links, root: Layer, before: seq<Layer>, after: seq<Layer>)
    requires root < |next|
  {
    && Valid(after, next)
    && before <= after
    && root in after
    && (forall v {:trigger Reach(next, root, v)} :: v in after && v !in before ==> Reach(next, root, v))
    && (forall v {:trigger next[v]} :: v in after && v !in before ==> AllIn(next[v], after))
  }

  /** Midway through a walk from `root`: the layers in `done` have been walked from. */
  ghost predicate Exploring(next: Links, root: Layer, done: seq<Layer>, before: seq<Layer>, now: seq<Layer>)
    requires root < |next|
  {
    && Valid(now, next) && before + [root] <= now && AllIn(done, now)
    && (forall v {:trigger Reach(next, root, v)} :: v in now && v !in before ==> Reach(next, root, v))
    && (forall v {:trigger next[v]} :: v in now && v !in before && v != root ==> AllIn(next[v], now))
  }

  lemma ExploringStarts(next: Links, root: Layer, before: seq<Layer>)
    requires root < |next| && Valid(before, next) && root !in before
    ensures Exploring(next, root, [], before, before + [root])
  {
    ReachSelf(next, root);
    AppendDistinct(before, [root]);
  }

  lemma ExploringGrows(next: Links, root: Layer, i: nat, before: seq<Layer>, mid: seq<Layer>, now: seq<Layer>)
    requires Closed(next) && root < |next| && i < |next[root]|
    requires Exploring(next, root, next[root][..i], before, mid) && Explored(next, next[root][i], mid, now)
    ensures Exploring(next, root, next[root][..i + 1], before, now)
  {
    var c := next[root][i];
    TakeOneMore(next[root], i);
    forall v | v in now && v !in before ensures Reach(next, root, v) {
      if v !in mid {
        assert Reach(next, c, v);
        ReachVia(next, root, c, v);
      }
    }
    forall v | v in now && v !in before && v != root ensures AllIn(next[v], now) {
      if v in mid { assert AllIn(next[v], mid); }
    }
    var done := next[root][..i + 1];
    forall k | 0 <= k < |done| ensures done[k] in now {
      if k < i { assert done[k] == next[root][..i][k]; }
    }
  }

  lemma ExploringEnds(next: Links, root: Layer, before: seq<Layer>, now: seq<Layer>)
    requires root < |next| && Exploring(next, root, next[root], before, now)
    ensures Explored(next, root, before, now)
  {
    assert now[|before|] == root;
  }

  /** The visited list after walking from each of `roots` in turn. */
  ghost predicate ExploredAll(next: Links, roots: seq<Layer>, after: seq<Layer>) {
    && Valid(after, next)
    && AllIn(roots, after)
    && (forall v {:trigger ReachedFrom(next, roots, v)} :: v in after ==> ReachedFrom(next, roots, v))
    && ClosedUnder(next, after)
  }

  ghost predicate ReachedFrom(next: Links, roots: seq<Layer>, v: Layer) {
    exists i :: 0 <= i < |roots| && Reach(next, roots[i], v)
  }

  lemma ExploredIsReached(next: Links, roots: seq<Layer>, after: seq<Layer>)
    requires ExploredAll(next, roots, after)
    ensures forall v :: v in after <==> ReachedFrom(next, roots, v)
  {
    forall v | ReachedFrom(next, roots, v) ensures v in after {
      var i :| 0 <= i < |roots| && Reach(next, roots[i], v);
      var p :| Path(next, p) && p[0] == roots[i] && p[|p| - 1] == v;
      ClosedHoldsPath(next, after, p, |p| - 1);
    }
  }

  lemma ExploreOneMore(next: Links, roots: seq<Layer>, n: nat, before: seq<Layer>, after: seq<Layer>)
    requires n < |roots| && roots[n] < |next|
    requires ExploredAll(next, roots[..n], before) && Explored(next, roots[n], before, after)
    ensures ExploredAll(next, roots[..n + 1], after)
  {
    forall v | v in after ensures ReachedFrom(next, roots[..n + 1], v) {
      if v in before {
        assert ReachedFrom(next, roots[..n], v);
        var i :| 0 <= i < n && Reach(next, roots[..n][i], v);
        assert roots[..n + 1][i] == roots[..n][i];
      } else {
        assert roots[..n + 1][n] == roots[n] && Reach(next, roots[n], v);
      }
    }
    var rs := roots[..n + 1];
    forall i | 0 <= i < |rs| ensures rs[i] in after {
      if i < n { assert rs[i] == roots[..n][i]; }
    }
  }

  /** The layers a net consists of: everything reachable from the inputs without passing an
      output, and every ancestor of an output. */
  ghost predicate InNet(parent: Links, child: Links, ins: seq<Layer>, outs: seq<Layer>, v: Layer) {
    ReachedFrom(Prune(child, outs), ins, v) || ReachedFrom(parent, outs, v)
  }

  method CountIn(ps: seq<Layer>, layers: seq<Layer>) returns (n: nat)
    ensures n == Missing(ps, layers, [])
  {
    n := 0;
    for j := 0 to |ps|
      invariant n == Missing(ps[..j], layers, [])
    {
      assert ps[..j + 1][..j] == ps[..j];
      if ps[j] in layers { n := n + 1; }
    }
    assert ps[..|ps|] == ps;
  }

  /** Each entry of `ds` lowers the counter of the layer it names. */
  method LowerCounters(layers: seq<Layer>, ds: seq<Layer>, degree: array<int>)
    requires degree.Length == |layers|
    modifies degree
    ensures forall m :: 0 <= m < |layers| ==> degree[m] == old(degree[m]) - multiset(ds)[layers[m]]
  {
    for k := 0 to |ds|
      invariant forall m :: 0 <= m < |layers| ==> degree[m] == old(degree[m]) - multiset(ds[..k])[layers[m]]
    {
      assert ds[..k + 1] == ds[..k] + [ds[k]];
      ghost var entry := degree[..];
      for n := 0 to |layers|
        invariant forall m :: 0 <= m < |layers| ==>
          degree[m] == entry[m] - if m < n && layers[m] == ds[k] then 1 else 0
      {
        if layers[n] == ds[k] { degree[n] := degree[n] - 1; }
      }
    }
    assert ds[..|ds|] == ds;
  }

  /** Counters of the sort: visited layers are those placed, and an unplaced layer's counter says how
      many of its links lead to layers not placed yet. */
  ghost predicate Counted(up: Links, layers: seq<Layer>, order: seq<Layer>, visit: seq<bool>, degree: seq<int>)
    requires Valid(layers, up)
  {
    && |visit| == |degree| == |layers|
    && (forall m {:trigger visit[m]} :: 0 <= m < |layers| ==> visit[m] == (layers[m] in order))
    && (forall m {:trigger degree[m]} :: 0 <= m < |layers| && layers[m] !in order ==>
          degree[m] == Missing(up[layers[m]], layers, order))
  }

  lemma ReadyIsZero(up: Links, layers: seq<Layer>, order: seq<Layer>, visit: seq<bool>, degree: seq<int>, m: nat)
    requires Valid(layers, up) && Counted(up, layers, order, visit, degree) && m < |layers|
    ensures Ready(up, layers, order, layers[m]) <==> degree[m] == 0 && !visit[m]
  {
    MissingZero(up[layers[m]], layers, order);
  }

  /** Placing the first ready layer and lowering the counters of the layers it links to. */
  lemma PlacingKeepsCounts(up: Links, down: Links, layers: seq<Layer>, order: seq<Layer>, visit: seq<bool>,
                           degree: seq<int>, j: nat, lowered: seq<int>)
    requires Mirrored(up, down) && Valid(layers, up) && Counted(up, layers, order, visit, degree)
    requires FirstReady(up, layers, order, j) && Greedy(up, layers, order)
    requires |lowered| == |degree|
    requires forall m :: 0 <= m < |layers| ==> lowered[m] == degree[m] - multiset(down[layers[j]])[layers[m]]
    ensures Counted(up, layers, order + [layers[j]], visit[j := true], lowered)
    ensures Greedy(up, layers, order + [layers[j]])
  {
    var x := layers[j];
    var after := order + [x];
    forall m | 0 <= m < |layers| ensures visit[j := true][m] == (layers[m] in after) {
      assert Pos(layers, layers[m]) == m && Pos(layers, layers[j]) == j;
    }
    forall m | 0 <= m < |layers| && layers[m] !in after ensures lowered[m] == Missing(up[layers[m]], layers, after) {
      MissingStep(up[layers[m]], layers, order, x);
    }
    forall i | 0 <= i < |after| ensures Picks(up, layers, after[..i], after[i]) {
      if i < |order| {
        assert after[..i] == order[..i];
      } else {
        assert after[..i] == order;
      }
    }
  }

  method InitialCounts(up: Links, layers: seq<Layer>, visit: array<bool>, degree: array<int>)
    requires Valid(layers, up) && visit.Length == degree.Length == |layers|
    modifies visit, degree
    ensures Counted(up, layers, [], visit[..], degree[..])
  {
    for i := 0 to |layers|
      invariant forall m :: 0 <= m < i ==> !visit[m] && degree[m] == Missing(up[layers[m]], layers, [])
    {
      visit[i] := false;
      degree[i] := CountIn(up[layers[i]], layers);
    }
  }

  /** The first layer not visited whose counter is zero, or the number of layers. */
  method FirstZero(visit: array<bool>, degree: array<int>) returns (j: nat)
    requires visit.Length == degree.Length
    ensures j <= degree.Length && (j < degree.Length ==> degree[j] == 0 && !visit[j])
    ensures forall m :: 0 <= m < j ==> degree[m] != 0 || visit[m]
  {
    j := 0;
    while j < degree.Length && !(degree[j] == 0 && !visit[j])
      invariant 0 <= j <= degree.Length
      invariant forall m :: 0 <= m < j ==> degree[m] != 0 || visit[m]
    {
      j := j + 1;
    }
  }

  /** Repeatedly places the first layer whose counter is zero, then lowers the counters of the
      layers it links to.  fts and bts are this loop with the two kinds of link exchanged. */
  method CountingSort(up: Links, down: Links, layers: seq<Layer>) returns (ok: bool, order: seq<Layer>)
    requires Mirrored(up, down) && Valid(layers, up)
    ensures ok <==> Acyclic(up, layers)
    ensures ok ==> TopoOrder(up, layers, order)
    ensures Greedy(up, layers, order) && (ok <==> |order| == |layers|)
  {
    var visit := new bool[|layers|];
    var degree := new int[|layers|];
    order := [];
    InitialCounts(up, layers, visit, degree);
    for i := 0 to |layers|
      invariant |order| == i && Greedy(up, layers, order)
      invariant Counted(up, layers, order, visit[..], degree[..])
    {
      var j := FirstZero(visit, degree);
      forall m | 0 <= m < |layers|
        ensures Ready(up, layers, order, layers[m]) <==> degree[m] == 0 && !visit[m]
      {
        ReadyIsZero(up, layers, order, visit[..], degree[..], m);
      }
      if j == |layers| {
        StuckMeansCycle(up, layers, order);
        return false, order;
      }
      ghost var visit0, degree0 := visit[..], degree[..];
      visit[j] := true;
      LowerCounters(layers, down[layers[j]], degree);
      assert visit[..] == visit0[j := true];
      PlacingKeepsCounts(up, down, layers, order, visit0, degree0, j, degree[..]);
      order := order + [layers[j]];
    }
    GreedyIsOrdered(up, layers, order);
    OrderedIsAcyclic(up, layers, order);
    ok := true;
  }

  class Net {
    const parent: Links
    const child: Links
    var lin: seq<Layer>
    var lout: seq<Layer>
    var layers: seq<Layer>
    var layersf: seq<Layer>
    var layersb: seq<Layer>
    var vfts: seq<Layer>
    var vbts: seq<Layer>

    constructor (parent: Links, child: Links)
      ensures this.parent == parent && this.child == child
      ensures layersf == [] && layersb == [] && layers == []
    {
      this.parent, this.child := parent, child;
      lin, lout, layers, layersf, layersb, vfts, vbts := [], [], [], [], [], [], [];
    }

    /** Forward sort; false stands for the thrown "error recurrent net". */
    method Fts() returns (ok: bool)
      requires Mirrored(parent, child) && Valid(layers, parent)
      modifies this`vfts
      ensures ok <==> Acyclic(parent, layers)
      ensures ok ==> TopoOrder(parent, layers, vfts)
      ensures Greedy(parent, layers, vfts)
      ensures ParentsFirst(parent, layers, layers) ==> ok && vfts == layers
    {
      ok, vfts := CountingSort(parent, child, layers);
      GreedyIsOrdered(parent, layers, vfts);
      if ParentsFirst(parent, layers, layers) {
        SortOfSorted(parent, layers, vfts);
      }
    }

    /** Backward sort: the same discipline on child links. */
    method Bts() returns (ok: bool)
      requires Mirrored(parent, child) && Valid(layers, parent)
      modifies this`vbts
      ensures ok <==> Acyclic(child, layers)
      ensures ok ==> TopoOrder(child, layers, vbts)
      ensures Greedy(child, layers, vbts)
    {
      assert Mirrored(child, parent);
      ok, vbts := CountingSort(child, parent, layers);
    }

    method Walk(l: Layer, cut: seq<Layer>)
      requires Closed(child) && Valid(layersf, child) && l < |child|
      modifies this`layersf
      ensures Explored(Prune(child, cut), l, old(layersf), layersf)
      decreases |child| - |layersf|
    {
      ghost var next, before := Prune(child, cut), layersf;
      if l in layersf { return; }
      ExploringStarts(next, l, before);
      layersf := layersf + [l];
      DistinctInRange(layersf, |child|);
      if l in cut {
        ExploringEnds(next, l, before, layersf);
        return;
      }
      for i := 0 to |child[l]|
        invariant Exploring(next, l, child[l][..i], before, layersf)
      {
        ghost var mid := layersf;
        Walk(child[l][i], cut);
        ExploringGrows(next, l, i, before, mid, layersf);
      }
      TakeAll(child[l]);
      ExploringEnds(next, l, before, layersf);
    }

    method WalkBack(l: Layer)
      requires Closed(parent) && Valid(layersb, parent) && l < |parent|
      modifies this`layersb
      ensures Explored(parent, l, old(layersb), layersb)
      decreases |parent| - |layersb|
    {
      ghost var before := layersb;
      if l in layersb { return; }
      ExploringStarts(parent, l, before);
      layersb := layersb + [l];
      DistinctInRange(layersb, |parent|);
      for i := 0 to |parent[l]|
        invariant Exploring(parent, l, parent[l][..i], before, layersb)
      {
        ghost var mid := layersb;
        WalkBack(parent[l][i]);
        ExploringGrows(parent, l, i, before, mid, layersb);
      }
      TakeAll(parent[l]);
      ExploringEnds(parent, l, before, layersb);
    }

    /** Walks forward from every input, stopping at outputs. */
    method WalkInputs()
      requires Closed(child) && layersf == []
      requires forall i :: 0 <= i < |lin| ==> lin[i] < |child|
      modifies this`layersf
      ensures Valid(layersf, child)
      ensures forall v :: v in layersf <==> ReachedFrom(Prune(child, lout), lin, v)
    {
      ghost var next := Prune(child, lout);
      for i := 0 to |lin|
        invariant Valid(layersf, child) && ExploredAll(next, lin[..i], layersf)
      {
        ghost var before := layersf;
        Walk(lin[i], lout);
        ExploreOneMore(next, lin, i, before, layersf);
      }
      assert lin[..|lin|] == lin;
      ExploredIsReached(next, lin, layersf);
    }

    /** Walks backward from every output. */
    method WalkOutputs()
      requires Closed(parent) && layersb == []
      requires forall i :: 0 <= i < |lout| ==> lout[i] < |parent|
      modifies this`layersb
      ensures Valid(layersb, parent)
      ensures forall v :: v in layersb <==> ReachedFrom(parent, lout, v)
    {
      for i := 0 to |lout|
        invariant Valid(layersb, parent) && ExploredAll(parent, lout[..i], layersb)
      {
        ghost var before := layersb;
        WalkBack(lout[i]);
        ExploreOneMore(parent, lout, i, before, layersb);
      }
      assert lout[..|lout|] == lout;
      ExploredIsReached(parent, lout, layersb);
    }

    /** Appends to the forward layers those found only by the backward walk. */
    method Merge()
      requires Valid(layersf, parent) && Valid(layersb, parent)
      modifies this`layers
      ensures Valid(layers, parent)
      ensures forall v :: v in layers <==> v in layersf || v in layersb
    {
      layers := layersf;
      for i := 0 to |layersb|
        invariant Valid(layers, parent)
        invariant forall v :: v in layers <==> v in layersf || v in layersb[..i]
      {
        if layersb[i] !in layers { layers := layers + [layersb[i]]; }
      }
    }

    /** Net(in, out): collects the layers and keeps them in forward order. */
    method Assemble(ins: seq<Layer>, outs: seq<Layer>) returns (ok: bool)
      requires Mirrored(parent, child)
      requires layersf == [] && layersb == [] && layers == []
      requires forall i :: 0 <= i < |ins| ==> ins[i] < |parent|
      requires forall i :: 0 <= i < |outs| ==> outs[i] < |parent|
      modifies this
      ensures lin == ins && lout == outs
      ensures Valid(layers, parent)
      ensures forall v :: v in layers <==> InNet(parent, child, ins, outs, v)
      ensures ok <==> Acyclic(parent, layers)
      ensures ok ==> ParentsFirst(parent, layers, layers) && vfts == []
    {
      lin, lout := ins, outs;
      WalkInputs();
      WalkOutputs();
      Merge();
      ok := Fts();
      if ok {
        SortedStandsFor(parent, layers, vfts);
        layers := vfts;
        vfts := [];
      }
    }

    /** The two sorts done when the net is built.  They succeed together, and the forward order
        of an assembled net is the order its layers are already kept in. */
    method MakeGraph() returns (ok: bool)
      requires Mirrored(parent, child) && Valid(layers, parent)
      modifies this`vfts, this`vbts
      ensures ok <==> Acyclic(parent, layers)
      ensures ok ==> TopoOrder(parent, layers, vfts) && TopoOrder(child, layers, vbts)
      ensures ParentsFirst(parent, layers, layers) ==> ok && vfts == layers
    {
      ok := Fts();
      if ok {
        AcyclicBothWays(parent, child, layers);
        ok := Bts();
      }
    }
  }
}
