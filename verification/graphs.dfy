/** Layer graphs.  A layer pointer is an index into the tables that hold the parent and
    child lists of every layer object; a list may name the same layer several times. */
module Graphs {
  import opened Sequences

  type Layer = nat
  type Links = seq<seq<Layer>>

  ghost predicate Closed(links: Links) {
    forall l, k :: 0 <= l < |links| && 0 <= k < |links[l]| ==> links[l][k] < |links|
  }

  /** addchild and addparent are always called in pairs: a child is listed by its parent
      exactly as often as it lists that parent. */
  ghost predicate Mirrored(up: Links, down: Links) {
    && |up| == |down|
    && Closed(up) && Closed(down)
    && forall p, c :: 0 <= p < |up| && 0 <= c < |up| ==> multiset(down[p])[c] == multiset(up[c])[p]
  }

  ghost predicate Valid(layers: seq<Layer>, links: Links) {
    NoDup(layers) && forall i :: 0 <= i < |layers| ==> layers[i] < |links|
  }

  ghost predicate Path(next: Links, p: seq<Layer>) {
    && |p| > 0
    && (forall i :: 0 <= i < |p| ==> p[i] < |next|)
    && (forall i, j :: 0 <= i && j == i + 1 && j < |p| ==> p[j] in next[p[i]])
  }

  ghost predicate Reach(next: Links, a: Layer, b: Layer) {
    exists p :: Path(next, p) && p[0] == a && p[|p| - 1] == b
  }

  /** No directed cycle runs entirely through `within`. */
  ghost predicate Acyclic(next: Links, within: seq<Layer>) {
    forall p :: Path(next, p) && AllIn(p, within) && |p| >= 2 ==> p[0] != p[|p| - 1]
  }

  // ---------------------------------------------------------------- reachability

  /** The links that remain when nothing is followed out of the layers in `cut`. */
  function Prune(next: Links, cut: seq<Layer>): (r: Links)
    ensures |r| == |next|
    ensures forall l :: 0 <= l < |next| ==> r[l] == if l in cut then [] else next[l]
  {
    seq(|next|, l requires 0 <= l < |next| => if l in cut then [] else next[l])
  }

  lemma ReachSelf(next: Links, a: Layer)
    requires a < |next|
    ensures Reach(next, a, a)
  {
    assert Path(next, [a]);
  }

  lemma ReachVia(next: Links, a: Layer, b: Layer, c: Layer)
    requires a < |next| && b in next[a] && Reach(next, b, c)
    ensures Reach(next, a, c)
  {
    var p :| Path(next, p) && p[0] == b && p[|p| - 1] == c;
    PathFront(next, a, p);
    var q := [a] + p;
    assert q[0] == a && q[|q| - 1] == c;
  }

  /** A path, one layer longer at its beginning. */
  lemma PathFront(next: Links, a: Layer, p: seq<Layer>)
    requires a < |next| && Path(next, p) && p[0] in next[a]
    ensures Path(next, [a] + p)
  {
    var q := [a] + p;
    forall i, j | 0 <= i && j == i + 1 && j < |q| ensures q[j] in next[q[i]] {
      if i > 0 { assert p[i] in next[p[i - 1]]; }
    }
  }

  lemma ReachThen(next: Links, a: Layer, b: Layer, c: Layer)
    requires Reach(next, a, b) && b < |next| && c < |next| && c in next[b]
    ensures Reach(next, a, c)
  {
    var p :| Path(next, p) && p[0] == a && p[|p| - 1] == b;
    PathBack(next, p, c);
    var q := p + [c];
    assert q[0] == a && q[|q| - 1] == c;
  }

  /** A path, one layer longer at its end. */
  lemma PathBack(next: Links, p: seq<Layer>, c: Layer)
    requires Path(next, p) && c < |next| && c in next[p[|p| - 1]]
    ensures Path(next, p + [c])
  {
    var q := p + [c];
    forall i, j | 0 <= i && j == i + 1 && j < |q| ensures q[j] in next[q[i]] {
      if j < |p| { assert p[j] in next[p[i]]; }
    }
  }

  lemma PathTail(next: Links, p: seq<Layer>)
    requires Path(next, p) && |p| > 1
    ensures Path(next, p[1..]) && p[1] in next[p[0]]
  {
    var q, first := p[1..], 0;
    assert p[first + 1] in next[p[first]];
    forall i, j | 0 <= i && j == i + 1 && j < |q| ensures q[j] in next[q[i]] {
      assert p[j + 1] in next[p[i + 1]];
    }
  }

  ghost predicate ClosedUnder(next: Links, s: seq<Layer>) {
    forall v {:trigger next[v]} :: v in s && v < |next| ==> AllIn(next[v], s)
  }

  /** A set closed under the links holds everything reachable from its members. */
  lemma {:induction false} ClosedHoldsPath(next: Links, s: seq<Layer>, p: seq<Layer>, n: nat)
    requires Path(next, p) && p[0] in s && n < |p|
    requires ClosedUnder(next, s)
    ensures p[n] in s
  {
    if n > 0 {
      ClosedHoldsPath(next, s, p, n - 1);
      assert p[n] in next[p[n - 1]];
    }
  }

  // ---------------------------------------------------------------- topological orders

  /** Every parent of `l` inside the net has been placed already. */
  ghost predicate Ready(up: Links, layers: seq<Layer>, done: seq<Layer>, l: Layer)
    requires l < |up|
  {
    && l in layers && l !in done
    && forall k :: 0 <= k < |up[l]| && up[l][k] in layers ==> up[l][k] in done
  }

  ghost predicate FirstReady(up: Links, layers: seq<Layer>, done: seq<Layer>, j: nat)
    requires Valid(layers, up)
  {
    && j < |layers| && Ready(up, layers, done, layers[j])
    && forall i {:trigger Ready(up, layers, done, layers[i])} :: 0 <= i < j ==> !Ready(up, layers, done, layers[i])
  }

  ghost predicate Picks(up: Links, layers: seq<Layer>, done: seq<Layer>, l: Layer)
    requires Valid(layers, up)
  {
    exists j: nat :: FirstReady(up, layers, done, j) && layers[j] == l
  }

  /** Each element is the first ready layer, in net order, after its predecessors. */
  ghost predicate Greedy(up: Links, layers: seq<Layer>, order: seq<Layer>)
    requires Valid(layers, up)
  {
    forall i {:trigger Picks(up, layers, order[..i], order[i])} :: 0 <= i < |order| ==>
      Picks(up, layers, order[..i], order[i])
  }

  ghost predicate ParentsFirst(up: Links, layers: seq<Layer>, order: seq<Layer>) {
    forall i, k :: 0 <= i < |order| && order[i] < |up| && 0 <= k < |up[order[i]]| && up[order[i]][k] in layers
      ==> up[order[i]][k] in order[..i]
  }

  ghost predicate TopoOrder(up: Links, layers: seq<Layer>, order: seq<Layer>) {
    && multiset(order) == multiset(layers)
    && NoDup(order)
    && ParentsFirst(up, layers, order)
  }

  lemma GreedyIsOrdered(up: Links, layers: seq<Layer>, order: seq<Layer>)
    requires Valid(layers, up) && Greedy(up, layers, order)
    ensures NoDup(order) && AllIn(order, layers) && ParentsFirst(up, layers, order)
    ensures |order| <= |layers|
    ensures |order| == |layers| ==> TopoOrder(up, layers, order)
  {
    forall i | 0 <= i < |order|
      ensures order[i] in layers && order[i] !in order[..i]
      ensures forall k :: 0 <= k < |up[order[i]]| && up[order[i]][k] in layers ==> up[order[i]][k] in order[..i]
    {
      assert Picks(up, layers, order[..i], order[i]);
    }
    forall i, j | 0 <= i < j < |order| ensures order[i] != order[j] {
      assert order[i] in order[..j];
    }
    DistinctBound(order, layers);
    if |order| == |layers| {
      SameElements(order, layers);
    }
  }

  lemma {:induction false} PathDescends(up: Links, layers: seq<Layer>, order: seq<Layer>, p: seq<Layer>, j: nat)
    requires TopoOrder(up, layers, order) && Path(up, p) && AllIn(p, layers) && j < |p|
    ensures AllIn(p, order) && Pos(order, p[j]) + j <= Pos(order, p[0])
  {
    forall i | 0 <= i < |p| ensures p[i] in order {
      assert p[i] in multiset(layers);
    }
    if j > 0 {
      PathDescends(up, layers, order, p, j - 1);
      var i := Pos(order, p[j - 1]);
      var before := j - 1;
      assert before + 1 == j && p[j] in up[p[before]];
      var k := Pos(up[order[i]], p[j]);
      assert up[order[i]][k] in order[..i];
      var q := Pos(order[..i], p[j]);
      assert order[q] == p[j] && Pos(order, order[q]) == q;
    }
  }

  /** A topological order exists only for an acyclic net. */
  lemma OrderedIsAcyclic(up: Links, layers: seq<Layer>, order: seq<Layer>)
    requires TopoOrder(up, layers, order)
    ensures Acyclic(up, layers)
  {
    forall p | Path(up, p) && AllIn(p, layers) && |p| >= 2 ensures p[0] != p[|p| - 1] {
      PathDescends(up, layers, order, p, |p| - 1);
    }
  }

  lemma {:induction false} BackwardWalk(up: Links, layers: seq<Layer>, done: seq<Layer>, start: Layer, n: nat)
    returns (p: seq<Layer>)
    requires Valid(layers, up) && Closed(up)
    requires start in layers && start !in done
    requires forall l :: l in layers ==> !Ready(up, layers, done, l)
    ensures |p| == n + 1 && Path(up, p) && AllIn(p, layers) && p[n] !in done
  {
    if n == 0 {
      p := [start];
    } else {
      var q := BackwardWalk(up, layers, done, start, n - 1);
      var l := q[n - 1];
      assert l in layers && !Ready(up, layers, done, l);
      var k :| 0 <= k < |up[l]| && up[l][k] in layers && up[l][k] !in done;
      p := q + [up[l][k]];
      forall i, j | 0 <= i && j == i + 1 && j < |p| ensures p[j] in up[p[i]] {
        if i == n - 1 { assert p[j] == up[l][k]; } else { assert q[j] in up[q[i]]; }
      }
    }
  }

  lemma LongPathRepeats(next: Links, within: seq<Layer>, p: seq<Layer>)
    requires Path(next, p) && AllIn(p, within) && |p| > |within|
    ensures !Acyclic(next, within)
  {
    if NoDup(p) {
      DistinctBound(p, within);
      assert false;
    }
    var i, j :| 0 <= i < j < |p| && p[i] == p[j];
    var c := p[i..j + 1];
    forall k, m | 0 <= k && m == k + 1 && m < |c| ensures c[m] in next[c[k]] {
      assert p[i + m] in next[p[i + k]];
    }
    assert Path(next, c) && AllIn(c, within) && |c| >= 2 && c[0] == c[|c| - 1];
  }

  /** When unplaced layers remain but none is ready, the net contains a cycle. */
  lemma StuckMeansCycle(up: Links, layers: seq<Layer>, done: seq<Layer>)
    requires Valid(layers, up) && Closed(up) && |done| < |layers|
    requires forall l :: l in layers ==> !Ready(up, layers, done, l)
    ensures !Acyclic(up, layers)
  {
    var start := MissingElement(done, layers);
    var p := BackwardWalk(up, layers, done, start, |layers|);
    LongPathRepeats(up, layers, p);
  }

  /** Sorting a list that is already in topological order changes nothing. */
  lemma {:induction false} GreedyIsStable(up: Links, layers: seq<Layer>, order: seq<Layer>, n: nat)
    requires Valid(layers, up) && ParentsFirst(up, layers, layers)
    requires Greedy(up, layers, order) && n <= |order| <= |layers|
    ensures order[..n] == layers[..n]
  {
    if n > 0 {
      GreedyIsStable(up, layers, order, n - 1);
      var i := n - 1;
      assert Picks(up, layers, order[..i], order[i]);
      var j: nat :| FirstReady(up, layers, order[..i], j) && layers[j] == order[i];
      assert forall q :: 0 <= q < i ==> layers[q] == order[..i][q];
      forall x | x in layers[..i] ensures x != layers[i] {
        var q :| 0 <= q < i && layers[q] == x;
      }
      assert Ready(up, layers, order[..i], layers[i]);
    }
  }

  lemma SortOfSorted(up: Links, layers: seq<Layer>, order: seq<Layer>)
    requires Valid(layers, up) && ParentsFirst(up, layers, layers) && Greedy(up, layers, order)
    requires |order| == |layers| || !Acyclic(up, layers)
    ensures order == layers && Acyclic(up, layers)
  {
    OrderedIsAcyclic(up, layers, layers);
    GreedyIsStable(up, layers, order, |order|);
  }

  lemma {:induction false} ReversedPath(up: Links, down: Links, p: seq<Layer>) returns (q: seq<Layer>)
    requires Mirrored(up, down) && Path(up, p)
    ensures |q| == |p| && Path(down, q) && multiset(q) == multiset(p)
    ensures q[0] == p[|p| - 1] && q[|q| - 1] == p[0]
  {
    if |p| == 1 {
      q := p;
    } else {
      PathTail(up, p);
      var r := ReversedPath(up, down, p[1..]);
      q := r + [p[0]];
      assert multiset(up[p[0]])[p[1]] > 0;
      assert multiset(down[p[1]])[p[0]] > 0;
      PathBack(down, r, p[0]);
      assert p == [p[0]] + p[1..];
    }
  }

  /** A net that passes the forward sort also passes the backward sort. */
  lemma AcyclicBothWays(up: Links, down: Links, within: seq<Layer>)
    requires Mirrored(up, down) && Acyclic(up, within)
    ensures Acyclic(down, within)
  {
    forall p: seq<Layer> | Path(down, p) && AllIn(p, within) && |p| >= 2 ensures p[0] != p[|p| - 1] {
      var q := ReversedPath(down, up, p);
      forall i | 0 <= i < |q| ensures q[i] in within {
        assert q[i] in multiset(p);
      }
    }
  }

  lemma AcyclicSameMembers(next: Links, a: seq<Layer>, b: seq<Layer>)
    requires forall v :: v in a <==> v in b
    ensures Acyclic(next, a) <==> Acyclic(next, b)
  {
    forall p: seq<Layer> ensures AllIn(p, a) <==> AllIn(p, b) {
    }
  }

  /** The sorted list can stand for the net it was sorted from. */
  lemma SortedStandsFor(up: Links, layers: seq<Layer>, order: seq<Layer>)
    requires Valid(layers, up) && TopoOrder(up, layers, order)
    ensures Valid(order, up) && ParentsFirst(up, order, order)
    ensures forall v :: v in layers <==> v in order
    ensures Acyclic(up, order) <==> Acyclic(up, layers)
  {
    forall v ensures v in layers <==> v in order {
      assert v in multiset(layers) <==> v in multiset(order);
    }
    forall i | 0 <= i < |order| ensures order[i] < |up| {
      assert order[i] in layers;
    }
    AcyclicSameMembers(up, layers, order);
  }

  // ---------------------------------------------------------------- in-degree counters

  /** Entries of a parent list that lie in the net and have not been placed. */
  function Missing(ps: seq<Layer>, layers: seq<Layer>, done: seq<Layer>): nat {
    if ps == [] then 0
    else Missing(ps[..|ps| - 1], layers, done)
         + (if ps[|ps| - 1] in layers && ps[|ps| - 1] !in done then 1 else 0)
  }

  lemma {:induction false} MissingStep(ps: seq<Layer>, layers: seq<Layer>, done: seq<Layer>, x: Layer)
    requires x in layers && x !in done
    ensures Missing(ps, layers, done) == Missing(ps, layers, done + [x]) + multiset(ps)[x]
  {
    if ps != [] {
      var init, last := ps[..|ps| - 1], ps[|ps| - 1];
      MissingStep(init, layers, done, x);
      assert ps == init + [last];
    }
  }

  lemma {:induction false} MissingZero(ps: seq<Layer>, layers: seq<Layer>, done: seq<Layer>)
    ensures Missing(ps, layers, done) == 0 <==> forall k :: 0 <= k < |ps| && ps[k] in layers ==> ps[k] in done
  {
    if ps != [] {
      var init, last := ps[..|ps| - 1], ps[|ps| - 1];
      MissingZero(init, layers, done);
      assert forall k :: 0 <= k < |init| ==> ps[k] == init[k];
    }
  }
}
