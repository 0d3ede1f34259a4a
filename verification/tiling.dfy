/** The tile and repeat descriptors: every output address is written once, with the input address
    it comes from. */
module Tiling {
  import opened Arithmetic
  import opened Addresses
  import opened Sequences
  import opened Tables

  // ---------------------------------------------------------------- cartesian product

  function Extend(r: seq<nat>, vec: seq<nat>): (e: seq<seq<nat>>)
    ensures |e| == |vec| && forall k :: 0 <= k < |vec| ==> e[k] == r + [vec[k]]
  {
    seq(|vec|, k requires 0 <= k < |vec| => r + [vec[k]])
  }

  function ExtendAll(rs: seq<seq<nat>>, vec: seq<nat>): seq<seq<nat>> {
    if rs == [] then [] else ExtendAll(rs[..|rs| - 1], vec) + Extend(rs[|rs| - 1], vec)
  }

  /** All tuples with one element from each vector. */
  function Product(vectors: seq<seq<nat>>): seq<seq<nat>> {
    if vectors == [] then [[]] else ExtendAll(Product(vectors[..|vectors| - 1]), vectors[|vectors| - 1])
  }

  /** The innermost loop: one tuple, extended by each element. */
  method ExtendEach(r: seq<nat>, vec: seq<nat>) returns (e: seq<seq<nat>>)
    ensures e == Extend(r, vec)
  {
    e := [];
    for k := 0 to |vec|
      invariant e == Extend(r, vec)[..k]
    {
      e := e + [r + [vec[k]]];
    }
  }

  /** cartesian_product. */
  method CartesianProduct(vectors: seq<seq<nat>>) returns (results: seq<seq<nat>>)
    ensures results == Product(vectors)
  {
    results := [[]];
    for i := 0 to |vectors|
      invariant results == Product(vectors[..i])
    {
      assert vectors[..i + 1][..i] == vectors[..i];
      var vec := vectors[i];
      var temp := [];
      for j := 0 to |results|
        invariant temp == ExtendAll(results[..j], vec)
      {
        assert results[..j + 1][..j] == results[..j];
        var longer := ExtendEach(results[j], vec);
        temp := temp + longer;
      }
      TakeAll(results);
      results := temp;
    }
    TakeAll(vectors);
  }

  lemma {:induction false} InExtendAll(rs: seq<seq<nat>>, vec: seq<nat>, x: seq<nat>)
    ensures x in ExtendAll(rs, vec) <==> x != [] && x[..|x| - 1] in rs && x[|x| - 1] in vec
  {
    if rs != [] {
      var init, last := rs[..|rs| - 1], rs[|rs| - 1];
      InExtendAll(init, vec, x);
      assert rs == init + [last];
      if x in Extend(last, vec) {
        var k :| 0 <= k < |vec| && Extend(last, vec)[k] == x;
        assert x[..|x| - 1] == last;
      }
      if x != [] && x[..|x| - 1] == last && x[|x| - 1] in vec {
        var k :| 0 <= k < |vec| && vec[k] == x[|x| - 1];
        assert Extend(last, vec)[k] == x;
      }
    }
  }

  /** The product holds exactly the tuples that pick one element from each vector. */
  lemma {:induction false} InProduct(vectors: seq<seq<nat>>, x: seq<nat>)
    ensures x in Product(vectors) <==> |x| == |vectors| && forall d :: 0 <= d < |x| ==> x[d] in vectors[d]
  {
    if vectors != [] {
      var n := |vectors| - 1;
      InExtendAll(Product(vectors[..n]), vectors[n], x);
      if x != [] { InProduct(vectors[..n], x[..|x| - 1]); }
    }
  }

  lemma {:induction false} ExtendAllDistinct(rs: seq<seq<nat>>, vec: seq<nat>)
    requires NoDup(rs) && NoDup(vec)
    ensures NoDup(ExtendAll(rs, vec))
  {
    if rs != [] {
      var n := |rs| - 1;
      var init, last := rs[..n], rs[n];
      forall i | 0 <= i < n ensures Pos(init, init[i]) == i {
        assert rs[Pos(init, init[i])] == rs[i];
      }
      forall q | 0 <= q < n ensures init[q] != last {
        assert Pos(rs, rs[q]) == q && Pos(rs, rs[n]) == n;
      }
      ExtendAllDistinct(init, vec);
      var e := Extend(last, vec);
      forall k | 0 <= k < |e| ensures Pos(e, e[k]) == k && e[k] !in ExtendAll(init, vec) {
        var q := Pos(e, e[k]);
        assert e[q] == e[k] && e[q][|last|] == vec[q] && e[k][|last|] == vec[k];
        InExtendAll(init, vec, e[k]);
        assert e[k][..|e[k]| - 1] == last;
      }
      AppendDistinct(ExtendAll(init, vec), e);
    }
  }

  lemma {:induction false} ProductDistinct(vectors: seq<seq<nat>>)
    requires forall d :: 0 <= d < |vectors| ==> NoDup(vectors[d])
    ensures NoDup(Product(vectors))
  {
    if vectors != [] {
      ProductDistinct(vectors[..|vectors| - 1]);
      ExtendAllDistinct(Product(vectors[..|vectors| - 1]), vectors[|vectors| - 1]);
    }
  }

  // ---------------------------------------------------------------- tile

  ghost predicate IsTile(ishape: Shape, oshape: Shape, vrepeats: seq<nat>) {
    && |ishape| == |oshape| == |vrepeats| && Positive(ishape)
    && forall d :: 0 <= d < |ishape| ==> oshape[d] == ishape[d] * vrepeats[d]
  }

  function Modulo(c: seq<nat>, ishape: Shape): (r: seq<nat>)
    requires |c| == |ishape| && forall d :: 0 <= d < |ishape| ==> ishape[d] > 0
    ensures |r| == |c| && forall d :: 0 <= d < |c| ==> r[d] == c[d] % ishape[d]
  {
    seq(|c|, d requires 0 <= d < |c| => c[d] % ishape[d])
  }

  /** The input address an output address is copied from: each coordinate modulo the extent. */
  ghost function TileSource(b: nat, ishape: Shape, oshape: Shape): nat
    requires |ishape| == |oshape| && Positive(ishape) && b < Size(oshape)
  {
    HasCells(oshape, b);
    Address(Modulo(Coords(b, oshape), ishape), ishape)
  }

  lemma TileSourceInRange(b: nat, ishape: Shape, oshape: Shape)
    requires |ishape| == |oshape| && Positive(ishape) && b < Size(oshape)
    ensures Positive(oshape) && TileSource(b, ishape, oshape) < Size(ishape)
    ensures Coords(TileSource(b, ishape, oshape), ishape) == Modulo(Coords(b, oshape), ishape)
  {
    HasCells(oshape, b);
    AddressInRange(Modulo(Coords(b, oshape), ishape), ishape);
    CoordsOfAddress(Modulo(Coords(b, oshape), ishape), ishape);
  }

  /** The coordinates along one axis that show input coordinate i. */
  function AxisCopies(extent: nat, repeats: nat, i: nat): (r: seq<nat>)
    ensures |r| == repeats && forall k :: 0 <= k < repeats ==> r[k] == extent * k + i
  {
    seq(repeats, k requires 0 <= k < repeats => MulPositive(extent, k); extent * k + i)
  }

  lemma AxisCopiesAre(extent: nat, repeats: nat, i: nat, x: nat)
    requires i < extent
    ensures x in AxisCopies(extent, repeats, i) <==> x < extent * repeats && x % extent == i
    ensures NoDup(AxisCopies(extent, repeats, i))
  {
    var r := AxisCopies(extent, repeats, i);
    if x in r {
      var k := Pos(r, x);
      DivModUnique(x, extent, k, i);
      RowsInOrder(k, repeats, extent, i, 0);
    }
    if x < extent * repeats && x % extent == i {
      var k, m := SplitDigit(x, repeats, extent);
      DivModUnique(x, extent, k, m);
      assert r[k] == x;
    }
    AxisCopiesDistinct(extent, repeats, i);
  }

  lemma AxisCopiesDistinct(extent: nat, repeats: nat, i: nat)
    requires i < extent
    ensures NoDup(AxisCopies(extent, repeats, i))
  {
    var r := AxisCopies(extent, repeats, i);
    forall k | 0 <= k < repeats ensures Pos(r, r[k]) == k {
      DivModUnique(r[k], extent, k, i);
      DivModUnique(r[k], extent, Pos(r, r[k]), i);
    }
  }

  /** The output coordinates that show the input cell with coordinates c. */
  function TileTuples(c: seq<nat>, ishape: Shape, vrepeats: seq<nat>): (r: seq<seq<nat>>)
    requires |c| == |ishape| == |vrepeats|
    ensures |r| == |c| && forall d :: 0 <= d < |c| ==> r[d] == AxisCopies(ishape[d], vrepeats[d], c[d])
  {
    seq(|c|, d requires 0 <= d < |c| => AxisCopies(ishape[d], vrepeats[d], c[d]))
  }

  /** Output address b shows input address a. */
  ghost predicate Shows(b: nat, a: nat, ishape: Shape, oshape: Shape)
    requires |ishape| == |oshape| && Positive(ishape)
  {
    b < Size(oshape) && TileSource(b, ishape, oshape) == a
  }

  lemma TuplesByAxis(c: seq<nat>, ishape: Shape, oshape: Shape, vrepeats: seq<nat>, x: seq<nat>)
    requires IsTile(ishape, oshape, vrepeats) && InBox(c, ishape)
    ensures x in Product(TileTuples(c, ishape, vrepeats)) <==> InBox(x, oshape) && Modulo(x, ishape) == c
    ensures NoDup(Product(TileTuples(c, ishape, vrepeats)))
  {
    var tuples := TileTuples(c, ishape, vrepeats);
    InProduct(tuples, x);
    forall d | 0 <= d < |ishape|
      ensures NoDup(tuples[d])
      ensures d < |x| ==> (x[d] in tuples[d] <==> x[d] < oshape[d] && x[d] % ishape[d] == c[d])
    {
      AxisCopiesAre(ishape[d], vrepeats[d], c[d], if d < |x| then x[d] else 0);
    }
    ProductDistinct(tuples);
  }

  lemma TileTuplesAre(a: nat, ishape: Shape, oshape: Shape, vrepeats: seq<nat>, x: seq<nat>)
    requires IsTile(ishape, oshape, vrepeats) && a < Size(ishape)
    ensures x in Product(TileTuples(Coords(a, ishape), ishape, vrepeats)) <==>
      InBox(x, oshape) && Shows(Address(x, oshape), a, ishape, oshape)
  {
    CoordsInBox(a, ishape);
    TuplesByAxis(Coords(a, ishape), ishape, oshape, vrepeats, x);
    if InBox(x, oshape) {
      AddressInRange(x, oshape);
      CoordsOfAddress(x, oshape);
      TileSourceInRange(Address(x, oshape), ishape, oshape);
      AddressOfCoords(a, ishape);
    }
  }

  /** What the addresses of the tuples are. */
  lemma TargetsAre(a: nat, ishape: Shape, oshape: Shape, vrepeats: seq<nat>, tuples: seq<seq<nat>>, targets: seq<nat>)
    requires IsTile(ishape, oshape, vrepeats) && a < Size(ishape)
    requires tuples == Product(TileTuples(Coords(a, ishape), ishape, vrepeats)) && |targets| == |tuples|
    requires forall m :: 0 <= m < |tuples| ==> InBox(tuples[m], oshape) && targets[m] == Address(tuples[m], oshape)
    ensures NoDup(targets)
    ensures forall b: nat :: b in targets <==> Shows(b, a, ishape, oshape)
  {
    CoordsInBox(a, ishape);
    TuplesByAxis(Coords(a, ishape), ishape, oshape, vrepeats, []);
    forall m | 0 <= m < |targets| ensures Pos(targets, targets[m]) == m {
      var q := Pos(targets, targets[m]);
      CoordsOfAddress(tuples[m], oshape);
      CoordsOfAddress(tuples[q], oshape);
      assert Pos(tuples, tuples[m]) == m && Pos(tuples, tuples[q]) == q;
    }
    forall b: nat ensures b in targets <==> Shows(b, a, ishape, oshape) {
      TargetIs(a, ishape, oshape, vrepeats, tuples, targets, b);
    }
  }

  lemma TargetIs(a: nat, ishape: Shape, oshape: Shape, vrepeats: seq<nat>, tuples: seq<seq<nat>>, targets: seq<nat>,
                 b: nat)
    requires IsTile(ishape, oshape, vrepeats) && a < Size(ishape)
    requires tuples == Product(TileTuples(Coords(a, ishape), ishape, vrepeats)) && |targets| == |tuples|
    requires forall m :: 0 <= m < |tuples| ==> InBox(tuples[m], oshape) && targets[m] == Address(tuples[m], oshape)
    ensures b in targets <==> Shows(b, a, ishape, oshape)
  {
    if b in targets {
      var m :| 0 <= m < |targets| && targets[m] == b;
      assert tuples[m] in tuples;
      TileTuplesAre(a, ishape, oshape, vrepeats, tuples[m]);
    }
    if Shows(b, a, ishape, oshape) {
      HasCells(oshape, b);
      var x := Coords(b, oshape);
      CoordsInBox(b, oshape);
      AddressOfCoords(b, oshape);
      TileTuplesAre(a, ishape, oshape, vrepeats, x);
      var m :| 0 <= m < |tuples| && tuples[m] == x;
      assert targets[m] == b;
    }
  }

  class TileDescriptor {
    const vrepeats: seq<nat>
    var ishape: Shape
    var oshape: Shape
    var cpuAddresses: array<nat>
    /** The addresses written by build_indices, in the order of the writes. */
    ghost var writes: seq<nat>

    constructor (vrepeats: seq<nat>)
      ensures this.vrepeats == vrepeats
    {
      this.vrepeats := vrepeats;
      ishape, oshape, writes := [], [], [];
      cpuAddresses := new nat[0];
    }

    method AxisCoordinates(extent: nat, repeats: nat, i: nat) returns (tmp: seq<nat>)
      ensures tmp == AxisCopies(extent, repeats, i)
    {
      tmp := [];
      for k := 0 to repeats
        invariant tmp == AxisCopies(extent, repeats, i)[..k]
      {
        MulPositive(extent, k);
        tmp := tmp + [extent * k + i];
      }
    }

    /** The coordinate tuples at which input address a appears in the output. */
    method Tuples(a: nat) returns (tuples: seq<seq<nat>>)
      requires IsTile(ishape, oshape, vrepeats) && a < Size(ishape)
      ensures tuples == Product(TileTuples(Coords(a, ishape), ishape, vrepeats))
    {
      var indices := new nat[|ishape|];
      FastAddress2Indices(a, indices, ishape, Strides(ishape));
      var c := indices[..];
      var axisIdxs := [];
      for axis := 0 to |ishape|
        invariant axisIdxs == TileTuples(c, ishape, vrepeats)[..axis]
      {
        var tmp := AxisCoordinates(ishape[axis], vrepeats[axis], c[axis]);
        axisIdxs := axisIdxs + [tmp];
      }
      TakeAll(TileTuples(c, ishape, vrepeats));
      tuples := CartesianProduct(axisIdxs);
    }

    /** The output addresses that show input address a. */
    method Targets(a: nat) returns (targets: seq<nat>)
      requires IsTile(ishape, oshape, vrepeats) && a < Size(ishape)
      ensures NoDup(targets)
      ensures forall b: nat :: b in targets <==> Shows(b, a, ishape, oshape)
    {
      var tuples := Tuples(a);
      forall m | 0 <= m < |tuples| ensures InBox(tuples[m], oshape) {
        assert tuples[m] in tuples;
        TileTuplesAre(a, ishape, oshape, vrepeats, tuples[m]);
      }
      targets := [];
      for i := 0 to |tuples|
        invariant |targets| == i
        invariant forall m {:trigger targets[m]} :: 0 <= m < i ==> targets[m] == Address(tuples[m], oshape)
      {
        var b := FastIndices2Address(tuples[i], Strides(oshape), oshape);
        targets := targets + [b];
      }
      TargetsAre(a, ishape, oshape, vrepeats, tuples, targets);
    }

    /** The output addresses that show an input address below a have been written, once each. */
    ghost predicate WrittenBelow(table: array<nat>, a: nat)
      requires IsTile(ishape, oshape, vrepeats)
      reads this, table
    {
      && table.Length == Size(oshape) && NoDup(writes)
      && (forall b: nat {:trigger b in writes} :: b in writes <==>
          b < Size(oshape) && TileSource(b, ishape, oshape) < a)
      && (forall b: nat {:trigger table[b]} :: b < table.Length && TileSource(b, ishape, oshape) < a ==>
          table[b] == TileSource(b, ishape, oshape))
    }

    method WriteTargets(table: array<nat>, a: nat)
      requires IsTile(ishape, oshape, vrepeats) && a < Size(ishape) && WrittenBelow(table, a)
      modifies this`writes, table
      ensures WrittenBelow(table, a + 1)
    {
      var targets := Targets(a);
      forall m | 0 <= m < |targets| ensures targets[m] < table.Length && targets[m] !in writes {
        assert targets[m] in targets;
      }
      AppendDistinct(writes, targets);
      ghost var listed := writes;
      WriteAll(table, targets, a);
      writes := writes + targets;
      forall b: nat ensures b in writes <==> b < Size(oshape) && TileSource(b, ishape, oshape) < a + 1 {
        assert b in writes <==> b in listed || b in targets;
        assert b in targets <==> Shows(b, a, ishape, oshape);
      }
      forall b: nat | b < table.Length && TileSource(b, ishape, oshape) < a + 1
        ensures table[b] == TileSource(b, ishape, oshape)
      {
        assert b in targets <==> Shows(b, a, ishape, oshape);
      }
    }

    /** build and build_indices. */
    method Build(ishape: Shape)
      requires |ishape| == |vrepeats| && Positive(ishape)
      modifies this
      ensures this.ishape == ishape && IsTile(ishape, oshape, vrepeats)
      ensures cpuAddresses.Length == Size(oshape)
      ensures forall b :: 0 <= b < cpuAddresses.Length ==> cpuAddresses[b] == TileSource(b, ishape, oshape)
      ensures NoDup(writes) && |writes| == Size(oshape)
    {
      this.ishape, oshape := ishape, [];
      for i := 0 to |ishape|
        invariant this.ishape == ishape && |oshape| == i
        invariant forall d :: 0 <= d < i ==> oshape[d] == ishape[d] * vrepeats[d]
      {
        MulPositive(ishape[i], vrepeats[i]);
        oshape := oshape + [ishape[i] * vrepeats[i]];
      }
      var isize := Shape2Size(ishape);
      var osize := Shape2Size(oshape);
      var table := new nat[osize];
      writes := [];
      for a := 0 to isize
        invariant this.ishape == ishape && IsTile(ishape, oshape, vrepeats)
        invariant WrittenBelow(table, a)
      {
        WriteTargets(table, a);
      }
      forall b: nat | b < osize ensures TileSource(b, ishape, oshape) < isize {
        TileSourceInRange(b, ishape, oshape);
      }
      CoverAll(writes, osize);
      cpuAddresses := table;
    }
  }

  // ---------------------------------------------------------------- repeat

  /** Sum of the first k repeats: where the copies of index k begin. */
  function Prefix(v: seq<nat>, k: nat): nat
    requires k <= |v|
  {
    if k == 0 then 0 else Prefix(v, k - 1) + v[k - 1]
  }

  lemma {:induction false} PrefixMono(v: seq<nat>, j: nat, k: nat)
    requires j <= k <= |v|
    ensures Prefix(v, j) <= Prefix(v, k)
  {
    if j < k { PrefixMono(v, j, k - 1); }
  }

  /** The index whose copies cover output coordinate x. */
  function Segment(v: seq<nat>, x: nat, n: nat): (k: nat)
    requires n <= |v| && x < Prefix(v, n)
    ensures k < n && Prefix(v, k) <= x < Prefix(v, k) + v[k]
  {
    if x < Prefix(v, n - 1) then Segment(v, x, n - 1) else n - 1
  }

  /** When every index is repeated r times, output coordinate x shows index x / r. */
  lemma {:induction false} RepeatEvenly(v: seq<nat>, r: nat, k: nat)
    requires k <= |v| && r > 0 && forall i :: 0 <= i < |v| ==> v[i] == r
    ensures Prefix(v, k) == k * r
    ensures forall x: nat :: x < Prefix(v, k) ==> Segment(v, x, k) == x / r
  {
    if k > 0 {
      RepeatEvenly(v, r, k - 1);
      assert k * r == (k - 1) * r + r;
      forall x: nat | x < Prefix(v, k) ensures Segment(v, x, k) == x / r {
        if x >= Prefix(v, k - 1) { DivModUnique(x, r, k - 1, x - (k - 1) * r); }
      }
    }
  }

  lemma {:induction false} SegmentUnique(v: seq<nat>, x: nat, k: nat)
    requires k < |v| && Prefix(v, k) <= x < Prefix(v, k) + v[k]
    ensures x < Prefix(v, |v|) && Segment(v, x, |v|) == k
  {
    PrefixMono(v, k + 1, |v|);
    var j := Segment(v, x, |v|);
    if j < k { PrefixMono(v, j + 1, k); }
    if k < j { PrefixMono(v, k + 1, j); }
  }

  ghost predicate IsRepeat(ishape: Shape, oshape: Shape, vrepeats: seq<nat>, axis: nat) {
    && |ishape| == |oshape| && axis < |ishape| && Positive(ishape)
    && |vrepeats| == ishape[axis]
    && oshape == ishape[axis := Prefix(vrepeats, |vrepeats|)]
  }

  /** The input address an output address is copied from: the coordinate along the axis becomes
      the index whose copies cover it. */
  ghost function RepeatSource(b: nat, ishape: Shape, oshape: Shape, vrepeats: seq<nat>, axis: nat): nat
    requires IsRepeat(ishape, oshape, vrepeats, axis) && b < Size(oshape)
  {
    HasCells(oshape, b);
    CoordsInBox(b, oshape);
    var c := Coords(b, oshape);
    Address(c[axis := Segment(vrepeats, c[axis], |vrepeats|)], ishape)
  }

  lemma RepeatSourceInRange(b: nat, ishape: Shape, oshape: Shape, vrepeats: seq<nat>, axis: nat)
    requires IsRepeat(ishape, oshape, vrepeats, axis) && b < Size(oshape)
    ensures RepeatSource(b, ishape, oshape, vrepeats, axis) < Size(ishape)
  {
    HasCells(oshape, b);
    CoordsInBox(b, oshape);
    var c := Coords(b, oshape);
    AddressInRange(c[axis := Segment(vrepeats, c[axis], |vrepeats|)], ishape);
  }

  ghost predicate Repeats(b: nat, a: nat, ishape: Shape, oshape: Shape, vrepeats: seq<nat>, axis: nat)
    requires IsRepeat(ishape, oshape, vrepeats, axis)
  {
    b < Size(oshape) && RepeatSource(b, ishape, oshape, vrepeats, axis) == a
  }

  /** The t-th output address that shows input address a. */
  ghost function Copy(a: nat, t: nat, ishape: Shape, oshape: Shape, vrepeats: seq<nat>, axis: nat): nat
    requires IsRepeat(ishape, oshape, vrepeats, axis) && a < Size(ishape)
  {
    CoordsInBox(a, ishape);
    var c := Coords(a, ishape);
    Address(c[axis := Prefix(vrepeats, c[axis]) + t], oshape)
  }

  /** The copies of an input address lie one stride apart. */
  lemma CopyAlongAxis(a: nat, t: nat, ishape: Shape, oshape: Shape, vrepeats: seq<nat>, axis: nat)
    requires IsRepeat(ishape, oshape, vrepeats, axis) && a < Size(ishape)
    ensures |Coords(a, ishape)| == |ishape| && Coords(a, ishape)[axis] < |vrepeats|
    ensures var first := Coords(a, ishape)[axis := Prefix(vrepeats, Coords(a, ishape)[axis])];
      Copy(a, t, ishape, oshape, vrepeats, axis) == Address(first, oshape) + t * Strides(oshape)[axis]
  {
    CoordsInBox(a, ishape);
    var c := Coords(a, ishape);
    var first := c[axis := Prefix(vrepeats, c[axis])];
    AddressAlongAxis(first, oshape, axis, t);
    assert first[axis := first[axis] + t] == c[axis := first[axis] + t];
    assert Copy(a, t, ishape, oshape, vrepeats, axis) == Address(c[axis := first[axis] + t], oshape);
  }

  lemma CopyRepeats(a: nat, t: nat, ishape: Shape, oshape: Shape, vrepeats: seq<nat>, axis: nat)
    requires IsRepeat(ishape, oshape, vrepeats, axis) && a < Size(ishape)
    requires Coords(a, ishape)[axis] < |vrepeats| && t < vrepeats[Coords(a, ishape)[axis]]
    ensures var b := Copy(a, t, ishape, oshape, vrepeats, axis);
      && Repeats(b, a, ishape, oshape, vrepeats, axis)
      && Coords(b, oshape)[axis] == Prefix(vrepeats, Coords(a, ishape)[axis]) + t
  {
    CoordsInBox(a, ishape);
    var c := Coords(a, ishape);
    var x := c[axis := Prefix(vrepeats, c[axis]) + t];
    SegmentUnique(vrepeats, x[axis], c[axis]);
    AddressInRange(x, oshape);
    CoordsOfAddress(x, oshape);
    assert x[axis := c[axis]] == c;
    AddressOfCoords(a, ishape);
  }

  lemma RepeatsIsCopy(b: nat, a: nat, ishape: Shape, oshape: Shape, vrepeats: seq<nat>, axis: nat) returns (t: nat)
    requires IsRepeat(ishape, oshape, vrepeats, axis) && a < Size(ishape)
    requires Repeats(b, a, ishape, oshape, vrepeats, axis)
    ensures Coords(a, ishape)[axis] < |vrepeats| && t < vrepeats[Coords(a, ishape)[axis]]
    ensures b == Copy(a, t, ishape, oshape, vrepeats, axis)
  {
    HasCells(oshape, b);
    CoordsInBox(b, oshape);
    var x := Coords(b, oshape);
    var k := Segment(vrepeats, x[axis], |vrepeats|);
    CoordsOfAddress(x[axis := k], ishape);
    t := x[axis] - Prefix(vrepeats, k);
    assert x[axis := k][axis := Prefix(vrepeats, k) + t] == x;
    AddressOfCoords(b, oshape);
  }

  class RepeatDescriptor {
    const vrepeats: seq<nat>
    const axis: nat
    var ishape: Shape
    var oshape: Shape
    var cpuAddresses: array<nat>
    /** The addresses written by build_indices, in the order of the writes. */
    ghost var writes: seq<nat>

    constructor (vrepeats: seq<nat>, axis: nat)
      ensures this.vrepeats == vrepeats && this.axis == axis
    {
      this.vrepeats, this.axis := vrepeats, axis;
      ishape, oshape, writes := [], [], [];
      cpuAddresses := new nat[0];
    }

    /** The output addresses that show input address a, stride by stride. */
    method Targets(a: nat) returns (targets: seq<nat>)
      requires IsRepeat(ishape, oshape, vrepeats, axis) && a < Size(ishape)
      ensures NoDup(targets)
      ensures forall b: nat :: b in targets <==> Repeats(b, a, ishape, oshape, vrepeats, axis)
    {
      var indices := new nat[|ishape|];
      FastAddress2Indices(a, indices, ishape, Strides(ishape));
      CoordsInBox(a, ishape);
      ghost var c: seq<nat> := indices[..];
      var idx := indices[axis];
      var start := 0;
      for j := 0 to idx
        invariant start == Prefix(vrepeats, j)
      {
        start := start + vrepeats[j];
      }
      indices[axis] := start;
      assert indices[..] == c[axis := start];
      var first := FastIndices2Address(indices[..], Strides(oshape), oshape);
      targets := [];
      for t := 0 to vrepeats[idx]
        invariant |targets| == t
        invariant forall m {:trigger targets[m]} :: 0 <= m < t ==>
          targets[m] == Copy(a, m, ishape, oshape, vrepeats, axis)
      {
        CopyAlongAxis(a, t, ishape, oshape, vrepeats, axis);
        targets := targets + [first + t * Strides(oshape)[axis]];
      }
      CopiesAre(a, ishape, oshape, vrepeats, axis, targets);
    }

    ghost predicate WrittenBelow(table: array<nat>, a: nat)
      requires IsRepeat(ishape, oshape, vrepeats, axis)
      reads this, table
    {
      && table.Length == Size(oshape) && NoDup(writes)
      && (forall b: nat {:trigger b in writes} :: b in writes <==>
          b < Size(oshape) && RepeatSource(b, ishape, oshape, vrepeats, axis) < a)
      && (forall b: nat {:trigger table[b]} ::
          b < table.Length && RepeatSource(b, ishape, oshape, vrepeats, axis) < a ==>
            table[b] == RepeatSource(b, ishape, oshape, vrepeats, axis))
    }

    method WriteTargets(table: array<nat>, a: nat)
      requires IsRepeat(ishape, oshape, vrepeats, axis) && a < Size(ishape) && WrittenBelow(table, a)
      modifies this`writes, table
      ensures WrittenBelow(table, a + 1)
    {
      var targets := Targets(a);
      forall m | 0 <= m < |targets| ensures targets[m] < table.Length && targets[m] !in writes {
        assert targets[m] in targets;
      }
      AppendDistinct(writes, targets);
      ghost var listed := writes;
      WriteAll(table, targets, a);
      writes := writes + targets;
      forall b: nat
        ensures b in writes <==> b < Size(oshape) && RepeatSource(b, ishape, oshape, vrepeats, axis) < a + 1
      {
        assert b in writes <==> b in listed || b in targets;
        assert b in targets <==> Repeats(b, a, ishape, oshape, vrepeats, axis);
      }
      forall b: nat | b < table.Length && RepeatSource(b, ishape, oshape, vrepeats, axis) < a + 1
        ensures table[b] == RepeatSource(b, ishape, oshape, vrepeats, axis)
      {
        assert b in targets <==> Repeats(b, a, ishape, oshape, vrepeats, axis);
      }
    }

    /** build and build_indices. */
    method Build(ishape: Shape)
      requires axis < |ishape| && Positive(ishape) && |vrepeats| == ishape[axis]
      modifies this
      ensures this.ishape == ishape && IsRepeat(ishape, oshape, vrepeats, axis)
      ensures cpuAddresses.Length == Size(oshape)
      ensures forall b :: 0 <= b < cpuAddresses.Length ==>
        cpuAddresses[b] == RepeatSource(b, ishape, oshape, vrepeats, axis)
      ensures NoDup(writes) && |writes| == Size(oshape)
    {
      this.ishape, oshape := ishape, [];
      for i := 0 to |ishape|
        invariant this.ishape == ishape && |oshape| == i
        invariant forall d :: 0 <= d < i ==> oshape[d] == if d == axis then Prefix(vrepeats, |vrepeats|) else ishape[d]
      {
        var dsize := 0;
        if i != axis {
          dsize := ishape[i];
        } else {
          for k := 0 to |vrepeats|
            invariant dsize == Prefix(vrepeats, k)
          {
            dsize := dsize + vrepeats[k];
          }
        }
        oshape := oshape + [dsize];
      }
      var isize := Shape2Size(ishape);
      var osize := Shape2Size(oshape);
      var table := new nat[osize];
      writes := [];
      for a := 0 to isize
        invariant this.ishape == ishape && IsRepeat(ishape, oshape, vrepeats, axis)
        invariant WrittenBelow(table, a)
      {
        WriteTargets(table, a);
      }
      forall b: nat | b < osize ensures RepeatSource(b, ishape, oshape, vrepeats, axis) < isize {
        RepeatSourceInRange(b, ishape, oshape, vrepeats, axis);
      }
      CoverAll(writes, osize);
      cpuAddresses := table;
    }
  }

  lemma CopiesAre(a: nat, ishape: Shape, oshape: Shape, vrepeats: seq<nat>, axis: nat, targets: seq<nat>)
    requires IsRepeat(ishape, oshape, vrepeats, axis) && a < Size(ishape)
    requires Coords(a, ishape)[axis] < |vrepeats| && |targets| == vrepeats[Coords(a, ishape)[axis]]
    requires forall m {:trigger targets[m]} :: 0 <= m < |targets| ==>
      targets[m] == Copy(a, m, ishape, oshape, vrepeats, axis)
    ensures NoDup(targets)
    ensures forall b: nat :: b in targets <==> Repeats(b, a, ishape, oshape, vrepeats, axis)
  {
    forall m | 0 <= m < |targets| ensures Pos(targets, targets[m]) == m {
      var q := Pos(targets, targets[m]);
      CopyRepeats(a, m, ishape, oshape, vrepeats, axis);
      CopyRepeats(a, q, ishape, oshape, vrepeats, axis);
    }
    forall b: nat ensures b in targets <==> Repeats(b, a, ishape, oshape, vrepeats, axis) {
      if b in targets {
        var m :| 0 <= m < |targets| && targets[m] == b;
        CopyRepeats(a, m, ishape, oshape, vrepeats, axis);
      }
      if Repeats(b, a, ishape, oshape, vrepeats, axis) {
        var t := RepeatsIsCopy(b, a, ishape, oshape, vrepeats, axis);
        assert targets[t] == b;
      }
    }
  }
}
