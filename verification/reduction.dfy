/** Tables that reduce a tensor along some of its axes. */
module Reductions {
  import opened Addresses
  import opened Arithmetic
  import opened Sequences
  import opened Tables

  // ---------------------------------------------------------------- kept and reduced axes

  /** Whether each of the n axes is listed, or, when reduced is false, is not listed. */
  function Mask(axis: seq<int>, n: nat, reduced: bool): (r: seq<bool>)
    ensures |r| == n && forall d :: 0 <= d < n ==> r[d] == ((d in axis) == reduced)
  {
    seq(n, d requires 0 <= d < n => (d in axis) == reduced)
  }

  /** The elements of s standing where keep holds. */
  function Filter<T>(s: seq<T>, keep: seq<bool>): seq<T>
    requires |s| == |keep|
  {
    if s == [] then []
    else (if keep[0] then [s[0]] else []) + Filter(s[1..], keep[1..])
  }

  lemma {:induction false} FilterOneMore<T>(s: seq<T>, keep: seq<bool>, i: nat)
    requires |s| == |keep| && i < |s|
    ensures keep[i] ==> Filter(s[..i + 1], keep[..i + 1]) == Filter(s[..i], keep[..i]) + [s[i]]
    ensures !keep[i] ==> Filter(s[..i + 1], keep[..i + 1]) == Filter(s[..i], keep[..i])
  {
    if i > 0 {
      FilterOneMore(s[1..], keep[1..], i - 1);
      assert s[..i + 1][1..] == s[1..][..i] && keep[..i + 1][1..] == keep[1..][..i];
      assert s[..i][1..] == s[1..][..i - 1] && keep[..i][1..] == keep[1..][..i - 1];
    }
  }

  /** Filtered sequences agree exactly when the originals agree at every kept place. */
  lemma {:induction false} FilterAgrees<T>(s: seq<T>, t: seq<T>, keep: seq<bool>)
    requires |s| == |t| == |keep|
    ensures |Filter(s, keep)| == |Filter(t, keep)|
    ensures Filter(s, keep) == Filter(t, keep) <==> forall d :: 0 <= d < |s| && keep[d] ==> s[d] == t[d]
  {
    if s != [] {
      FilterAgrees(s[1..], t[1..], keep[1..]);
      var fs, ft := Filter(s, keep), Filter(t, keep);
      if keep[0] {
        assert fs[1..] == Filter(s[1..], keep[1..]) && ft[1..] == Filter(t[1..], keep[1..]);
        assert fs == [s[0]] + fs[1..] && ft == [t[0]] + ft[1..];
      } else {
        assert fs == Filter(s[1..], keep[1..]) && ft == Filter(t[1..], keep[1..]);
      }
      assert fs == ft <==> (keep[0] ==> s[0] == t[0]) && Filter(s[1..], keep[1..]) == Filter(t[1..], keep[1..]);
      if fs == ft {
        forall d | 0 <= d < |s| && keep[d] ensures s[d] == t[d] {
          if d > 0 { assert keep[1..][d - 1] && s[1..][d - 1] == t[1..][d - 1]; }
        }
      }
      if forall d :: 0 <= d < |s| && keep[d] ==> s[d] == t[d] {
        forall d | 0 <= d < |s[1..]| && keep[1..][d] ensures s[1..][d] == t[1..][d] {
          assert keep[d + 1];
        }
      }
    }
  }

  lemma {:induction false} FilterPositive(shape: Shape, keep: seq<bool>)
    requires |shape| == |keep| && Positive(shape)
    ensures Positive(Filter(shape, keep))
  {
    if shape != [] {
      FilterPositive(shape[1..], keep[1..]);
    }
  }

  lemma {:induction false} FilterInBox(idx: seq<nat>, shape: Shape, keep: seq<bool>)
    requires |shape| == |keep| && InBox(idx, shape)
    ensures InBox(Filter(idx, keep), Filter(shape, keep))
  {
    if shape != [] {
      FilterInBox(idx[1..], shape[1..], keep[1..]);
      var fi, fs := Filter(idx, keep), Filter(shape, keep);
      if keep[0] {
        assert fi[0] == idx[0] && fs[0] == shape[0];
        assert fi[1..] == Filter(idx[1..], keep[1..]) && fs[1..] == Filter(shape[1..], keep[1..]);
        forall d | 0 <= d < |fs| ensures fi[d] < fs[d] {
          if d > 0 { assert fi[d] == fi[1..][d - 1] && fs[d] == fs[1..][d - 1]; }
        }
      } else {
        assert fi == Filter(idx[1..], keep[1..]) && fs == Filter(shape[1..], keep[1..]);
      }
    }
  }

  lemma {:induction false} SizeOneMore(shape: Shape, n: nat)
    ensures Size(shape + [n]) == Size(shape) * n
  {
    if shape == [] {
      assert (shape + [n])[1..] == [];
    } else {
      SizeOneMore(shape[1..], n);
      assert (shape + [n])[1..] == shape[1..] + [n];
      MulAssoc(shape[0], Size(shape[1..]), n);
    }
  }

  /** The kept and the reduced extents share out the size. */
  lemma {:induction false} SizeSplits(shape: Shape, axis: seq<int>, i: nat)
    requires i <= |shape|
    ensures var kept, reduced := Mask(axis, |shape|, false), Mask(axis, |shape|, true);
      Size(shape[..i]) == Size(Filter(shape[..i], kept[..i])) * Size(Filter(shape[..i], reduced[..i]))
  {
    var kept, reduced := Mask(axis, |shape|, false), Mask(axis, |shape|, true);
    if i > 0 {
      var n := shape[i - 1];
      SizeSplits(shape, axis, i - 1);
      TakeOneMore(shape, i - 1);
      SizeOneMore(shape[..i - 1], n);
      FilterOneMore(shape, kept, i - 1);
      FilterOneMore(shape, reduced, i - 1);
      var k, r := Filter(shape[..i - 1], kept[..i - 1]), Filter(shape[..i - 1], reduced[..i - 1]);
      SizeOneMore(k, n);
      SizeOneMore(r, n);
      MulEither(Size(k), Size(r), n);
    }
  }

  // ---------------------------------------------------------------- the reduced address

  /** The row-major address of the kept coordinates of an address. */
  ghost function Project(a: nat, shape: Shape, kept: seq<bool>): nat
    requires Positive(shape) && |kept| == |shape|
  {
    FilterAgrees(Coords(a, shape), shape, kept);
    Address(Filter(Coords(a, shape), kept), Filter(shape, kept))
  }

  lemma ProjectFront(a: nat, shape: Shape, kept: seq<bool>)
    requires Positive(shape) && |kept| == |shape| > 0
    ensures Size(shape[1..]) > 0
    ensures var t := Size(shape[1..]);
      Project(a, shape, kept) ==
        (if kept[0] then a / t * Size(Filter(shape[1..], kept[1..])) else 0) + Project(a % t, shape[1..], kept[1..])
  {
    var c := Coords(a, shape);
    assert c[1..] == Coords(a % Size(shape[1..]), shape[1..]);
    FilterAgrees(c[1..], shape[1..], kept[1..]);
    if kept[0] {
      assert Filter(c, kept)[1..] == Filter(c[1..], kept[1..]);
      assert Filter(shape, kept)[1..] == Filter(shape[1..], kept[1..]);
    } else {
      assert Filter(c, kept) == Filter(c[1..], kept[1..]);
      assert Filter(shape, kept) == Filter(shape[1..], kept[1..]);
    }
  }

  lemma ProjectInRange(a: nat, shape: Shape, kept: seq<bool>)
    requires Positive(shape) && |kept| == |shape| && a < Size(shape)
    ensures Project(a, shape, kept) < Size(Filter(shape, kept))
  {
    CoordsInBox(a, shape);
    FilterInBox(Coords(a, shape), shape, kept);
    AddressInRange(Filter(Coords(a, shape), kept), Filter(shape, kept));
  }

  /** Addresses project alike exactly when their kept coordinates agree. */
  lemma ProjectAgrees(a: nat, b: nat, shape: Shape, kept: seq<bool>)
    requires Positive(shape) && |kept| == |shape| && a < Size(shape) && b < Size(shape)
    ensures Project(a, shape, kept) == Project(b, shape, kept) <==>
      forall d :: 0 <= d < |shape| && kept[d] ==> Coords(a, shape)[d] == Coords(b, shape)[d]
  {
    var x, y, o := Filter(Coords(a, shape), kept), Filter(Coords(b, shape), kept), Filter(shape, kept);
    CoordsInBox(a, shape);
    CoordsInBox(b, shape);
    FilterInBox(Coords(a, shape), shape, kept);
    FilterInBox(Coords(b, shape), shape, kept);
    FilterPositive(shape, kept);
    CoordsOfAddress(x, o);
    CoordsOfAddress(y, o);
    FilterAgrees(Coords(a, shape), Coords(b, shape), kept);
  }

  /** The first member of its group: every reduced coordinate is zero. */
  ghost predicate IsBase(a: nat, shape: Shape, kept: seq<bool>)
    requires Positive(shape) && |kept| == |shape|
  {
    a < Size(shape) && forall d {:trigger kept[d]} :: 0 <= d < |shape| && !kept[d] ==> Coords(a, shape)[d] == 0
  }

  lemma BaseFront(a: nat, shape: Shape, kept: seq<bool>)
    requires Positive(shape) && |kept| == |shape| > 0 && IsBase(a, shape, kept)
    ensures Size(shape[1..]) > 0 && IsBase(a % Size(shape[1..]), shape[1..], kept[1..])
    ensures !kept[0] ==> a / Size(shape[1..]) == 0
  {
    var t := Size(shape[1..]);
    forall d | 0 <= d < |shape[1..]| && !kept[1..][d] ensures Coords(a % t, shape[1..])[d] == 0 {
      assert Coords(a, shape)[d + 1] == Coords(a % t, shape[1..])[d];
      assert !kept[d + 1];
    }
    if !kept[0] { assert Coords(a, shape)[0] == a / t; }
  }

  /** Bases project in the order of their addresses. */
  lemma {:induction false} ProjectMono(a: nat, b: nat, shape: Shape, kept: seq<bool>)
    requires Positive(shape) && |kept| == |shape|
    requires IsBase(a, shape, kept) && IsBase(b, shape, kept) && a < b
    ensures Project(a, shape, kept) < Project(b, shape, kept)
    decreases shape
  {
    if shape != [] {
      var t := Size(shape[1..]);
      BaseFront(a, shape, kept);
      BaseFront(b, shape, kept);
      ProjectFront(a, shape, kept);
      ProjectFront(b, shape, kept);
      DivMono(a, b, t);
      if a / t < b / t {
        ProjectInRange(a % t, shape[1..], kept[1..]);
        RowsInOrder(a / t, b / t, Size(Filter(shape[1..], kept[1..])),
          Project(a % t, shape[1..], kept[1..]), Project(b % t, shape[1..], kept[1..]));
      } else {
        SameQuotient(a, b, t);
        ProjectMono(a % t, b % t, shape[1..], kept[1..]);
      }
    }
  }

  /** A base of the tail, moved to a row, is a base again. */
  lemma BaseInRow(q: nat, low: nat, shape: Shape, kept: seq<bool>)
    requires Positive(shape) && |kept| == |shape| > 0 && IsBase(low, shape[1..], kept[1..])
    requires q < shape[0] && (!kept[0] ==> q == 0)
    ensures q * Size(shape[1..]) >= 0
    ensures var a := q * Size(shape[1..]) + low;
      && IsBase(a, shape, kept)
      && Project(a, shape, kept) ==
          (if kept[0] then q * Size(Filter(shape[1..], kept[1..])) else 0) + Project(low, shape[1..], kept[1..])
  {
    var t := Size(shape[1..]);
    MulPositive(q, t);
    var a := q * t + low;
    DivModUnique(a, t, q, low);
    MulMono(q + 1, shape[0], t);
    assert (q + 1) * t == q * t + t;
    forall d | 0 <= d < |shape| && !kept[d] ensures Coords(a, shape)[d] == 0 {
      if d > 0 {
        assert Coords(a, shape)[d] == Coords(low, shape[1..])[d - 1];
        assert !kept[1..][d - 1];
      }
    }
    ProjectFront(a, shape, kept);
  }

  /** Every reduced address has a base. */
  lemma {:induction false} BaseOf(i: nat, shape: Shape, kept: seq<bool>) returns (a: nat)
    requires Positive(shape) && |kept| == |shape| && i < Size(Filter(shape, kept))
    ensures IsBase(a, shape, kept) && Project(a, shape, kept) == i
    decreases shape
  {
    if shape == [] {
      a := 0;
    } else {
      var tail := Filter(shape[1..], kept[1..]);
      var u := Size(tail);
      FilterPositive(shape[1..], kept[1..]);
      if kept[0] {
        assert Filter(shape, kept)[1..] == tail;
        var q, r := SplitDigit(i, shape[0], u);
        var low := BaseOf(r, shape[1..], kept[1..]);
        BaseInRow(q, low, shape, kept);
        a := q * Size(shape[1..]) + low;
        assert Project(a, shape, kept) == i;
      } else {
        assert Filter(shape, kept) == tail;
        a := BaseOf(i, shape[1..], kept[1..]);
        BaseInRow(0, a, shape, kept);
      }
    }
  }

  // ---------------------------------------------------------------- growing a list of addresses

  /** The address with coordinate d set to zero. */
  ghost function Root(a: nat, shape: Shape, d: nat): nat
    requires Positive(shape) && d < |shape|
  {
    Address(Coords(a, shape)[d := 0], shape)
  }

  lemma RootOf(a: nat, shape: Shape, d: nat)
    requires Positive(shape) && d < |shape| && a < Size(shape)
    ensures Root(a, shape, d) < Size(shape)
    ensures Coords(Root(a, shape, d), shape) == Coords(a, shape)[d := 0]
    ensures Coords(a, shape)[d] < shape[d]
  {
    var c := Coords(a, shape);
    CoordsInBox(a, shape);
    AddressInRange(c[d := 0], shape);
    CoordsOfAddress(c[d := 0], shape);
  }

  lemma RootDistance(a: nat, shape: Shape, d: nat)
    requires Positive(shape) && d < |shape| && a < Size(shape)
    ensures a == Root(a, shape, d) + Coords(a, shape)[d] * Strides(shape)[d]
  {
    var c := Coords(a, shape);
    AddressAlongAxis(c[d := 0], shape, d, c[d]);
    assert c[d := 0][d := 0 + c[d]] == c;
    AddressOfCoords(a, shape);
  }

  /** Walking v strides from a root sets the coordinate to v. */
  lemma WalkFromRoot(x: nat, shape: Shape, d: nat, v: nat)
    requires Positive(shape) && d < |shape| && x < Size(shape) && Coords(x, shape)[d] == 0
    ensures x + v * Strides(shape)[d] == Address(Coords(x, shape)[d := v], shape)
  {
    AddressOfCoords(x, shape);
    AddressAlongAxis(Coords(x, shape), shape, d, v);
  }

  lemma StepFromRoot(x: nat, shape: Shape, d: nat, v: nat)
    requires Positive(shape) && d < |shape| && x < Size(shape) && Coords(x, shape)[d] == 0 && v < shape[d]
    ensures var a := Address(Coords(x, shape)[d := v], shape);
      a < Size(shape) && Coords(a, shape) == Coords(x, shape)[d := v] && Root(a, shape, d) == x
  {
    var c := Coords(x, shape);
    CoordsInBox(x, shape);
    AddressInRange(c[d := v], shape);
    CoordsOfAddress(c[d := v], shape);
    assert c[d := v][d := 0] == c;
    AddressOfCoords(x, shape);
  }

  /** The addresses that copy x along an axis, one stride apart. */
  ghost function Copies(x: nat, step: nat, k: nat): (r: seq<nat>)
    ensures |r| == k && forall m :: 0 <= m < k ==> r[m] == x + (m + 1) * step
  {
    seq(k, m requires 0 <= m < k => MulPositive(m + 1, step); x + (m + 1) * step)
  }

  lemma CopyIs(x: nat, shape: Shape, d: nat, m: nat)
    requires Positive(shape) && d < |shape| && x < Size(shape) && Coords(x, shape)[d] == 0 && m < shape[d] - 1
    ensures var a := Copies(x, Strides(shape)[d], shape[d] - 1)[m];
      a < Size(shape) && Coords(a, shape)[d] == m + 1 && Root(a, shape, d) == x
  {
    WalkFromRoot(x, shape, d, m + 1);
    StepFromRoot(x, shape, d, m + 1);
  }

  lemma IsCopy(x: nat, shape: Shape, d: nat, a: nat)
    requires Positive(shape) && d < |shape| && a < Size(shape)
    requires Root(a, shape, d) == x && Coords(a, shape)[d] > 0
    ensures a in Copies(x, Strides(shape)[d], shape[d] - 1)
  {
    RootOf(a, shape, d);
    RootDistance(a, shape, d);
    assert Copies(x, Strides(shape)[d], shape[d] - 1)[Coords(a, shape)[d] - 1] == a;
  }

  lemma CopiesAre(x: nat, shape: Shape, d: nat)
    requires Positive(shape) && d < |shape| && x < Size(shape) && Coords(x, shape)[d] == 0
    ensures var copies := Copies(x, Strides(shape)[d], shape[d] - 1);
      && NoDup(copies)
      && forall a: nat :: a in copies <==> a < Size(shape) && Root(a, shape, d) == x && Coords(a, shape)[d] > 0
  {
    var copies := Copies(x, Strides(shape)[d], shape[d] - 1);
    forall m | 0 <= m < |copies| ensures Pos(copies, copies[m]) == m {
      CopyIs(x, shape, d, m);
      CopyIs(x, shape, d, Pos(copies, copies[m]));
    }
    forall a: nat ensures a in copies <==> a < Size(shape) && Root(a, shape, d) == x && Coords(a, shape)[d] > 0 {
      if a in copies { CopyIs(x, shape, d, Pos(copies, a)); }
      if a < Size(shape) && Root(a, shape, d) == x && Coords(a, shape)[d] > 0 { IsCopy(x, shape, d, a); }
    }
  }

  /** a is a member of ind, or a copy along axis d of one of the first j members. */
  ghost predicate Grown(a: nat, ind: seq<nat>, shape: Shape, d: nat, j: nat)
    requires Positive(shape) && d < |shape| && j <= |ind|
  {
    && a < Size(shape) && Root(a, shape, d) in ind
    && (Coords(a, shape)[d] == 0 || Root(a, shape, d) in ind[..j])
  }

  ghost predicate Roots(ind: seq<nat>, shape: Shape, d: nat)
    requires Positive(shape) && d < |shape|
  {
    NoDup(ind) && forall a: nat :: a in ind ==> a < Size(shape) && Coords(a, shape)[d] == 0
  }

  lemma RootsAreGrown(ind: seq<nat>, shape: Shape, d: nat)
    requires Positive(shape) && d < |shape| && Roots(ind, shape, d)
    ensures forall a: nat :: a in ind <==> Grown(a, ind, shape, d, 0)
  {
    forall a: nat ensures a in ind <==> Grown(a, ind, shape, d, 0) {
      if a < Size(shape) && Coords(a, shape)[d] == 0 {
        RootOf(a, shape, d);
        RootDistance(a, shape, d);
      }
    }
  }

  lemma GrownOneMore(ind: seq<nat>, r: seq<nat>, shape: Shape, d: nat, j: nat)
    requires Positive(shape) && d < |shape| && j < |ind| && Roots(ind, shape, d)
    requires NoDup(r) && forall a: nat :: a in r <==> Grown(a, ind, shape, d, j)
    ensures var all := r + Copies(ind[j], Strides(shape)[d], shape[d] - 1);
      NoDup(all) && forall a: nat :: a in all <==> Grown(a, ind, shape, d, j + 1)
  {
    var copies := Copies(ind[j], Strides(shape)[d], shape[d] - 1);
    assert ind[j] in ind;
    CopiesAre(ind[j], shape, d);
    TakeOneMore(ind, j);
    forall q | 0 <= q < j ensures ind[..j][q] != ind[j] {
      assert Pos(ind, ind[q]) == q && Pos(ind, ind[j]) == j;
    }
    forall m | 0 <= m < |copies| ensures copies[m] !in r {
      assert copies[m] in copies;
    }
    AppendDistinct(r, copies);
    forall a: nat ensures a in r + copies <==> Grown(a, ind, shape, d, j + 1) {
      assert a in r + copies <==> a in r || a in copies;
    }
  }

  /** Copies every listed address along axis d, growing the list while reading its first part. */
  method GrowAxis(ind: seq<nat>, shape: Shape, stride: seq<nat>, d: nat) returns (r: seq<nat>)
    requires Positive(shape) && d < |shape| && stride == Strides(shape) && Roots(ind, shape, d)
    ensures NoDup(r) && |r| == |ind| * shape[d]
    ensures forall a: nat :: a in r <==> a < Size(shape) && Root(a, shape, d) in ind
  {
    r := ind;
    var s := |r|;
    RootsAreGrown(ind, shape, d);
    for j := 0 to s
      invariant |r| >= s && r[..s] == ind && |r| == s + j * (shape[d] - 1)
      invariant NoDup(r) && forall a: nat :: a in r <==> Grown(a, ind, shape, d, j)
    {
      ghost var before := r;
      for k := 0 to shape[d] - 1
        invariant r == before + Copies(ind[j], stride[d], k)
      {
        MulPositive(k + 1, stride[d]);
        r := r + [r[j] + (k + 1) * stride[d]];
      }
      GrownOneMore(ind, before, shape, d, j);
    }
    TakeAll(ind);
    assert s + s * (shape[d] - 1) == s * shape[d];
  }

  /** a differs from b only along masked axes before i. */
  ghost predicate Spread(a: nat, b: nat, shape: Shape, mask: seq<bool>, i: nat)
    requires Positive(shape) && |mask| == |shape|
  {
    a < Size(shape) && forall d {:trigger mask[d]} :: 0 <= d < |shape| ==>
      (mask[d] && d < i) || Coords(a, shape)[d] == Coords(b, shape)[d]
  }

  lemma SpreadStep(a: nat, b: nat, shape: Shape, mask: seq<bool>, i: nat)
    requires Positive(shape) && |mask| == |shape| && i < |shape|
    requires mask[i] && Coords(b, shape)[i] == 0 && a < Size(shape)
    ensures Spread(a, b, shape, mask, i + 1) <==> Spread(Root(a, shape, i), b, shape, mask, i)
  {
    RootOf(a, shape, i);
    var x, y := Coords(a, shape), Coords(b, shape);
    var root := Coords(Root(a, shape, i), shape);
    forall d | 0 <= d < |shape|
      ensures (mask[d] && d < i + 1) || x[d] == y[d] <==> (mask[d] && d < i) || root[d] == y[d]
    {
      if d == i { assert root[d] == 0; } else { assert root[d] == x[d]; }
    }
  }

  lemma SpreadStart(b: nat, shape: Shape, mask: seq<bool>)
    requires Positive(shape) && |mask| == |shape| && b < Size(shape)
    ensures forall a: nat :: a in [b] <==> Spread(a, b, shape, mask, 0)
  {
    forall a: nat ensures a in [b] <==> Spread(a, b, shape, mask, 0) {
      if Spread(a, b, shape, mask, 0) {
        assert Coords(a, shape) == Coords(b, shape) by {
          forall d | 0 <= d < |shape| ensures Coords(a, shape)[d] == Coords(b, shape)[d] { assert mask[d] || !mask[d]; }
        }
        CoordsInjective(a, b, shape);
      }
    }
  }

  /** ind lists the addresses spread from b along the masked axes before i, each once. */
  ghost predicate Listing(ind: seq<nat>, b: nat, shape: Shape, mask: seq<bool>, i: nat)
    requires Positive(shape) && |mask| == |shape| && i <= |shape|
  {
    && NoDup(ind) && |ind| == Size(Filter(shape[..i], mask[..i]))
    && forall a: nat :: a in ind <==> Spread(a, b, shape, mask, i)
  }

  lemma ListingRoots(ind: seq<nat>, b: nat, shape: Shape, mask: seq<bool>, i: nat)
    requires Positive(shape) && |mask| == |shape| && i < |shape|
    requires Listing(ind, b, shape, mask, i) && mask[i] && Coords(b, shape)[i] == 0
    ensures Roots(ind, shape, i)
  {
    forall a: nat | a in ind ensures a < Size(shape) && Coords(a, shape)[i] == 0 {
      assert Spread(a, b, shape, mask, i) && mask[i];
    }
  }

  lemma ListingGrows(ind: seq<nat>, r: seq<nat>, b: nat, shape: Shape, mask: seq<bool>, i: nat)
    requires Positive(shape) && |mask| == |shape| && i < |shape|
    requires Listing(ind, b, shape, mask, i) && mask[i] && Coords(b, shape)[i] == 0
    requires NoDup(r) && |r| == |ind| * shape[i]
    requires forall a: nat :: a in r <==> a < Size(shape) && Root(a, shape, i) in ind
    ensures Listing(r, b, shape, mask, i + 1)
  {
    FilterOneMore(shape, mask, i);
    SizeOneMore(Filter(shape[..i], mask[..i]), shape[i]);
    forall a: nat ensures a in r <==> Spread(a, b, shape, mask, i + 1) {
      if a < Size(shape) { SpreadStep(a, b, shape, mask, i); }
    }
  }

  lemma ListingStays(ind: seq<nat>, b: nat, shape: Shape, mask: seq<bool>, i: nat)
    requires Positive(shape) && |mask| == |shape| && i < |shape|
    requires Listing(ind, b, shape, mask, i) && !mask[i]
    ensures Listing(ind, b, shape, mask, i + 1)
  {
    FilterOneMore(shape, mask, i);
    forall a: nat ensures a in ind <==> Spread(a, b, shape, mask, i + 1) {
      SpreadStays(a, b, shape, mask, i);
    }
  }

  lemma SpreadStays(a: nat, b: nat, shape: Shape, mask: seq<bool>, i: nat)
    requires Positive(shape) && |mask| == |shape| && i < |shape| && !mask[i]
    ensures Spread(a, b, shape, mask, i + 1) <==> Spread(a, b, shape, mask, i)
  {
    if a < Size(shape) {
      var x, y := Coords(a, shape), Coords(b, shape);
      forall d | 0 <= d < |shape|
        ensures (mask[d] && d < i + 1) || x[d] == y[d] <==> (mask[d] && d < i) || x[d] == y[d]
      {
        assert d == i ==> !mask[d];
      }
    }
  }

  /** Grows the list from one address along every listed axis (or every axis not listed). */
  method GrowAll(b: nat, shape: Shape, stride: seq<nat>, axis: seq<int>, reduced: bool) returns (ind: seq<nat>)
    requires Positive(shape) && stride == Strides(shape) && b < Size(shape)
    requires forall d :: 0 <= d < |shape| && (d in axis) == reduced ==> Coords(b, shape)[d] == 0
    ensures NoDup(ind) && |ind| == Size(Filter(shape, Mask(axis, |shape|, reduced)))
    ensures forall a: nat :: a in ind <==> Spread(a, b, shape, Mask(axis, |shape|, reduced), |shape|)
  {
    ghost var mask := Mask(axis, |shape|, reduced);
    ind := [b];
    SpreadStart(b, shape, mask);
    for i := 0 to |shape|
      invariant Listing(ind, b, shape, mask, i)
    {
      if (i in axis) == reduced {
        ghost var before := ind;
        ListingRoots(ind, b, shape, mask, i);
        ind := GrowAxis(ind, shape, stride, i);
        ListingGrows(before, ind, b, shape, mask, i);
      } else {
        ListingStays(ind, b, shape, mask, i);
      }
    }
    TakeAll(shape);
    TakeAll(mask);
  }

  // ---------------------------------------------------------------- sorting

  ghost predicate Ascending(s: seq<nat>) {
    forall i, j :: 0 <= i < j < |s| ==> s[i] <= s[j]
  }

  method Insert(r: seq<nat>, x: nat) returns (r': seq<nat>)
    requires Ascending(r)
    ensures Ascending(r') && multiset(r') == multiset(r) + multiset{x}
  {
    var i := |r|;
    while i > 0 && r[i - 1] > x
      invariant 0 <= i <= |r|
      invariant forall j :: i <= j < |r| ==> x < r[j]
    {
      i := i - 1;
    }
    InsertedAscending(r, i, x);
    assert r == r[..i] + r[i..];
    r' := r[..i] + [x] + r[i..];
  }

  lemma InsertedAscending(r: seq<nat>, i: nat, x: nat)
    requires Ascending(r) && i <= |r| && (i > 0 ==> r[i - 1] <= x)
    requires forall j :: i <= j < |r| ==> x < r[j]
    ensures Ascending(r[..i] + [x] + r[i..])
  {
    var s := r[..i] + [x] + r[i..];
    forall j, k | 0 <= j < k < |s| ensures s[j] <= s[k] {
      var j', k' := if j < i then j else j - 1, if k < i then k else k - 1;
      assert j != i ==> s[j] == r[j'];
      assert k != i ==> s[k] == r[k'];
      if k == i { assert r[j] <= r[i - 1]; }
    }
  }

  /** std::sort, as far as its callers can see. */
  method Sort(s: seq<nat>) returns (r: seq<nat>)
    ensures Ascending(r) && multiset(r) == multiset(s)
  {
    r := [];
    for n := 0 to |s|
      invariant Ascending(r) && multiset(r) == multiset(s[..n])
    {
      TakeOneMore(s, n);
      r := Insert(r, s[n]);
    }
    TakeAll(s);
  }

  lemma CountedTwice(r: seq<nat>, i: nat, j: nat)
    requires i < j < |r|
    ensures r[i] == r[j] ==> multiset(r)[r[i]] >= 2
  {
    assert r == r[..j] + r[j..];
    assert r[..j][i] in multiset(r[..j]) && r[j..][0] in multiset(r[j..]);
  }

  lemma SortedKeepsElements(r: seq<nat>, s: seq<nat>)
    requires NoDup(s) && multiset(r) == multiset(s) && Ascending(r)
    ensures |r| == |s| && forall a :: a in r <==> a in s
    ensures forall i, j :: 0 <= i < j < |r| ==> r[i] < r[j]
  {
    assert |multiset(r)| == |multiset(s)|;
    forall a ensures a in r <==> a in s {
      assert a in multiset(r) <==> a in multiset(s);
    }
    forall i, j | 0 <= i < j < |r| ensures r[i] < r[j] {
      CountNoDup(s, r[i]);
      CountedTwice(r, i, j);
    }
  }

  /** An increasing list of exactly the numbers below n counts up from zero. */
  lemma CountsUp(p: seq<nat>, n: nat)
    requires forall i, j :: 0 <= i < j < |p| ==> p[i] < p[j]
    requires forall v: nat :: v in p <==> v < n
    ensures |p| == n && forall i :: 0 <= i < n ==> p[i] == i
  {
    for k := 0 to |p|
      invariant forall i :: 0 <= i < k ==> p[i] == i
    {
      assert p[k] in p;
      if k > 0 { assert p[k - 1] < p[k]; }
      assert k in p;
      var j :| 0 <= j < |p| && p[j] == k;
    }
    forall i | 0 <= i < |p| ensures Pos(p, p[i]) == i {
    }
    CoverAll(p, n);
  }

  // ---------------------------------------------------------------- the groups

  ghost predicate IsGroup(g: seq<nat>, i: nat, shape: Shape, axis: seq<int>)
    requires Positive(shape)
  {
    && NoDup(g) && |g| == Size(Filter(shape, Mask(axis, |shape|, true)))
    && forall a: nat :: a in g <==> a < Size(shape) && Project(a, shape, Mask(axis, |shape|, false)) == i
  }

  /** The groups, in the order of the reduced addresses. */
  ghost predicate IsIndex(index: seq<seq<nat>>, shape: Shape, axis: seq<int>)
    requires Positive(shape)
  {
    && |index| == Size(Filter(shape, Mask(axis, |shape|, false)))
    && forall i :: 0 <= i < |index| ==> IsGroup(index[i], i, shape, axis)
  }

  /** The sorted bases stand at their own reduced addresses. */
  lemma BasesInOrder(ind: seq<nat>, shape: Shape, kept: seq<bool>)
    requires Positive(shape) && |kept| == |shape|
    requires forall i, j :: 0 <= i < j < |ind| ==> ind[i] < ind[j]
    requires forall a: nat :: a in ind <==> IsBase(a, shape, kept)
    ensures |ind| == Size(Filter(shape, kept))
    ensures forall i :: 0 <= i < |ind| ==> Project(ind[i], shape, kept) == i
  {
    var p := seq(|ind|, i requires 0 <= i < |ind| => Project(ind[i], shape, kept));
    forall i, j | 0 <= i < j < |p| ensures p[i] < p[j] {
      assert ind[i] in ind && ind[j] in ind;
      ProjectMono(ind[i], ind[j], shape, kept);
    }
    forall v: nat ensures v in p <==> v < Size(Filter(shape, kept)) {
      BasesProject(v, ind, p, shape, kept);
    }
    CountsUp(p, Size(Filter(shape, kept)));
    forall i | 0 <= i < |ind| ensures Project(ind[i], shape, kept) == i {
      assert p[i] == Project(ind[i], shape, kept);
    }
  }

  lemma BasesProject(v: nat, ind: seq<nat>, p: seq<nat>, shape: Shape, kept: seq<bool>)
    requires Positive(shape) && |kept| == |shape|
    requires forall a: nat :: a in ind <==> IsBase(a, shape, kept)
    requires |p| == |ind| && forall i {:trigger p[i]} :: 0 <= i < |p| ==> p[i] == Project(ind[i], shape, kept)
    ensures v in p <==> v < Size(Filter(shape, kept))
  {
    if v in p {
      var i :| 0 <= i < |p| && p[i] == v;
      assert ind[i] in ind;
      ProjectInRange(ind[i], shape, kept);
    }
    if v < Size(Filter(shape, kept)) {
      var a := BaseOf(v, shape, kept);
      var i := Pos(ind, a);
      assert p[i] == v;
    }
  }

  /** Growing from zero along the kept axes lists the bases. */
  lemma BasesAreSpread(a: nat, shape: Shape, axis: seq<int>)
    requires Positive(shape)
    ensures Size(shape) > 0
    ensures Spread(a, 0, shape, Mask(axis, |shape|, false), |shape|) <==> IsBase(a, shape, Mask(axis, |shape|, false))
  {
    ZeroCoords(shape);
  }

  lemma {:induction false} ZeroCoords(shape: Shape)
    requires Positive(shape)
    ensures forall d :: 0 <= d < |shape| ==> Coords(0, shape)[d] == 0
  {
    if shape != [] {
      ZeroCoords(shape[1..]);
      DivModUnique(0, Size(shape[1..]), 0, 0);
    }
  }

  /** Growing from a base along the reduced axes lists the addresses that project alike. */
  lemma GroupIsSpread(a: nat, b: nat, shape: Shape, axis: seq<int>)
    requires Positive(shape) && b < Size(shape)
    ensures Spread(a, b, shape, Mask(axis, |shape|, true), |shape|) <==>
      a < Size(shape) && Project(a, shape, Mask(axis, |shape|, false)) == Project(b, shape, Mask(axis, |shape|, false))
  {
    var kept, reduced := Mask(axis, |shape|, false), Mask(axis, |shape|, true);
    forall d | 0 <= d < |shape| ensures kept[d] == !reduced[d] {
    }
    if a < Size(shape) {
      ProjectAgrees(a, b, shape, kept);
    }
  }

  lemma BaseReduced(b: nat, shape: Shape, axis: seq<int>)
    requires Positive(shape) && IsBase(b, shape, Mask(axis, |shape|, false))
    ensures forall d :: 0 <= d < |shape| && d in axis ==> Coords(b, shape)[d] == 0
  {
    var kept := Mask(axis, |shape|, false);
    forall d | 0 <= d < |shape| && d in axis ensures Coords(b, shape)[d] == 0 {
      assert !kept[d];
    }
  }

  lemma SpreadIsGroup(g: seq<nat>, b: nat, i: nat, shape: Shape, axis: seq<int>)
    requires Positive(shape) && b < Size(shape) && Project(b, shape, Mask(axis, |shape|, false)) == i
    requires NoDup(g) && |g| == Size(Filter(shape, Mask(axis, |shape|, true)))
    requires forall a: nat :: a in g <==> Spread(a, b, shape, Mask(axis, |shape|, true), |shape|)
    ensures IsGroup(g, i, shape, axis)
  {
    forall a: nat ensures a in g <==> a < Size(shape) && Project(a, shape, Mask(axis, |shape|, false)) == i {
      GroupIsSpread(a, b, shape, axis);
    }
  }

  /** The loops shared by build_indices and get_reduction_map. */
  method Groups(shape: Shape, stride: seq<nat>, axis: seq<int>) returns (index: seq<seq<nat>>)
    requires Positive(shape) && stride == Strides(shape)
    ensures IsIndex(index, shape, axis)
  {
    ghost var kept := Mask(axis, |shape|, false);
    ZeroCoords(shape);
    var grown := GrowAll(0, shape, stride, axis, false);
    var ind := Sort(grown);
    SortedKeepsElements(ind, grown);
    forall a: nat ensures a in ind <==> IsBase(a, shape, kept) {
      BasesAreSpread(a, shape, axis);
    }
    BasesInOrder(ind, shape, kept);
    index := [];
    for i := 0 to |ind|
      invariant |index| == i
      invariant forall m :: 0 <= m < i ==> IsGroup(index[m], m, shape, axis)
    {
      assert ind[i] in ind;
      BaseReduced(ind[i], shape, axis);
      var group := GrowAll(ind[i], shape, stride, axis, true);
      SpreadIsGroup(group, ind[i], i, shape, axis);
      index := index + [group];
    }
  }

  // ---------------------------------------------------------------- the tables

  /** The forward table: every address holds the reduced address of its group. */
  ghost predicate IsForward(table: seq<nat>, shape: Shape, axis: seq<int>)
    requires Positive(shape)
  {
    |table| == Size(shape) && forall a: nat {:trigger table[a]} :: a < Size(shape) ==>
      table[a] == Project(a, shape, Mask(axis, |shape|, false))
  }

  lemma ForwardIsUnique(t: seq<nat>, u: seq<nat>, shape: Shape, axis: seq<int>)
    requires Positive(shape) && IsForward(t, shape, axis) && IsForward(u, shape, axis)
    ensures t == u
  {
    forall a: nat | a < |t| ensures t[a] == u[a] {
      assert t[a] == Project(a, shape, Mask(axis, |shape|, false));
    }
  }

  /** The addresses written after i groups: each once, and exactly those that project below i. */
  ghost predicate WrittenBelow(writes: seq<nat>, table: seq<nat>, i: nat, shape: Shape, axis: seq<int>)
    requires Positive(shape)
  {
    && |table| == Size(shape) && NoDup(writes)
    && (forall a: nat {:trigger a in writes} :: a in writes <==>
        a < Size(shape) && Project(a, shape, Mask(axis, |shape|, false)) < i)
    && (forall a: nat {:trigger table[a]} :: a < Size(shape) && Project(a, shape, Mask(axis, |shape|, false)) < i ==>
          table[a] == Project(a, shape, Mask(axis, |shape|, false)))
  }

  lemma GroupWritten(writes: seq<nat>, before: seq<nat>, after: seq<nat>, g: seq<nat>, i: nat, shape: Shape,
                     axis: seq<int>)
    requires Positive(shape) && WrittenBelow(writes, before, i, shape, axis) && IsGroup(g, i, shape, axis)
    requires |after| == |before| && forall a :: 0 <= a < |after| ==> after[a] == if a in g then i else before[a]
    ensures WrittenBelow(writes + g, after, i + 1, shape, axis)
  {
    var kept := Mask(axis, |shape|, false);
    forall m | 0 <= m < |g| ensures g[m] !in writes {
      assert g[m] in g;
    }
    AppendDistinct(writes, g);
    forall a: nat ensures a in writes + g <==> a < Size(shape) && Project(a, shape, kept) < i + 1 {
      assert a in writes + g <==> a in writes || a in g;
    }
    forall a: nat | a < Size(shape) && Project(a, shape, kept) < i + 1 ensures after[a] == Project(a, shape, kept) {
      assert a in g <==> Project(a, shape, kept) == i;
    }
  }

  /** The writing loop shared by build_map and get_reduction_map; writes records its cells. */
  method WriteGroups(index: seq<seq<nat>>, table: array<nat>, ghost shape: Shape, ghost axis: seq<int>)
    returns (ghost writes: seq<nat>)
    requires Positive(shape) && IsIndex(index, shape, axis) && table.Length == Size(shape)
    modifies table
    ensures IsForward(table[..], shape, axis)
    ensures NoDup(writes) && |writes| == Size(shape)
  {
    writes := [];
    for i := 0 to |index|
      invariant WrittenBelow(writes, table[..], i, shape, axis)
    {
      ghost var before := table[..];
      assert forall m :: 0 <= m < |index[i]| ==> index[i][m] < table.Length by {
        forall m | 0 <= m < |index[i]| ensures index[i][m] < table.Length { assert index[i][m] in index[i]; }
      }
      WriteAll(table, index[i], i);
      GroupWritten(writes, before, table[..], index[i], i, shape, axis);
      writes := writes + index[i];
    }
    ghost var kept := Mask(axis, |shape|, false);
    forall a: nat | a < Size(shape) ensures Project(a, shape, kept) < |index| {
      ProjectInRange(a, shape, kept);
    }
    CoverAll(writes, Size(shape));
  }

  lemma SizesMultiply(shape: Shape, axis: seq<int>)
    ensures Size(shape) ==
      Size(Filter(shape, Mask(axis, |shape|, false))) * Size(Filter(shape, Mask(axis, |shape|, true)))
  {
    SizeSplits(shape, axis, |shape|);
    TakeAll(shape);
    TakeAll(Mask(axis, |shape|, false));
    TakeAll(Mask(axis, |shape|, true));
  }

  /** How many addresses share a reduced address. */
  ghost function GroupSize(shape: Shape, axis: seq<int>): (n: nat)
    requires Positive(shape)
    ensures n > 0
  {
    FilterPositive(shape, Mask(axis, |shape|, true));
    Size(Filter(shape, Mask(axis, |shape|, true)))
  }

  /** The k-th cell of the reverse table is the j-th address of group i, which projects to i. */
  lemma CellInGroup(index: seq<seq<nat>>, fwd: seq<nat>, n: nat, k: nat, shape: Shape, axis: seq<int>)
    returns (i: nat, j: nat)
    requires Positive(shape) && IsIndex(index, shape, axis) && IsForward(fwd, shape, axis)
    requires n == GroupSize(shape, axis) && k < |Concat(index)|
    ensures k / n == i < |index| && k % n == j < |index[i]| && NoDup(index[i])
    ensures Concat(index)[k] == index[i][j] < |fwd| && fwd[index[i][j]] == i
  {
    IndexRows(index, shape, axis);
    ConcatLength(index, n);
    i, j := SplitDigit(k, |index|, n);
    DivModUnique(k, n, i, j);
    ConcatCell(index, n, i, j);
    assert IsGroup(index[i], i, shape, axis);
    assert index[i][j] in index[i];
  }

  lemma IndexRows(index: seq<seq<nat>>, shape: Shape, axis: seq<int>)
    requires Positive(shape) && IsIndex(index, shape, axis)
    ensures SameWidth(index, GroupSize(shape, axis)) && |Concat(index)| == Size(shape)
  {
    var n := GroupSize(shape, axis);
    forall i | 0 <= i < |index| ensures |index[i]| == n {
      assert IsGroup(index[i], i, shape, axis);
    }
    ConcatLength(index, n);
    SizesMultiply(shape, axis);
  }

  /** Reducing what the reverse table lists: cell k belongs to reduced address k / n, for groups of
      n; and the reverse table lists every address exactly once. */
  lemma ForwardOfReverse(index: seq<seq<nat>>, fwd: seq<nat>, shape: Shape, axis: seq<int>)
    requires Positive(shape) && IsIndex(index, shape, axis) && IsForward(fwd, shape, axis)
    ensures var rev: seq<nat> := Concat(index);
      && |rev| == |fwd| == Size(shape) && NoDup(rev)
      && forall k {:trigger rev[k]} :: 0 <= k < |rev| ==> rev[k] < |fwd| && fwd[rev[k]] == k / GroupSize(shape, axis)
  {
    var n := GroupSize(shape, axis);
    var rev: seq<nat> := Concat(index);
    IndexRows(index, shape, axis);
    forall k | 0 <= k < |rev| ensures rev[k] < |fwd| && fwd[rev[k]] == k / n {
      var i, j := CellInGroup(index, fwd, n, k, shape, axis);
    }
    forall k | 0 <= k < |rev| ensures Pos(rev, rev[k]) == k {
      var q := Pos(rev, rev[k]);
      var i, j := CellInGroup(index, fwd, n, k, shape, axis);
      var i', j' := CellInGroup(index, fwd, n, q, shape, axis);
      assert i == i' && Pos(index[i], index[i][j]) == j && Pos(index[i], index[i][j']) == j';
      SameDigits(k, q, n);
    }
  }

  /** The inner loop of build_map(true). */
  method CopyGroup(table: array<nat>, group: seq<nat>, k0: nat) returns (k: nat)
    requires k0 + |group| <= table.Length
    modifies table
    ensures k == k0 + |group| && table[..k] == old(table[..k0]) + group
  {
    k := k0;
    for j := 0 to |group|
      invariant k == k0 + j && table[..k] == old(table[..k0]) + group[..j]
    {
      table[k] := group[j];
      k := k + 1;
    }
  }

  // ---------------------------------------------------------------- the descriptor

  class ReduceDescriptor {
    const axis: seq<int>
    const keepdims: bool
    var ishape: Shape
    var oshape: Shape
    var index: seq<seq<nat>>
    var sizeReduction: nat
    var cpuAddresses: array<nat>

    constructor (axis: seq<int>, keepdims: bool)
      ensures this.axis == axis && this.keepdims == keepdims
    {
      this.axis, this.keepdims := axis, keepdims;
      ishape, oshape, index, sizeReduction := [], [], [], 0;
      cpuAddresses := new nat[0];
    }

    ghost predicate Built()
      reads this
    {
      && Positive(ishape) && IsIndex(index, ishape, axis)
      && oshape == (if keepdims then ishape else Filter(ishape, Mask(axis, |ishape|, false)))
      && Size(oshape) > 0 && sizeReduction == Size(ishape) / Size(oshape)
    }

    method ComputeOutput()
      modifies this`oshape
      ensures oshape == if keepdims then ishape else Filter(ishape, Mask(axis, |ishape|, false))
    {
      if keepdims {
        oshape := ishape;
      } else {
        ghost var kept := Mask(axis, |ishape|, false);
        oshape := [];
        for i := 0 to |ishape|
          invariant oshape == Filter(ishape[..i], kept[..i])
        {
          FilterOneMore(ishape, kept, i);
          if i !in axis {
            oshape := oshape + [ishape[i]];
          }
        }
        TakeAll(ishape);
        TakeAll(kept);
      }
    }

    method BuildIndices()
      requires Positive(ishape)
      modifies this`index
      ensures IsIndex(index, ishape, axis)
    {
      var istride := Shape2Stride(ishape);
      assert ishape == [] ==> Strides(ishape) == [];
      index := Groups(ishape, if ishape == [] then [] else istride, axis);
    }

    /** Fails, as the program does, on too many axes or on an axis out of range. */
    method Build(shape: Shape) returns (ok: bool)
      requires Positive(shape)
      modifies this
      ensures ok <==> |axis| < |shape| && forall i :: 0 <= i < |axis| ==> 0 <= axis[i] < |shape|
      ensures ok ==> ishape == shape && Built()
    {
      ishape := shape;
      if |axis| >= |ishape| { return false; }
      for i := 0 to |axis|
        invariant forall m :: 0 <= m < i ==> 0 <= axis[m] < |ishape|
      {
        if axis[i] < 0 || axis[i] >= |ishape| { return false; }
      }
      ComputeOutput();
      BuildIndices();
      SetSizeReduction();
      ok := true;
    }

    method SetSizeReduction()
      requires Positive(ishape) && oshape == if keepdims then ishape else Filter(ishape, Mask(axis, |ishape|, false))
      modifies this`sizeReduction
      ensures Size(oshape) > 0 && sizeReduction == Size(ishape) / Size(oshape)
    {
      FilterPositive(ishape, Mask(axis, |ishape|, false));
      var isize := Shape2Size(ishape);
      var osize := Shape2Size(oshape);
      sizeReduction := isize / osize;
    }

    /** build_map(false): the parallel loop over groups writes every cell exactly once. */
    method BuildForward() returns (ghost writes: seq<nat>)
      requires Built()
      modifies this`cpuAddresses
      ensures fresh(cpuAddresses) && IsForward(cpuAddresses[..], ishape, axis)
      ensures NoDup(writes) && |writes| == Size(ishape)
    {
      var size := Shape2Size(ishape);
      var table := new nat[size];
      writes := WriteGroups(index, table, ishape, axis);
      cpuAddresses := table;
    }

    /** build_map(true). */
    method BuildReverse()
      requires Built()
      modifies this`cpuAddresses
      ensures fresh(cpuAddresses) && cpuAddresses[..] == Concat(index)
    {
      var size := Shape2Size(ishape);
      IndexRows(index, ishape, axis);
      var table := new nat[size];
      var k := 0;
      for i := 0 to |index|
        invariant k == |Concat(index[..i])| <= table.Length && table[..k] == Concat(index[..i])
      {
        ConcatPrefix(index, i);
        k := CopyGroup(table, index[i], k);
      }
      TakeAll(index);
      cpuAddresses := table;
    }

    /** What size_reduction is: the group size, unless keepdims makes the output shape the input
        shape. */
    lemma SizeReductionIs()
      requires Built()
      ensures sizeReduction == if keepdims then 1 else GroupSize(ishape, axis)
    {
      if keepdims {
        DivOfProduct(Size(ishape), 1, Size(oshape));
      } else {
        SizesMultiply(ishape, axis);
        DivOfProduct(Size(ishape), GroupSize(ishape, axis), Size(oshape));
      }
    }

    /** Dividing by size_reduction leads from a reverse cell to its reduced address exactly when
        dimensions are not kept, or nothing is really reduced. */
    lemma SizeReductionDivides(fwd: seq<nat>, rev: seq<nat>)
      requires Built() && IsForward(fwd, ishape, axis) && rev == Concat(index)
      ensures sizeReduction > 0 && |rev| == |fwd| && forall k {:trigger rev[k]} :: 0 <= k < |rev| ==> rev[k] < |fwd|
      ensures (forall k {:trigger rev[k]} :: 0 <= k < |rev| ==> fwd[rev[k]] == k / sizeReduction) <==>
        !keepdims || GroupSize(ishape, axis) == 1
    {
      SizeReductionIs();
      ForwardOfReverse(index, fwd, ishape, axis);
      var n := GroupSize(ishape, axis);
      if keepdims && n > 1 {
        SizesMultiply(ishape, axis);
        FilterPositive(ishape, Mask(axis, |ishape|, false));
        MulLower(|index|, n);
        DivModUnique(1, n, 0, 1);
        assert fwd[rev[1]] == 0;
      }
    }
  }

  /** get_reduction_map, on the strides of the tensor; axes out of range are ignored. */
  method GetReductionMap(a: TensorShape, axis: seq<int>) returns (ok: bool, redmap: array<nat>)
    requires Positive(a.shape) && a.ndim == |a.shape| && a.size == Size(a.shape) && a.stride == Strides(a.shape)
    ensures fresh(redmap)
    ensures ok <==> |axis| < a.ndim
    ensures ok ==> IsForward(redmap[..], a.shape, axis)
  {
    if |axis| >= a.ndim {
      redmap := new nat[0];
      return false, redmap;
    }
    redmap := new nat[a.size];
    var index := Groups(a.shape, a.stride, axis);
    ghost var writes := WriteGroups(index, redmap, a.shape, axis);
    ok := true;
  }

  /** Both ways of building the table give the same one, whatever strides routine fed them. */
  method BothMaps(shape: Shape, axis: seq<int>, keepdims: bool) returns (ok: bool, fwd: seq<nat>, redmap: seq<nat>)
    requires Positive(shape)
    ensures ok <==> |axis| < |shape| && forall i :: 0 <= i < |axis| ==> 0 <= axis[i] < |shape|
    ensures ok ==> fwd == redmap && IsForward(fwd, shape, axis)
  {
    fwd, redmap := [], [];
    var rd := new ReduceDescriptor(axis, keepdims);
    ok := rd.Build(shape);
    if ok {
      ghost var writes := rd.BuildForward();
      fwd := rd.cpuAddresses[..];
      var t := new TensorShape(shape);
      var found, map1 := GetReductionMap(t, axis);
      redmap := map1[..];
      ForwardIsUnique(fwd, redmap, shape, axis);
    }
  }
}
