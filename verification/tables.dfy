/** Lookup tables for slicing and permuting tensors. */
module Tables {
  import opened Arithmetic
  import opened Addresses
  import opened Sequences

  // ---------------------------------------------------------------- shapes and strides

  /** shape2size. */
  method Shape2Size(shape: Shape) returns (size: nat)
    ensures size == Size(shape)
  {
    size := 1;
    for i := 0 to |shape|
      invariant size * Size(shape[i..]) == Size(shape)
    {
      MulAssoc(size, shape[i], Size(shape[i + 1..]));
      assert shape[i..][1..] == shape[i + 1..];
      MulPositive(size, shape[i]);
      size := size * shape[i];
    }
  }

  /** shape2stride, from the last axis to the first; a scalar shape still gets one stride. */
  method Shape2Stride(shape: Shape) returns (stride: seq<nat>)
    ensures stride == if shape == [] then [1] else Strides(shape)
  {
    stride := [1];
    if shape == [] { return; }
    var i := |shape| - 1;
    assert shape[i..][1..] == [];
    while i > 0
      invariant 0 <= i < |shape|
      invariant stride == Strides(shape)[i..]
    {
      assert shape[i..][1..] == shape[i + 1..];
      MulPositive(shape[i], stride[0]);
      stride := [shape[i] * stride[0]] + stride;
      i := i - 1;
    }
  }

  /** The shape fields of a tensor. */
  class TensorShape {
    var shape: Shape
    var ndim: nat
    var size: nat
    var stride: seq<nat>

    constructor (shape: Shape)
      requires Positive(shape)
      ensures this.shape == shape && ndim == |shape| && size == Size(shape) && stride == Strides(shape)
    {
      this.shape, ndim, size, stride := [], 0, 1, [];
      new;
      UpdateShape(shape);
      UpdateSize();
      UpdateStrides();
    }

    method UpdateShape(newShape: Shape)
      modifies this`shape, this`ndim
      ensures shape == newShape && ndim == |newShape|
    {
      shape, ndim := newShape, |newShape|;
    }

    method UpdateSize()
      modifies this`size
      ensures size == Size(shape)
    {
      size := Shape2Size(shape);
    }

    /** Divides the size down, axis by axis; the result is the multiplied strides of
        shape2stride. */
    method UpdateStrides()
      requires Positive(shape) && ndim == |shape| && size == Size(shape)
      modifies this`stride
      ensures stride == Strides(shape)
    {
      stride := [];
      var newSize := size;
      for i := 0 to ndim
        invariant newSize == Size(shape[i..])
        invariant stride == Strides(shape)[..i]
      {
        assert shape[i..][1..] == shape[i + 1..];
        DivModUnique(newSize, shape[i], Size(shape[i + 1..]), 0);
        newSize := newSize / shape[i];
        stride := stride + [newSize];
      }
    }
  }

  /** fast_indices2address. */
  method FastIndices2Address(indices: seq<nat>, strides: seq<nat>, ghost shape: Shape) returns (address: nat)
    requires |indices| == |shape| && strides == Strides(shape)
    ensures address == Address(indices, shape)
  {
    address := 0;
    for i := 0 to |indices|
      invariant address == Dot(indices[..i], strides[..i])
    {
      DotOneMore(indices, strides, i);
      address := address + indices[i] * strides[i];
    }
    TakeAll(indices);
    TakeAll(strides);
    DotIsAddress(indices, shape);
  }

  /** fast_address2indices. */
  method FastAddress2Indices(address: nat, indices: array<nat>, shape: Shape, strides: seq<nat>)
    requires Positive(shape) && indices.Length == |shape| && strides == Strides(shape) && address < Size(shape)
    modifies indices
    ensures indices[..] == Coords(address, shape)
  {
    for i := 0 to |shape|
      invariant forall d :: 0 <= d < i ==> indices[d] == Coords(address, shape)[d]
    {
      CoordIsDigit(address, shape, i);
      indices[i] := address / strides[i] % shape[i];
    }
  }

  // ---------------------------------------------------------------- reading and writing through a table

  /** cpu_addresses[b] = value for every b in targets. */
  method WriteAll(table: array<nat>, targets: seq<nat>, value: nat)
    requires forall m :: 0 <= m < |targets| ==> targets[m] < table.Length
    modifies table
    ensures forall b :: 0 <= b < table.Length ==> table[b] == if b in targets then value else old(table[b])
  {
    for i := 0 to |targets|
      invariant forall b :: 0 <= b < table.Length ==> table[b] == if b in targets[..i] then value else old(table[b])
    {
      TakeOneMore(targets, i);
      table[targets[i]] := value;
    }
    TakeAll(targets);
  }

  /** set_select: writes the k-th value of src at address t[k]. */
  method SetSelect<V>(dst: array<V>, t: seq<nat>, src: seq<V>)
    requires |src| == |t| && NoDup(t) && forall b :: 0 <= b < |t| ==> t[b] < dst.Length
    modifies dst
    ensures Gather(dst[..], t) == src
    ensures forall a :: 0 <= a < dst.Length && a !in t ==> dst[a] == old(dst[a])
  {
    for b := 0 to |t|
      invariant forall k :: 0 <= k < b ==> dst[t[k]] == src[k]
      invariant forall a :: 0 <= a < dst.Length && a !in t[..b] ==> dst[a] == old(dst[a])
    {
      TakeOneMore(t, b);
      assert forall k :: 0 <= k < b ==> t[k] != t[b] by {
        assert Pos(t, t[b]) == b;
      }
      dst[t[b]] := src[b];
    }
    assert t[..|t|] == t;
  }

  /** select: reads the cells the table names. */
  method SelectCells<V>(src: array<V>, t: seq<nat>) returns (r: seq<V>)
    requires forall b :: 0 <= b < |t| ==> t[b] < src.Length
    ensures r == Gather(src[..], t)
  {
    r := [];
    for b := 0 to |t|
      invariant r == Gather(src[..], t)[..b]
    {
      r := r + [src[t[b]]];
    }
  }

  // ---------------------------------------------------------------- permutations

  ghost predicate IsAxes(dims: seq<nat>, n: nat) {
    |dims| == n && (forall d :: 0 <= d < n ==> dims[d] < n) && NoDup(dims)
  }

  lemma {:induction false} SizeRemove(s: Shape, i: nat)
    requires i < |s|
    ensures Size(s) == s[i] * Size(s[..i] + s[i + 1..])
  {
    var r := s[..i] + s[i + 1..];
    if i == 0 {
      assert r == s[1..];
    } else {
      SizeRemove(s[1..], i - 1);
      assert r[1..] == s[1..][..i - 1] + s[1..][i..];
      assert r[0] == s[0];
      var x := Size(r[1..]);
      assert s[0] * (s[i] * x) == s[i] * (s[0] * x) by { MulSwap(s[0], s[i], x); }
    }
  }

  lemma MultisetWithout(t: seq<nat>, i: nat)
    requires i < |t|
    ensures multiset(t) == multiset(t[..i] + t[i + 1..]) + multiset{t[i]}
  {
    assert t == t[..i] + ([t[i]] + t[i + 1..]);
  }

  lemma RemoveSame(s: Shape, t: Shape, i: nat)
    requires multiset(s) == multiset(t) && s != [] && i < |t| && t[i] == s[0]
    ensures multiset(s[1..]) == multiset(t[..i] + t[i + 1..])
  {
    MultisetWithout(s, 0);
    MultisetWithout(t, i);
    assert s[..0] + s[1..] == s[1..];
    assert multiset(s[1..]) == multiset(s) - multiset{s[0]};
    assert multiset(t[..i] + t[i + 1..]) == multiset(t) - multiset{t[i]};
  }

  lemma {:induction false} SizeOfRearranged(s: Shape, t: Shape)
    requires multiset(s) == multiset(t)
    ensures Size(s) == Size(t)
  {
    if s == [] {
      assert |multiset(t)| == 0;
    } else {
      assert s[0] in multiset(t);
      var i :| 0 <= i < |t| && t[i] == s[0];
      RemoveSame(s, t, i);
      SizeOfRearranged(s[1..], t[..i] + t[i + 1..]);
      SizeRemove(t, i);
    }
  }

  /** Every axis occurs in a permutation of the axes. */
  lemma AllAxes(dims: seq<nat>, n: nat)
    requires IsAxes(dims, n)
    ensures forall x :: 0 <= x < n ==> x in dims && dims[Pos(dims, x)] == x
  {
    var all := UpTo(n);
    forall i | 0 <= i < n ensures Pos(all, all[i]) == i && dims[i] in all {
      assert all[dims[i]] == dims[i];
    }
    SameElements(dims, all);
    forall x | 0 <= x < n ensures x in dims {
      assert all[x] == x;
    }
  }

  /** The axes that undo dims: axis dims[d] of the input is axis d of the output. */
  ghost function InverseAxes(dims: seq<nat>): (r: seq<nat>)
    requires IsAxes(dims, |dims|)
  {
    AllAxes(dims, |dims|);
    seq(|dims|, x requires 0 <= x < |dims| => Pos(dims, x))
  }

  lemma InverseIsAxes(dims: seq<nat>)
    requires IsAxes(dims, |dims|)
    ensures var inv := InverseAxes(dims);
      IsAxes(inv, |dims|) && forall x :: 0 <= x < |dims| ==> dims[inv[x]] == x && inv[dims[x]] == x
  {
    AllAxes(dims, |dims|);
    var inv := InverseAxes(dims);
    forall x | 0 <= x < |dims| ensures inv[x] < |dims| && dims[inv[x]] == x && Pos(inv, inv[x]) == x {
      assert dims[inv[Pos(inv, inv[x])]] == Pos(inv, inv[x]);
    }
  }

  lemma GatherInverse(s: seq<nat>, dims: seq<nat>)
    requires IsAxes(dims, |s|)
    ensures var inv := InverseAxes(dims);
      && IsAxes(inv, |s|) && Gather(Gather(s, dims), inv) == s && Gather(Gather(s, inv), dims) == s
  {
    InverseIsAxes(dims);
  }

  lemma RemoveLastAxis(dims: seq<nat>, n: nat, j: nat)
    requires IsAxes(dims, n + 1) && j <= n && dims[j] == n
    ensures IsAxes(dims[..j] + dims[j + 1..], n)
  {
    var rest := dims[..j] + dims[j + 1..];
    forall d | 0 <= d < n ensures rest[d] < n && Pos(rest, rest[d]) == d {
      var e := Pos(rest, rest[d]);
      var d', e' := if d < j then d else d + 1, if e < j then e else e + 1;
      assert dims[d'] == rest[d] == rest[e] == dims[e'];
      assert Pos(dims, dims[d']) == d' && Pos(dims, dims[e']) == e' && Pos(dims, dims[j]) == j;
    }
  }

  lemma {:induction false} GatherRearranges(s: seq<nat>, dims: seq<nat>)
    requires IsAxes(dims, |s|)
    ensures multiset(Gather(s, dims)) == multiset(s)
  {
    if s != [] {
      var n := |s| - 1;
      AllAxes(dims, |s|);
      var j := Pos(dims, n);
      RemoveLastAxis(dims, n, j);
      var rest := dims[..j] + dims[j + 1..];
      GatherRearranges(s[..n], rest);
      MultisetOfGather(s, dims, j, rest);
      assert s == s[..n] + [s[n]];
    }
  }

  lemma MultisetOfGather(s: seq<nat>, dims: seq<nat>, j: nat, rest: seq<nat>)
    requires j < |dims| == |s| && rest == dims[..j] + dims[j + 1..]
    requires (forall d :: 0 <= d < |dims| ==> dims[d] < |s|) && (forall d :: 0 <= d < |rest| ==> rest[d] < |s| - 1)
    ensures multiset(Gather(s, dims)) == multiset(Gather(s[..|s| - 1], rest)) + multiset{s[dims[j]]}
  {
    var g := Gather(s[..|s| - 1], rest);
    GatherSplit(s, dims, j, rest);
    assert g == g[..j] + g[j..];
  }

  lemma GatherSplit(s: seq<nat>, dims: seq<nat>, j: nat, rest: seq<nat>)
    requires j < |dims| == |s| && rest == dims[..j] + dims[j + 1..]
    requires (forall d :: 0 <= d < |dims| ==> dims[d] < |s|) && (forall d :: 0 <= d < |rest| ==> rest[d] < |s| - 1)
    ensures var g := Gather(s[..|s| - 1], rest);
      Gather(s, dims) == g[..j] + [s[dims[j]]] + g[j..]
  {
    var g := Gather(s[..|s| - 1], rest);
    forall d | 0 <= d < |dims| ensures Gather(s, dims)[d] == (g[..j] + [s[dims[j]]] + g[j..])[d] {
      if d < j { assert rest[d] == dims[d]; }
      if d > j { assert rest[d - 1] == dims[d]; }
    }
  }

  /** The address in the permuted tensor of what was at address a. */
  function Moved(a: nat, ishape: Shape, dims: seq<nat>): nat
    requires Positive(ishape) && IsAxesShape(dims, |ishape|)
  {
    Address(Gather(Coords(a, ishape), dims), Gather(ishape, dims))
  }

  predicate IsAxesShape(dims: seq<nat>, n: nat) {
    |dims| == n && forall d :: 0 <= d < n ==> dims[d] < n
  }

  /** What permute_indices fills: cell Moved(a) names a, for every address a. */
  ghost predicate PermuteTable(t: seq<nat>, ishape: Shape, dims: seq<nat>) {
    && Positive(ishape) && IsAxes(dims, |ishape|) && |t| == Size(ishape)
    && forall a {:trigger Moved(a, ishape, dims)} :: 0 <= a < Size(ishape) ==>
        Moved(a, ishape, dims) < |t| && t[Moved(a, ishape, dims)] == a
  }

  lemma MovedCoords(a: nat, ishape: Shape, dims: seq<nat>)
    requires Positive(ishape) && IsAxes(dims, |ishape|) && a < Size(ishape)
    ensures Positive(Gather(ishape, dims)) && Size(Gather(ishape, dims)) == Size(ishape)
    ensures Moved(a, ishape, dims) < Size(ishape)
    ensures Coords(Moved(a, ishape, dims), Gather(ishape, dims)) == Gather(Coords(a, ishape), dims)
  {
    GatherRearranges(ishape, dims);
    SizeOfRearranged(Gather(ishape, dims), ishape);
    CoordsInBox(a, ishape);
    AddressInRange(Gather(Coords(a, ishape), dims), Gather(ishape, dims));
    CoordsOfAddress(Gather(Coords(a, ishape), dims), Gather(ishape, dims));
  }

  lemma MovedBack(a: nat, ishape: Shape, dims: seq<nat>)
    requires Positive(ishape) && IsAxes(dims, |ishape|) && a < Size(ishape)
    ensures var oshape, inv := Gather(ishape, dims), InverseAxes(dims);
      && Positive(oshape) && IsAxes(inv, |ishape|) && Gather(oshape, inv) == ishape
      && Moved(Moved(a, ishape, dims), oshape, inv) == a
  {
    MovedCoords(a, ishape, dims);
    GatherInverse(ishape, dims);
    GatherInverse(Coords(a, ishape), dims);
    AddressOfCoords(a, ishape);
  }

  /** The table is a bijection on the addresses. */
  lemma PermuteTableIsBijection(t: seq<nat>, ishape: Shape, dims: seq<nat>)
    requires PermuteTable(t, ishape, dims)
    ensures forall b {:trigger t[b]} :: 0 <= b < |t| ==> t[b] < |t| && Moved(t[b], ishape, dims) == b
    ensures NoDup(t)
  {
    var oshape, inv := Gather(ishape, dims), InverseAxes(dims);
    forall b | 0 <= b < |t| ensures t[b] < |t| && Moved(t[b], ishape, dims) == b {
      GatherRearranges(ishape, dims);
      SizeOfRearranged(oshape, ishape);
      GatherInverse(ishape, dims);
      MovedCoords(b, oshape, inv);
      var a := Moved(b, oshape, inv);
      CoordsInBox(b, oshape);
      GatherInverse(Coords(b, oshape), dims);
      AddressOfCoords(b, oshape);
      assert Moved(a, ishape, dims) == b;
    }
    forall b | 0 <= b < |t| ensures Pos(t, t[b]) == b {
      assert t[Pos(t, t[b])] == t[b];
    }
  }

  /** Permuting and permuting back restores the data. */
  lemma PermuteRoundTrip<V>(t: seq<nat>, u: seq<nat>, ishape: Shape, dims: seq<nat>, data: seq<V>)
    requires PermuteTable(t, ishape, dims) && |data| == Size(ishape)
    requires PermuteTable(u, Gather(ishape, dims), InverseAxes(dims))
    ensures (forall b :: 0 <= b < |t| ==> t[b] < |data|) && (forall a :: 0 <= a < |u| ==> u[a] < |t|)
    ensures Gather(Gather(ishape, dims), InverseAxes(dims)) == ishape
    ensures Gather(Gather(data, t), u) == data
  {
    GatherInverse(ishape, dims);
    PermuteTableIsBijection(t, ishape, dims);
    PermuteTableIsBijection(u, Gather(ishape, dims), InverseAxes(dims));
    GatherRearranges(ishape, dims);
    SizeOfRearranged(Gather(ishape, dims), ishape);
    forall a | 0 <= a < |u| ensures t[u[a]] == a {
      MovedBack(a, ishape, dims);
      MovedCoords(a, ishape, dims);
      assert Moved(a, ishape, dims) < |t|;
      assert u[Moved(Moved(a, ishape, dims), Gather(ishape, dims), InverseAxes(dims))] == Moved(a, ishape, dims);
    }
  }

  /** The inner loop of permute_indices: the sum of permuted coordinates times strides. */
  method MovedAddress(a: nat, ishape: Shape, dims: seq<nat>, istride: seq<nat>, ostride: seq<nat>) returns (pos: nat)
    requires Positive(ishape) && IsAxesShape(dims, |ishape|) && a < Size(ishape)
    requires istride == Strides(ishape) && ostride == Strides(Gather(ishape, dims))
    ensures pos == Moved(a, ishape, dims)
  {
    ghost var moved := Gather(Coords(a, ishape), dims);
    pos := 0;
    for d := 0 to |ishape|
      invariant pos == Dot(moved[..d], ostride[..d])
    {
      CoordIsDigit(a, ishape, dims[d]);
      var idx := a / istride[dims[d]] % ishape[dims[d]];
      assert idx == moved[d];
      DotOneMore(moved, ostride, d);
      pos := pos + idx * ostride[d];
    }
    TakeAll(moved);
    TakeAll(ostride);
    DotIsAddress(moved, Gather(ishape, dims));
  }

  /** After the first i writes, a cell that some address is moved to holds the last such address. */
  ghost predicate LastMoved(t: seq<nat>, i: nat, ishape: Shape, dims: seq<nat>)
    requires Positive(ishape) && IsAxesShape(dims, |ishape|)
  {
    forall m: nat {:trigger Moved(m, ishape, dims)} :: m < i ==>
      var p := Moved(m, ishape, dims);
      p < |t| && m <= t[p] < i && Moved(t[p], ishape, dims) == p
  }

  lemma LastMovedGrows(t: seq<nat>, i: nat, ishape: Shape, dims: seq<nat>)
    requires Positive(ishape) && IsAxesShape(dims, |ishape|)
    requires LastMoved(t, i, ishape, dims) && Moved(i, ishape, dims) < |t|
    ensures LastMoved(t[Moved(i, ishape, dims) := i], i + 1, ishape, dims)
  {
    var places: seq<nat> := seq(i + 1, m requires 0 <= m <= i => Moved(m, ishape, dims));
    forall m | 0 <= m < i ensures places[m] < |t| && m <= t[places[m]] < i && places[t[places[m]]] == places[m] {
      assert Moved(m, ishape, dims) == places[m];
    }
    PlaceNext(t, i, places);
    var u := t[places[i] := i];
    forall m: nat | m < i + 1
      ensures Moved(m, ishape, dims) < |u| && m <= u[Moved(m, ishape, dims)] < i + 1
      ensures Moved(u[Moved(m, ishape, dims)], ishape, dims) == Moved(m, ishape, dims)
    {
      assert places[m] == Moved(m, ishape, dims) && places[u[places[m]]] == places[m];
    }
  }

  lemma PlaceNext(t: seq<nat>, i: nat, places: seq<nat>)
    requires |places| == i + 1 && places[i] < |t|
    requires forall m :: 0 <= m < i ==> places[m] < |t| && m <= t[places[m]] < i && places[t[places[m]]] == places[m]
    ensures var u := t[places[i] := i];
      forall m :: 0 <= m <= i ==> places[m] < |u| && m <= u[places[m]] <= i && places[u[places[m]]] == places[m]
  {
  }

  /** For a permutation of the axes the last address moved to a cell is the only one. */
  lemma LastIsOnly(t: seq<nat>, ishape: Shape, dims: seq<nat>)
    requires Positive(ishape) && IsAxes(dims, |ishape|) && |t| == Size(ishape)
    requires LastMoved(t, Size(ishape), ishape, dims)
    ensures PermuteTable(t, ishape, dims)
  {
    forall a | 0 <= a < Size(ishape)
      ensures Moved(a, ishape, dims) < |t| && t[Moved(a, ishape, dims)] == a
    {
      var last := t[Moved(a, ishape, dims)];
      if a < last { MovedApart(a, last, ishape, dims); }
    }
  }

  lemma MovedApart(a: nat, b: nat, ishape: Shape, dims: seq<nat>)
    requires Positive(ishape) && IsAxes(dims, |ishape|) && a < b < Size(ishape)
    ensures Moved(a, ishape, dims) != Moved(b, ishape, dims)
  {
    MovedBack(a, ishape, dims);
    MovedBack(b, ishape, dims);
  }

  /** permute_indices; false stands for the thrown "Incompatible dimensions". */
  method PermuteIndices(ishape: Shape, dims: seq<nat>) returns (ok: bool, addresses: array<nat>)
    requires Positive(ishape) && forall d :: 0 <= d < |dims| ==> dims[d] < |ishape|
    ensures ok <==> |dims| == |ishape| && Size(Gather(ishape, dims)) == Size(ishape)
    ensures ok ==> addresses.Length == Size(ishape) && LastMoved(addresses[..], Size(ishape), ishape, dims)
    ensures IsAxes(dims, |ishape|) ==> ok && PermuteTable(addresses[..], ishape, dims)
  {
    addresses := new nat[0];
    if IsAxes(dims, |ishape|) {
      GatherRearranges(ishape, dims);
      SizeOfRearranged(Gather(ishape, dims), ishape);
    }
    if |dims| != |ishape| { return false, addresses; }
    var oshape := Gather(ishape, dims);
    var isize := Shape2Size(ishape);
    var osize := Shape2Size(oshape);
    if isize != osize { return false, addresses; }
    var istride, ostride := [], [];
    if ishape != [] {
      istride := Shape2Stride(ishape);
      ostride := Shape2Stride(oshape);
    }
    addresses := new nat[isize];
    for i := 0 to isize
      invariant LastMoved(addresses[..], i, ishape, dims)
    {
      var pos := MovedAddress(i, ishape, dims, istride, ostride);
      CoordsInBox(i, ishape);
      AddressInRange(Gather(Coords(i, ishape), dims), oshape);
      LastMovedGrows(addresses[..], i, ishape, dims);
      addresses[pos] := i;
    }
    if IsAxes(dims, |ishape|) { LastIsOnly(addresses[..], ishape, dims); }
    ok := true;
  }

  // ---------------------------------------------------------------- moveaxis

  /** The axis list built by moveaxis: the axes in order, with `source` taken out and put back at
      `destination`.  -1 stands for the last axis. */
  method MoveAxisDims(ndim: nat, source: int, destination: int) returns (ok: bool, dims: seq<nat>)
    requires ndim > 0 && source < ndim && destination < ndim
    ensures ok <==> source >= -1 && destination >= -1
    ensures ok ==> var s := if source == -1 then ndim - 1 else source;
      var d := if destination == -1 then ndim - 1 else destination;
      dims == MoveDims(ndim, s, d)
  {
    dims := [];
    if source < -1 || destination < -1 { return false, dims; }
    var s := if source == -1 then ndim - 1 else source;
    var d := if destination == -1 then ndim - 1 else destination;
    for i := 0 to ndim
      invariant |dims| == i && forall m :: 0 <= m < i ==> dims[m] == m
    {
      dims := dims + [i];
    }
    dims := dims[..s] + dims[s + 1..];
    assert |dims| == ndim - 1 && forall m :: 0 <= m < ndim - 1 ==> dims[m] == if m < s then m else m + 1;
    dims := dims[..d] + [s] + dims[d..];
    ghost var moved := MoveDims(ndim, s, d);
    assert |dims| == ndim && forall m :: 0 <= m < ndim ==> dims[m] == moved[m];
    ok := true;
  }

  /** Axis k of the result is this axis of the input. */
  function MoveDims(n: nat, s: nat, d: nat): (r: seq<nat>)
    requires s < n && d < n
    ensures |r| == n && forall k :: 0 <= k < n ==>
      r[k] == if k == d then s else if s <= k < d then k + 1 else if d < k <= s then k - 1 else k
  {
    seq(n, k requires 0 <= k < n => if k == d then s else if s <= k < d then k + 1 else if d < k <= s then k - 1 else k)
  }

  /** Moving an axis there and back is the identity. */
  lemma MoveAxisInverse(n: nat, s: nat, d: nat)
    requires s < n && d < n
    ensures IsAxes(MoveDims(n, s, d), n)
    ensures InverseAxes(MoveDims(n, s, d)) == MoveDims(n, d, s)
  {
    var dims, back := MoveDims(n, s, d), MoveDims(n, d, s);
    forall k | 0 <= k < n ensures back[dims[k]] == k && dims[back[k]] == k && Pos(dims, dims[k]) == k {
      var q := Pos(dims, dims[k]);
      assert dims[q] == dims[k];
      assert back[dims[q]] == q;
    }
    InverseIsAxes(dims);
    var inv := InverseAxes(dims);
    forall x | 0 <= x < n ensures inv[x] == back[x] {
      assert Pos(dims, dims[back[x]]) == back[x];
    }
  }

  /** moveaxis(s, d) followed by moveaxis(d, s) restores shape and data. */
  lemma MoveAxisRoundTrip<V>(t: seq<nat>, u: seq<nat>, ishape: Shape, s: nat, d: nat, data: seq<V>)
    requires s < |ishape| && d < |ishape| && |data| == Size(ishape)
    requires PermuteTable(t, ishape, MoveDims(|ishape|, s, d))
    requires PermuteTable(u, Gather(ishape, MoveDims(|ishape|, s, d)), MoveDims(|ishape|, d, s))
    ensures (forall b :: 0 <= b < |t| ==> t[b] < |data|) && (forall a :: 0 <= a < |u| ==> u[a] < |t|)
    ensures Gather(Gather(ishape, MoveDims(|ishape|, s, d)), MoveDims(|ishape|, d, s)) == ishape
    ensures Gather(Gather(data, t), u) == data
  {
    MoveAxisInverse(|ishape|, s, d);
    PermuteRoundTrip(t, u, ishape, MoveDims(|ishape|, s, d), data);
  }

  // ---------------------------------------------------------------- index ranges

  /** One parsed entry of an index list: ":", ":stop", "start:", "start:stop" or a single index. */
  datatype IndexSpec = All | To(stop: int) | From(start: int) | Span(start: int, stop: int) | At(index: int)

  /** parse_indices for one axis of extent n, after the numbers have been read: the first and last
      index selected, or no result where an error is thrown. */
  method ParseRange(spec: IndexSpec, n: nat) returns (ok: bool, min: int, max: int)
    ensures ok <==> (spec.All? && n > 0) || (!spec.All? && Selects(spec, n))
    ensures ok ==> 0 <= min <= max < n
    ensures ok ==> min == Wrap(First(spec), n) && max == Wrap(Last(spec, n), n)
    ensures forall low, high {:trigger Between(spec, n, low, high)} :: Between(spec, n, low, high) ==>
      (ok <==> 0 <= low < high <= n) && (ok ==> min == low && max == high - 1)
  {
    match spec {
      case All => min, max := 0, n;
      case To(stop) => min, max := 0, stop;
      case From(start) => min, max := start, n;
      case Span(start, stop) => min, max := start, stop;
      case At(index) => min, max := index, index;
    }
    if !spec.At? { max := max - 1; }
    if min < 0 { min := n + min; }
    if max < 0 { max := n + max; }
    ok := !(min < 0 || max < 0) && !(max < min) && !(max >= n);
  }

  function First(spec: IndexSpec): int {
    match spec
    case All => 0
    case To(stop) => 0
    case From(start) => start
    case Span(start, stop) => start
    case At(index) => index
  }

  function Last(spec: IndexSpec, n: nat): int {
    match spec
    case All => n - 1
    case To(stop) => stop - 1
    case From(start) => n - 1
    case Span(start, stop) => stop - 1
    case At(index) => index
  }

  /** Negative indices count from the end. */
  function Wrap(i: int, n: nat): int { if i < 0 then n + i else i }

  predicate Selects(spec: IndexSpec, n: nat) {
    0 <= Wrap(First(spec), n) <= Wrap(Last(spec, n), n) < n
  }

  /** Index i lies between the first and the last selected index. */
  predicate Chosen(spec: IndexSpec, n: nat, i: int) {
    Wrap(First(spec), n) <= i <= Wrap(Last(spec, n), n)
  }

  /** Index i lies in the half-open interval start:stop, negative bounds counted from the end. */
  predicate Sliced(spec: IndexSpec, n: nat, i: int)
    requires spec.To? || spec.Span?
  {
    var start := if spec.To? then 0 else if spec.start >= 0 then spec.start else n + spec.start;
    start <= i < if spec.stop >= 0 then spec.stop else n + spec.stop
  }

  /** The interval an entry stands for, from `low` up to but not including `high`, in numbers: a negative
      bound counts from the end, and a stop of 0 is the end itself. */
  ghost predicate Between(spec: IndexSpec, n: nat, low: int, high: int) {
    match spec
    case All => low == 0 && high == n
    case To(stop) => low == 0 && high == if stop > 0 then stop else n + stop
    case From(start) => low == (if start >= 0 then start else n + start) && high == n
    case Span(start, stop) =>
      low == (if start >= 0 then start else n + start) && high == if stop > 0 then stop else n + stop
    case At(index) => low == (if index >= 0 then index else n + index) && high == low + 1
  }

  /** An entry is accepted exactly when its interval is not empty and lies inside the axis, and chooses
      that interval. */
  lemma EntryInNumbers(spec: IndexSpec, n: nat, low: int, high: int)
    requires Between(spec, n, low, high)
    ensures Accepts(spec, n) <==> 0 <= low < high <= n
    ensures forall i :: Chosen(spec, n, i) <==> low <= i < high
  {
  }

  /** The four kinds of entry with bounds that are not negative. */
  lemma PlainEntries(n: nat, start: int, stop: int)
    requires 0 <= start < stop <= n
    ensures Selects(Span(start, stop), n) && forall i :: Chosen(Span(start, stop), n, i) <==> start <= i < stop
    ensures Selects(From(start), n) && forall i :: Chosen(From(start), n, i) <==> start <= i < n
    ensures Selects(To(stop), n) && forall i :: Chosen(To(stop), n, i) <==> 0 <= i < stop
    ensures Selects(At(start), n) && forall i :: Chosen(At(start), n, i) <==> i == start
    ensures Accepts(All, n) && forall i :: Chosen(All, n, i) <==> 0 <= i < n
  {
    EntryInNumbers(Span(start, stop), n, start, stop);
  }

  /** A range selects the half-open interval it is written as, except that a stop of 0 is read as
      the end of the axis. */
  lemma RangeIsHalfOpen(spec: IndexSpec, n: nat)
    requires (spec.To? || spec.Span?) && Selects(spec, n)
    ensures (forall i :: Chosen(spec, n, i) <==> Sliced(spec, n, i)) <==> spec.stop != 0
  {
    if spec.stop == 0 {
      var start := Wrap(First(spec), n);
      assert Chosen(spec, n, start) && !Sliced(spec, n, start);
    }
  }

  /** The entry ":0" is accepted, and selects the whole axis instead of nothing. */
  lemma StopZero(n: nat)
    requires n > 0
    ensures Selects(To(0), n) && (forall i :: Chosen(To(0), n, i) <==> 0 <= i < n) && (forall i :: !Sliced(To(0), n, i))
    ensures !(forall i :: Chosen(To(0), n, i) <==> Sliced(To(0), n, i))
  {
    RangeIsHalfOpen(To(0), n);
  }

  /** First and last index per axis, as parse_indices accepts them. */
  ghost predicate IsRanges(ranges: seq<(nat, nat)>, ishape: Shape) {
    |ranges| == |ishape| && forall d :: 0 <= d < |ishape| ==> ranges[d].0 <= ranges[d].1 < ishape[d]
  }

  /** indices2shape. */
  function RangeShape(ranges: seq<(nat, nat)>): (r: Shape)
    requires forall d :: 0 <= d < |ranges| ==> ranges[d].0 <= ranges[d].1
    ensures |r| == |ranges| && forall d :: 0 <= d < |ranges| ==> r[d] == ranges[d].1 - ranges[d].0 + 1
  {
    seq(|ranges|, d requires 0 <= d < |ranges| => ranges[d].1 - ranges[d].0 + 1)
  }

  function Shift(c: seq<nat>, ranges: seq<(nat, nat)>): (r: seq<nat>)
    requires |c| == |ranges|
    ensures |r| == |c| && forall d :: 0 <= d < |c| ==> r[d] == c[d] + ranges[d].0
  {
    seq(|c|, d requires 0 <= d < |c| => c[d] + ranges[d].0)
  }

  /** The input address of the i-th selected cell. */
  ghost function RangeAddress(i: nat, ranges: seq<(nat, nat)>, ishape: Shape): nat
    requires IsRanges(ranges, ishape)
  {
    Address(Shift(Coords(i, RangeShape(ranges)), ranges), ishape)
  }

  lemma RangeAddressInBox(i: nat, ranges: seq<(nat, nat)>, ishape: Shape)
    requires IsRanges(ranges, ishape) && i < Size(RangeShape(ranges))
    ensures InBox(Shift(Coords(i, RangeShape(ranges)), ranges), ishape)
    ensures RangeAddress(i, ranges, ishape) < Size(ishape)
  {
    CoordsInBox(i, RangeShape(ranges));
    AddressInRange(Shift(Coords(i, RangeShape(ranges)), ranges), ishape);
  }

  lemma ShiftFront(c: seq<nat>, ranges: seq<(nat, nat)>)
    requires |c| == |ranges| > 0
    ensures Shift(c, ranges)[0] == c[0] + ranges[0].0 && Shift(c, ranges)[1..] == Shift(c[1..], ranges[1..])
  {
  }

  lemma AddressFront(c: seq<nat>, shape: Shape, row: nat, rest: nat)
    requires |c| == |shape| > 0 && row == c[0] && rest == Address(c[1..], shape[1..])
    ensures Address(c, shape) == row * Size(shape[1..]) + rest
  {
  }

  lemma RangeStep(i: nat, ranges: seq<(nat, nat)>, ishape: Shape) returns (row: nat)
    requires IsRanges(ranges, ishape) && ishape != []
    ensures IsRanges(ranges[1..], ishape[1..]) && Size(RangeShape(ranges[1..])) > 0
    ensures row == i / Size(RangeShape(ranges[1..])) + ranges[0].0
    ensures RangeAddress(i, ranges, ishape) ==
      row * Size(ishape[1..]) + RangeAddress(i % Size(RangeShape(ranges[1..])), ranges[1..], ishape[1..])
  {
    var oshape := RangeShape(ranges);
    assert oshape[1..] == RangeShape(ranges[1..]);
    CoordsFront(i, oshape);
    ShiftFront(Coords(i, oshape), ranges);
    var c := Shift(Coords(i, oshape), ranges);
    row := c[0];
    AddressFront(c, ishape, row, RangeAddress(i % Size(RangeShape(ranges[1..])), ranges[1..], ishape[1..]));
  }

  /** The table is strictly increasing. */
  lemma {:induction false} RangeIncreasing(i: nat, j: nat, ranges: seq<(nat, nat)>, ishape: Shape)
    requires IsRanges(ranges, ishape) && i < j < Size(RangeShape(ranges))
    ensures RangeAddress(i, ranges, ishape) < RangeAddress(j, ranges, ishape)
    decreases |ishape|
  {
    if ishape != [] {
      var p := RangeStep(i, ranges, ishape);
      var q := RangeStep(j, ranges, ishape);
      var t, u := Size(RangeShape(ranges[1..])), Size(ishape[1..]);
      RangeAddressInBox(i % t, ranges[1..], ishape[1..]);
      if i / t == j / t {
        SameQuotient(i, j, t);
        RangeIncreasing(i % t, j % t, ranges[1..], ishape[1..]);
      } else {
        DivMono(i, j, t);
        RowsInOrder(p, q, u,
          RangeAddress(i % t, ranges[1..], ishape[1..]), RangeAddress(j % t, ranges[1..], ishape[1..]));
      }
    }
  }

  /** The selected cells are exactly those whose coordinates lie in the ranges. */
  lemma RangeSelectsBox(x: nat, ranges: seq<(nat, nat)>, ishape: Shape)
    requires IsRanges(ranges, ishape) && Positive(ishape) && x < Size(ishape)
    ensures (exists i {:trigger RangeAddress(i, ranges, ishape)} ::
      0 <= i < Size(RangeShape(ranges)) && RangeAddress(i, ranges, ishape) == x)
       <==> (forall d :: 0 <= d < |ishape| ==> ranges[d].0 <= Coords(x, ishape)[d] <= ranges[d].1)
  {
    if i: nat :| i < Size(RangeShape(ranges)) && RangeAddress(i, ranges, ishape) == x {
      SelectedInBox(i, ranges, ishape);
    }
    if forall d :: 0 <= d < |ishape| ==> ranges[d].0 <= Coords(x, ishape)[d] <= ranges[d].1 {
      var i := BoxIsSelected(x, ranges, ishape);
    }
  }

  lemma SelectedInBox(i: nat, ranges: seq<(nat, nat)>, ishape: Shape)
    requires IsRanges(ranges, ishape) && Positive(ishape) && i < Size(RangeShape(ranges))
    ensures var c := Coords(RangeAddress(i, ranges, ishape), ishape);
      forall d :: 0 <= d < |ishape| ==> ranges[d].0 <= c[d] <= ranges[d].1
  {
    var oshape := RangeShape(ranges);
    CoordsInBox(i, oshape);
    RangeAddressInBox(i, ranges, ishape);
    CoordsOfAddress(Shift(Coords(i, oshape), ranges), ishape);
  }

  lemma BoxIsSelected(x: nat, ranges: seq<(nat, nat)>, ishape: Shape) returns (i: nat)
    requires IsRanges(ranges, ishape) && Positive(ishape) && x < Size(ishape)
    requires forall d :: 0 <= d < |ishape| ==> ranges[d].0 <= Coords(x, ishape)[d] <= ranges[d].1
    ensures i < Size(RangeShape(ranges)) && RangeAddress(i, ranges, ishape) == x
  {
    var oshape, c := RangeShape(ranges), Coords(x, ishape);
    var o: seq<nat> := seq(|c|, d requires 0 <= d < |c| => c[d] - ranges[d].0);
    AddressInRange(o, oshape);
    CoordsOfAddress(o, oshape);
    assert Shift(o, ranges) == c;
    AddressOfCoords(x, ishape);
    i := Address(o, oshape);
  }

  /** The inner loop of ranges2indices. */
  method RangePosition(i: nat, ishape: Shape, ranges: seq<(nat, nat)>, oshape: Shape, istride: seq<nat>,
                       ostride: seq<nat>) returns (pos: nat)
    requires IsRanges(ranges, ishape) && oshape == RangeShape(ranges) && i < Size(oshape)
    requires istride == Strides(ishape) && ostride == Strides(oshape)
    ensures pos == RangeAddress(i, ranges, ishape)
  {
    ghost var c := Shift(Coords(i, oshape), ranges);
    pos := 0;
    for d := 0 to |ranges|
      invariant pos == Dot(c[..d], istride[..d])
    {
      CoordIsDigit(i, oshape, d);
      var idx := i / ostride[d] % oshape[d] + ranges[d].0;
      assert idx == c[d];
      DotOneMore(c, istride, d);
      pos := pos + idx * istride[d];
    }
    TakeAll(c);
    TakeAll(istride);
    DotIsAddress(c, ishape);
  }

  ghost predicate RangesBelow(t: seq<nat>, k: nat, ranges: seq<(nat, nat)>, ishape: Shape)
    requires IsRanges(ranges, ishape) && k <= |t|
  {
    forall m: nat {:trigger t[m]} :: m < k ==> t[m] == RangeAddress(m, ranges, ishape)
  }

  /** ranges2indices. */
  method Ranges2Indices(ishape: Shape, ranges: seq<(nat, nat)>) returns (addresses: array<nat>)
    requires IsRanges(ranges, ishape)
    ensures fresh(addresses) && addresses.Length == Size(RangeShape(ranges))
    ensures forall i :: 0 <= i < addresses.Length ==> addresses[i] == RangeAddress(i, ranges, ishape)
  {
    var oshape := RangeShape(ranges);
    var istride, ostride := [], [];
    if ishape != [] {
      istride := Shape2Stride(ishape);
      ostride := Shape2Stride(oshape);
    }
    var osize := Shape2Size(oshape);
    addresses := new nat[osize];
    for i := 0 to osize
      invariant RangesBelow(addresses[..], i, ranges, ishape)
    {
      addresses[i] := RangePosition(i, ishape, ranges, oshape, istride, ostride);
    }
  }

  /** Writing a slice and reading it back: the table is free of duplicates and in bounds, so
      SetSelect followed by Gather returns what was written. */
  lemma RangeTableWritable(t: seq<nat>, ranges: seq<(nat, nat)>, ishape: Shape)
    requires IsRanges(ranges, ishape) && |t| == Size(RangeShape(ranges))
    requires forall i :: 0 <= i < |t| ==> t[i] == RangeAddress(i, ranges, ishape)
    ensures NoDup(t) && forall i :: 0 <= i < |t| ==> t[i] < Size(ishape)
  {
    forall i | 0 <= i < |t| ensures Pos(t, t[i]) == i && t[i] < Size(ishape) {
      RangeAddressInBox(i, ranges, ishape);
      var q := Pos(t, t[i]);
      if q < i { RangeIncreasing(q, i, ranges, ishape); }
      if i < q { RangeIncreasing(i, q, ranges, ishape); }
    }
  }

  /** The entry for axis d: missing entries stand for the whole axis. */
  function Entry(specs: seq<IndexSpec>, d: nat): IndexSpec {
    if d < |specs| then specs[d] else All
  }

  predicate Accepts(spec: IndexSpec, n: nat) {
    if spec.All? then n > 0 else Selects(spec, n)
  }

  /** The ranges stand for the entries. */
  ghost predicate RangesOf(ranges: seq<(nat, nat)>, specs: seq<IndexSpec>, shape: Shape) {
    && IsRanges(ranges, shape)
    && forall d {:trigger ranges[d]} :: 0 <= d < |shape| ==>
         ranges[d].0 == Wrap(First(Entry(specs, d)), shape[d])
           && ranges[d].1 == Wrap(Last(Entry(specs, d), shape[d]), shape[d])
  }

  /** Every entry is acceptable, and there are not too many. */
  predicate AcceptsAll(specs: seq<IndexSpec>, shape: Shape) {
    |specs| <= |shape| && forall d {:trigger shape[d]} :: 0 <= d < |shape| ==> Accepts(Entry(specs, d), shape[d])
  }

  /** The ranges of acceptable entries. */
  function SpecRanges(specs: seq<IndexSpec>, shape: Shape): (ranges: seq<(nat, nat)>)
    requires AcceptsAll(specs, shape)
    ensures RangesOf(ranges, specs, shape)
  {
    seq(|shape|, d requires 0 <= d < |shape| =>
      (Wrap(First(Entry(specs, d)), shape[d]) as nat, Wrap(Last(Entry(specs, d), shape[d]), shape[d]) as nat))
  }

  /** The address has a chosen index on every axis. */
  ghost predicate IsChosen(x: nat, specs: seq<IndexSpec>, shape: Shape)
    requires Positive(shape)
  {
    x < Size(shape) && forall d {:trigger shape[d]} :: 0 <= d < |shape| ==>
      Chosen(Entry(specs, d), shape[d], Coords(x, shape)[d])
  }

  /** parse_indices on entries whose numbers have been read; false stands for its errors. */
  method ParseIndices(specs: seq<IndexSpec>, shape: Shape) returns (ok: bool, ranges: seq<(nat, nat)>)
    ensures ok <==> AcceptsAll(specs, shape)
    ensures ok ==> ranges == SpecRanges(specs, shape)
  {
    ranges := [];
    if |specs| > |shape| { return false, ranges; }
    var padded := specs;
    while |padded| < |shape|
      invariant |specs| <= |padded| <= |shape|
      invariant forall d :: 0 <= d < |padded| ==> padded[d] == Entry(specs, d)
    {
      padded := padded + [All];
    }
    for d := 0 to |padded|
      invariant |ranges| == d
      invariant forall m :: 0 <= m < d ==> Accepts(Entry(specs, m), shape[m])
      invariant forall m :: 0 <= m < d ==>
        && ranges[m].0 == Wrap(First(Entry(specs, m)), shape[m])
        && ranges[m].1 == Wrap(Last(Entry(specs, m), shape[m]), shape[m])
    {
      var good, min, max := ParseRange(padded[d], shape[d]);
      if !good { return false, ranges; }
      ranges := ranges + [(min, max)];
    }
    ok := true;
  }

  /** The cells a selection names, in the order of its table. */
  ghost function Cells(ranges: seq<(nat, nat)>, shape: Shape): (t: seq<nat>)
    requires IsRanges(ranges, shape)
    ensures |t| == Size(RangeShape(ranges)) && forall i :: 0 <= i < |t| ==> t[i] == RangeAddress(i, ranges, shape)
  {
    seq(Size(RangeShape(ranges)), i requires 0 <= i => RangeAddress(i, ranges, shape))
  }

  predicate AllBelow(t: seq<nat>, n: nat) {
    forall b :: 0 <= b < |t| ==> t[b] < n
  }

  /** The chosen addresses in numbers: on every axis with an entry the coordinate lies in the entry's
      interval; axes without one are not restricted. */
  lemma ChosenInNumbers(x: nat, specs: seq<IndexSpec>, shape: Shape)
    requires Positive(shape) && |specs| <= |shape|
    ensures IsChosen(x, specs, shape) <==>
      x < Size(shape) && forall d {:trigger specs[d]} :: 0 <= d < |specs| ==>
        InEntry(specs[d], shape[d], Coords(x, shape)[d])
  {
    if x < Size(shape) { CoordsInBox(x, shape); }
    forall d | 0 <= d < |shape|
      ensures Chosen(Entry(specs, d), shape[d], Coords(x, shape)[d]) <==>
        if d < |specs| then InEntry(specs[d], shape[d], Coords(x, shape)[d]) else Coords(x, shape)[d] < shape[d]
    {
      var low, high := Interval(Entry(specs, d), shape[d]);
      EntryInNumbers(Entry(specs, d), shape[d], low, high);
    }
    if IsChosen(x, specs, shape) {
      forall d | 0 <= d < |specs| ensures InEntry(specs[d], shape[d], Coords(x, shape)[d]) {
        assert Chosen(Entry(specs, d), shape[d], Coords(x, shape)[d]);
      }
    }
  }

  /** The entries are accepted exactly when each interval is not empty and lies inside its axis, and there
      are not more of them than axes; the selection then has the lengths of the intervals. */
  lemma ShapeInNumbers(specs: seq<IndexSpec>, shape: Shape)
    requires Positive(shape)
    ensures AcceptsAll(specs, shape) <==>
      |specs| <= |shape| && forall d {:trigger specs[d]} :: 0 <= d < |specs| ==> Inside(specs[d], shape[d])
    ensures AcceptsAll(specs, shape) ==> HasLengths(RangeShape(SpecRanges(specs, shape)), specs, shape)
  {
    forall d | 0 <= d < |shape| ensures Accepts(Entry(specs, d), shape[d]) <==> Inside(Entry(specs, d), shape[d]) {
      var low, high := Interval(Entry(specs, d), shape[d]);
      EntryInNumbers(Entry(specs, d), shape[d], low, high);
    }
    if AcceptsAll(specs, shape) {
      forall d | 0 <= d < |specs| ensures Inside(specs[d], shape[d]) {
        assert Accepts(Entry(specs, d), shape[d]);
      }
      forall d, low, high | 0 <= d < |specs| && Between(specs[d], shape[d], low, high)
        ensures RangeShape(SpecRanges(specs, shape))[d] == high - low
      {
        assert Accepts(Entry(specs, d), shape[d]);
        EntryInNumbers(specs[d], shape[d], low, high);
        assert SpecRanges(specs, shape)[d].0 == low && SpecRanges(specs, shape)[d].1 == high - 1;
      }
    }
  }

  /** The entry's interval is not empty and lies inside an axis of extent n. */
  ghost predicate Inside(spec: IndexSpec, n: nat) {
    forall low, high :: Between(spec, n, low, high) ==> 0 <= low < high <= n
  }

  /** As long as their intervals on the axes with an entry, and as the tensor on the others. */
  ghost predicate HasLengths(oshape: Shape, specs: seq<IndexSpec>, shape: Shape) {
    && |oshape| == |shape| >= |specs|
    && (forall d, low, high {:trigger Between(specs[d], shape[d], low, high)} ::
          0 <= d < |specs| && Between(specs[d], shape[d], low, high) ==> oshape[d] == high - low)
    && forall d :: |specs| <= d < |shape| ==> oshape[d] == shape[d]
  }

  /** Index i lies in the interval the entry stands for. */
  ghost predicate InEntry(spec: IndexSpec, n: nat, i: int) {
    exists low, high :: Between(spec, n, low, high) && low <= i < high
  }

  lemma Interval(spec: IndexSpec, n: nat) returns (low: int, high: int)
    ensures Between(spec, n, low, high)
    ensures forall l, h :: Between(spec, n, l, h) ==> l == low && h == high
  {
    match spec
    case All => low, high := 0, n;
    case To(stop) => low, high := 0, if stop > 0 then stop else n + stop;
    case From(start) => low, high := if start >= 0 then start else n + start, n;
    case Span(start, stop) =>
      low, high := if start >= 0 then start else n + start, if stop > 0 then stop else n + stop;
    case At(index) =>
      low := if index >= 0 then index else n + index;
      high := low + 1;
  }

  /** The table of a selection: the addresses whose coordinates are chosen on every axis, each once
      and in increasing order. */
  method SelectionTable(specs: seq<IndexSpec>, shape: Shape) returns (ok: bool, table: array<nat>, oshape: Shape)
    requires Positive(shape)
    ensures fresh(table)
    ensures ok <==> AcceptsAll(specs, shape)
    ensures ok ==> oshape == RangeShape(SpecRanges(specs, shape)) && table[..] == Cells(SpecRanges(specs, shape), shape)
    ensures ok ==> forall i, j :: 0 <= i < j < table.Length ==> table[i] < table[j]
    ensures ok ==> NoDup(table[..]) && forall x: nat :: x in table[..] <==> IsChosen(x, specs, shape)
    ensures ok <==>
      |specs| <= |shape| && forall d {:trigger specs[d]} :: 0 <= d < |specs| ==> Inside(specs[d], shape[d])
    ensures ok ==> HasLengths(oshape, specs, shape)
    ensures ok ==> |specs| <= |shape| && forall x: nat :: x in table[..] <==>
      x < Size(shape) && forall d {:trigger specs[d]} :: 0 <= d < |specs| ==>
        InEntry(specs[d], shape[d], Coords(x, shape)[d])
  {
    var ranges;
    ok, ranges := ParseIndices(specs, shape);
    oshape := [];
    ShapeInNumbers(specs, shape);
    if !ok {
      table := new nat[0];
      return;
    }
    oshape := RangeShape(ranges);
    table := Ranges2Indices(shape, ranges);
    forall i, j | 0 <= i < j < table.Length ensures table[i] < table[j] {
      RangeIncreasing(i, j, ranges, shape);
    }
    RangeTableWritable(table[..], ranges, shape);
    forall x: nat ensures x in table[..] <==> IsChosen(x, specs, shape) {
      ListedIffChosen(x, table[..], specs, ranges, shape);
    }
    forall x: nat
      ensures x in table[..] <==>
        x < Size(shape) && forall d {:trigger specs[d]} :: 0 <= d < |specs| ==>
          InEntry(specs[d], shape[d], Coords(x, shape)[d])
    {
      ChosenInNumbers(x, specs, shape);
    }
  }

  lemma ListedIffChosen(x: nat, t: seq<nat>, specs: seq<IndexSpec>, ranges: seq<(nat, nat)>, shape: Shape)
    requires Positive(shape) && RangesOf(ranges, specs, shape) && |t| == Size(RangeShape(ranges))
    requires forall i :: 0 <= i < |t| ==> t[i] == RangeAddress(i, ranges, shape)
    ensures x in t <==> IsChosen(x, specs, shape)
  {
    if x in t {
      var i := Pos(t, x);
      RangeAddressInBox(i, ranges, shape);
      SelectedInBox(i, ranges, shape);
      forall d | 0 <= d < |shape| ensures Chosen(Entry(specs, d), shape[d], Coords(x, shape)[d]) {
        assert ranges[d].0 <= Coords(x, shape)[d] <= ranges[d].1;
      }
    }
    if IsChosen(x, specs, shape) {
      forall d | 0 <= d < |shape| ensures ranges[d].0 <= Coords(x, shape)[d] <= ranges[d].1 {
        assert Chosen(Entry(specs, d), shape[d], Coords(x, shape)[d]);
      }
      var i := BoxIsSelected(x, ranges, shape);
      assert t[i] == x;
    }
  }

  /** set_select with an index list: fails exactly on unacceptable entries or on data of another shape
      than the selection; otherwise the data goes to the chosen cells and to no other. */
  method SetSelection<V>(dst: array<V>, shape: Shape, specs: seq<IndexSpec>, src: seq<V>, srcShape: Shape)
    returns (ok: bool)
    requires Positive(shape) && dst.Length == Size(shape) && |src| == Size(srcShape)
    modifies dst
    ensures ok <==> AcceptsAll(specs, shape) && srcShape == RangeShape(SpecRanges(specs, shape))
    ensures !ok ==> dst[..] == old(dst[..])
    ensures ok ==> AllBelow(Cells(SpecRanges(specs, shape), shape), dst.Length)
    ensures ok ==> Gather(dst[..], Cells(SpecRanges(specs, shape), shape)) == src
    ensures ok ==> forall x: nat :: x < dst.Length && !IsChosen(x, specs, shape) ==> dst[x] == old(dst[x])
  {
    var table, oshape;
    ok, table, oshape := SelectionTable(specs, shape);
    if !ok || oshape != srcShape { return false; }
    forall b | 0 <= b < table.Length ensures table[b] < dst.Length {
      assert table[b] in table[..];
    }
    SetSelect(dst, table[..], src);
  }

  /** select with an index list. */
  method GetSelection<V>(data: array<V>, shape: Shape, specs: seq<IndexSpec>)
    returns (ok: bool, r: seq<V>, oshape: Shape)
    requires Positive(shape) && data.Length == Size(shape)
    ensures ok <==> AcceptsAll(specs, shape)
    ensures ok ==> oshape == RangeShape(SpecRanges(specs, shape)) && |r| == Size(oshape)
    ensures ok ==> AllBelow(Cells(SpecRanges(specs, shape), shape), data.Length)
    ensures ok ==> r == Gather(data[..], Cells(SpecRanges(specs, shape), shape))
  {
    var table;
    r := [];
    ok, table, oshape := SelectionTable(specs, shape);
    if ok {
      forall b | 0 <= b < table.Length ensures table[b] < data.Length {
        assert table[b] in table[..];
      }
      r := SelectCells(data, table[..]);
    }
  }

  /** Writing through an index list and reading it back returns what was written and changes nothing
      but the chosen cells. */
  method WriteThenRead<V>(dst: array<V>, shape: Shape, specs: seq<IndexSpec>, src: seq<V>, srcShape: Shape)
    returns (ok: bool, r: seq<V>, rShape: Shape)
    requires Positive(shape) && dst.Length == Size(shape) && |src| == Size(srcShape)
    modifies dst
    ensures ok <==> AcceptsAll(specs, shape) && srcShape == RangeShape(SpecRanges(specs, shape))
    ensures ok ==> r == src && rShape == srcShape
    ensures forall x: nat :: x < dst.Length && !(ok && IsChosen(x, specs, shape)) ==> dst[x] == old(dst[x])
  {
    r, rShape := [], [];
    ok := SetSelection(dst, shape, specs, src, srcShape);
    if ok {
      var read;
      read, r, rShape := GetSelection(dst, shape, specs);
    } else {
      forall x: nat | x < dst.Length ensures dst[x] == old(dst[x]) {
        assert dst[..][x] == old(dst[..])[x];
      }
    }
  }
}
