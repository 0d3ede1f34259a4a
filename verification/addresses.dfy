/** Row-major addresses of tensors of any rank. */
module Addresses {
  import opened Arithmetic

  type Shape = seq<nat>

  ghost predicate Positive(shape: Shape) {
    forall d :: 0 <= d < |shape| ==> shape[d] > 0
  }

  function Size(shape: Shape): (r: nat)
    ensures Positive(shape) ==> r > 0
  {
    if shape == [] then 1
    else
      MulPositive(shape[0], Size(shape[1..]));
      shape[0] * Size(shape[1..])
  }

  lemma MulPositive(a: nat, b: nat)
    ensures a > 0 && b > 0 ==> a * b > 0
    ensures a * b >= 0
  {
    if a > 0 { MulLower(a, b); }
  }

  /** A tensor with an element has no empty axis. */
  lemma {:induction false} HasCells(shape: Shape, a: nat)
    requires a < Size(shape)
    ensures Positive(shape)
  {
    if shape != [] {
      HasCells(shape[1..], 0);
      forall d | 0 <= d < |shape| ensures shape[d] > 0 {
        if d > 0 { assert shape[1..][d - 1] > 0; }
      }
    }
  }

  function Strides(shape: Shape): (r: seq<nat>)
    ensures |r| == |shape| && forall d :: 0 <= d < |shape| ==> r[d] == Size(shape[d + 1..])
  {
    seq(|shape|, d requires 0 <= d < |shape| => Size(shape[d + 1..]))
  }

  ghost predicate InBox(idx: seq<nat>, shape: Shape) {
    |idx| == |shape| && forall d :: 0 <= d < |shape| ==> idx[d] < shape[d]
  }

  /** Horner evaluation of the coordinates. */
  function Address(idx: seq<nat>, shape: Shape): nat
    requires |idx| == |shape|
  {
    if shape == [] then 0 else idx[0] * Size(shape[1..]) + Address(idx[1..], shape[1..])
  }

  function Coords(a: nat, shape: Shape): (r: seq<nat>)
    requires Positive(shape)
    ensures |r| == |shape|
    decreases shape
  {
    if shape == [] then []
    else [a / Size(shape[1..])] + Coords(a % Size(shape[1..]), shape[1..])
  }

  lemma CoordsFront(a: nat, shape: Shape)
    requires Positive(shape) && shape != []
    ensures Positive(shape[1..]) && Size(shape[1..]) > 0
    ensures Coords(a, shape)[0] == a / Size(shape[1..])
    ensures Coords(a, shape)[1..] == Coords(a % Size(shape[1..]), shape[1..])
  {
  }

  lemma {:induction false} AddressInRange(idx: seq<nat>, shape: Shape)
    requires InBox(idx, shape)
    ensures Address(idx, shape) < Size(shape)
  {
    if shape != [] {
      var t := Size(shape[1..]);
      AddressInRange(idx[1..], shape[1..]);
      MulMono(idx[0] + 1, shape[0], t);
      assert (idx[0] + 1) * t == idx[0] * t + t;
    }
  }

  lemma {:induction false} CoordsInBox(a: nat, shape: Shape)
    requires Positive(shape) && a < Size(shape)
    ensures InBox(Coords(a, shape), shape)
    decreases shape
  {
    if shape != [] {
      var t := Size(shape[1..]);
      DivBound(a, shape[0], t);
      CoordsInBox(a % t, shape[1..]);
    }
  }

  /** Coordinates of an address lead back to it. */
  lemma {:induction false} AddressOfCoords(a: nat, shape: Shape)
    requires Positive(shape) && a < Size(shape)
    ensures Address(Coords(a, shape), shape) == a
    decreases shape
  {
    if shape != [] {
      var t := Size(shape[1..]);
      AddressOfCoords(a % t, shape[1..]);
      assert Coords(a, shape)[1..] == Coords(a % t, shape[1..]);
    }
  }

  /** The address of a point of the box has that point's coordinates. */
  lemma {:induction false} CoordsOfAddress(idx: seq<nat>, shape: Shape)
    requires Positive(shape) && InBox(idx, shape)
    ensures Coords(Address(idx, shape), shape) == idx
  {
    if shape != [] {
      var t := Size(shape[1..]);
      AddressInRange(idx[1..], shape[1..]);
      DivModUnique(Address(idx, shape), t, idx[0], Address(idx[1..], shape[1..]));
      CoordsOfAddress(idx[1..], shape[1..]);
    }
  }

  /** The coordinates are what the address tables compute, axis by axis. */
  lemma {:induction false} CoordIsDigit(a: nat, shape: Shape, d: nat)
    requires Positive(shape) && a < Size(shape) && d < |shape|
    ensures Strides(shape)[d] > 0
    ensures Coords(a, shape)[d] == a / Strides(shape)[d] % shape[d]
    decreases shape
  {
    var tail := shape[1..];
    var t := Size(tail);
    if d == 0 {
      DivBound(a, shape[0], t);
      DivModUnique(a / t, shape[0], 0, a / t);
    } else {
      CoordIsDigit(a % t, tail, d - 1);
      assert shape[d + 1..] == tail[d..];
      var s := Size(shape[d + 1..]);
      var k := FactorsOfSize(tail, d - 1);
      DigitOfRemainder(a, s, shape[d], k);
    }
  }

  /** The size is a multiple of every extent times its stride. */
  lemma {:induction false} FactorsOfSize(shape: Shape, d: nat) returns (k: nat)
    requires Positive(shape) && d < |shape|
    ensures k > 0 && Size(shape) == k * (shape[d] * Size(shape[d + 1..]))
  {
    if d == 0 {
      k := 1;
    } else {
      var j := FactorsOfSize(shape[1..], d - 1);
      assert shape[1..][d..] == shape[d + 1..];
      k := shape[0] * j;
      MulPositive(shape[0], j);
      MulAssoc(shape[0], j, shape[d] * Size(shape[d + 1..]));
    }
  }

  function Dot(idx: seq<nat>, strides: seq<nat>): nat
    requires |idx| == |strides|
  {
    if idx == [] then 0 else Dot(idx[..|idx| - 1], strides[..|idx| - 1]) + idx[|idx| - 1] * strides[|idx| - 1]
  }

  lemma DotOneMore(idx: seq<nat>, strides: seq<nat>, d: nat)
    requires |idx| == |strides| && d < |idx|
    ensures idx[d] * strides[d] >= 0
    ensures Dot(idx[..d + 1], strides[..d + 1]) == Dot(idx[..d], strides[..d]) + idx[d] * strides[d]
  {
    assert idx[..d + 1][..d] == idx[..d] && strides[..d + 1][..d] == strides[..d];
    MulPositive(idx[d], strides[d]);
  }

  lemma {:induction false} DotFront(idx: seq<nat>, strides: seq<nat>)
    requires |idx| == |strides| > 0
    ensures Dot(idx, strides) == idx[0] * strides[0] + Dot(idx[1..], strides[1..])
  {
    var n := |idx| - 1;
    if n > 0 {
      DotFront(idx[..n], strides[..n]);
      assert idx[..n][1..] == idx[1..][..n - 1] && strides[..n][1..] == strides[1..][..n - 1];
    }
  }

  /** The sum of coordinate times stride is the row-major address. */
  lemma {:induction false} DotIsAddress(idx: seq<nat>, shape: Shape)
    requires |idx| == |shape|
    ensures Dot(idx, Strides(shape)) == Address(idx, shape)
  {
    if shape != [] {
      DotFront(idx, Strides(shape));
      assert Strides(shape)[1..] == Strides(shape[1..]) by {
        forall d | 0 <= d < |shape| - 1 ensures Strides(shape)[1..][d] == Strides(shape[1..])[d] {
          assert shape[d + 2..] == shape[1..][d + 1..];
        }
      }
      DotIsAddress(idx[1..], shape[1..]);
    }
  }

  lemma CoordsInjective(a: nat, b: nat, shape: Shape)
    requires Positive(shape) && a < Size(shape) && b < Size(shape) && Coords(a, shape) == Coords(b, shape)
    ensures a == b
  {
    AddressOfCoords(a, shape);
    AddressOfCoords(b, shape);
  }

  /** Moving along one axis adds multiples of its stride. */
  lemma {:induction false} AddressAlongAxis(idx: seq<nat>, shape: Shape, d: nat, v: nat)
    requires |idx| == |shape| && d < |shape|
    ensures Address(idx[d := idx[d] + v], shape) == Address(idx, shape) + v * Strides(shape)[d]
  {
    var moved := idx[d := idx[d] + v];
    var t := Size(shape[1..]);
    if d == 0 {
      assert moved[1..] == idx[1..];
      assert (idx[0] + v) * t == idx[0] * t + v * t;
    } else {
      assert moved[1..] == idx[1..][d - 1 := idx[1..][d - 1] + v];
      AddressAlongAxis(idx[1..], shape[1..], d - 1, v);
      assert shape[1..][d..] == shape[d + 1..];
    }
  }
}
