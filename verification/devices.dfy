/** Data parallelism over the devices of one process: a batch is cut into one slice per device net,
    and the slices are put together again. */
module DeviceNets {
  import opened Arithmetic
  import opened Sequences

  /** How many devices get a slice: all of them, or one per sample when there are fewer samples. */
  function Devices(b: nat, n: nat): nat { if b < n then b else n }

  /** The number of samples every device but the last gets. */
  function Share(b: nat, n: nat): nat
    requires Devices(b, n) > 0
  {
    b / Devices(b, n)
  }

  /** The samples of device i begin at cut i and end at cut i + 1: the last device also gets the
      remainder. */
  function Cut(i: nat, b: nat, n: nat): nat
    requires Devices(b, n) > 0
  {
    if i == Devices(b, n) then b else i * Share(b, n)
  }

  /** The slices are non-empty, inside the batch, and each begins where the one before ends. */
  lemma SlicesPartition(i: nat, b: nat, n: nat)
    requires i < Devices(b, n)
    ensures Cut(0, b, n) == 0 && Cut(Devices(b, n), b, n) == b
    ensures Cut(i, b, n) < Cut(i + 1, b, n) <= b
    ensures Cut(i + 1, b, n) == Cut(i, b, n) + Share(b, n) + if i + 1 == Devices(b, n) then b % Devices(b, n) else 0
  {
    var c, t := Devices(b, n), Share(b, n);
    assert b == t * c + b % c;
    if t == 0 { DivModUnique(b, c, 1, b - c); }
    assert (i + 1) * t == i * t + t;
    MulMono(i + 1, c, t);
  }

  function Slice<T>(data: seq<T>, i: nat, n: nat): (r: seq<T>)
    requires i < Devices(|data|, n)
    ensures |r| == Cut(i + 1, |data|, n) - Cut(i, |data|, n)
  {
    SlicesPartition(i, |data|, n);
    data[Cut(i, |data|, n)..Cut(i + 1, |data|, n)]
  }

  /** A layer of the coordinating net, and the layer made from it in every device net. */
  class SplitLayer<T(0)> {
    const n: nat
    var batchSize: nat
    var output: array<T>
    /** Batch size and output of the layer on every device. */
    var sizes: seq<nat>
    var outputs: seq<seq<T>>

    ghost predicate Valid()
      reads this
    {
      n > 0 && |sizes| == |outputs| == n && output.Length == batchSize
    }

    /** Every device that gets a slice has room for exactly its slice. */
    ghost predicate Split()
      reads this
    {
      Valid() && batchSize > 0 && forall i {:trigger sizes[i]} :: 0 <= i < Devices(batchSize, n) ==>
        sizes[i] == Cut(i + 1, batchSize, n) - Cut(i, batchSize, n)
    }

    constructor (n: nat)
      requires n > 0
      ensures Valid() && this.n == n && batchSize == 0
    {
      this.n, batchSize, sizes, outputs := n, 0, seq(n, _ => 0), seq(n, _ => []);
      output := new T[0];
    }

    /** Net::resize. */
    method Resize(b: nat)
      requires Valid() && b > 0 && (batchSize > 0 ==> Split())
      modifies this
      ensures Split() && batchSize == b
      ensures if b == old(batchSize) then output == old(output) else fresh(output)
    {
      if batchSize == b { return; }
      var c := n;
      var bs, m := 1, 0;
      if b < c {
        c := b;
        DivModUnique(b, b, 1, 0);
      } else {
        bs, m := b / c, b % c;
      }
      batchSize := b;
      output := new T[b];
      for i := 0 to c
        invariant Valid() && batchSize == b && fresh(output) && c == Devices(b, n)
        invariant m == b % c && bs == Share(b, n) + if i == c then m else 0
        invariant forall d {:trigger sizes[d]} :: 0 <= d < i ==> sizes[d] == Cut(d + 1, b, n) - Cut(d, b, n)
      {
        SlicesPartition(i, b, n);
        if i == c - 1 { bs := bs + m; }
        sizes := sizes[i := bs];
      }
    }

    /** distributeTensor(l, "output"); false stands for the error of a batch smaller than the number
        of devices. */
    method Distribute() returns (ok: bool)
      requires Split()
      modifies this`outputs
      ensures ok <==> batchSize >= n
      ensures ok ==> Valid() && forall i {:trigger outputs[i]} :: 0 <= i < n ==> outputs[i] == Slice(output[..], i, n)
    {
      if batchSize < n { return false; }
      var threadBatchSize := batchSize / n;
      for i := 0 to n
        invariant Split()
        invariant forall d {:trigger outputs[d]} :: 0 <= d < i ==> outputs[d] == Slice(output[..], d, n)
      {
        SlicesPartition(i, batchSize, n);
        var start := i * threadBatchSize;
        var end := start + sizes[i];
        outputs := outputs[i := output[start..end]];
      }
      ok := true;
    }

    /** The outputs on the devices are what a computation on the slices of `data` left there. */
    ghost predicate Holds(data: seq<T>)
      reads this
    {
      && Split() && |data| == batchSize
      && forall i {:trigger outputs[i]} :: 0 <= i < Devices(batchSize, n) ==> outputs[i] == Slice(data, i, n)
    }

    /** collectTensor(l, "output"), also for batches smaller than the number of devices; ndim is the
        rank of the output.  A one-dimensional output over several devices has no slices: what device 0
        holds is put at its beginning. */
    method Collect(ndim: nat, ghost data: seq<T>)
      requires if ndim == 1 && n > 1 then Valid() && batchSize > 0 && |outputs[0]| <= output.Length else Holds(data)
      modifies output
      ensures output[..] == if ndim == 1 && n > 1 then outputs[0] + old(output[|outputs[0]|..]) else data
    {
      var comp := n;
      if ndim == 1 && comp > 1 {
        comp := 1;
      } else if output.Length < comp {
        comp := output.Length;
      }
      ghost var was := output[..];
      CollectParts(comp, ndim, data, was);
      AllGathered(ndim, data, was);
    }

    /** The loop of collectTensor over the first comp devices. */
    method CollectParts(comp: nat, ndim: nat, ghost data: seq<T>, ghost was: seq<T>)
      requires comp == Parts(ndim) > 0 && batchSize == output.Length && Gathered(ndim, data, was, 0)
      modifies output
      ensures Gathered(ndim, data, was, comp)
    {
      var threadBatchSize := output.Length / comp;
      for i := 0 to comp
        invariant Gathered(ndim, data, was, i)
      {
        CollectPart(i, threadBatchSize, ndim, data, was);
      }
    }

    lemma AllGathered(ndim: nat, data: seq<T>, was: seq<T>)
      requires Gathered(ndim, data, was, Parts(ndim))
      ensures Flat(ndim) ==> Valid() && |outputs[0]| <= |was|
      ensures output[..] == if Flat(ndim) then outputs[0] + was[|outputs[0]|..] else data
    {
      TakeAll(output[..]);
      TakeAll(data);
    }

    /** The devices whose outputs are collected. */
    function Parts(ndim: nat): nat
      reads this
    {
      if Flat(ndim) then 1 else Devices(batchSize, n)
    }

    /** The output after i rounds. */
    ghost predicate Gathered(ndim: nat, data: seq<T>, was: seq<T>, i: nat)
      reads this, output
    {
      if Flat(ndim) then
        && Valid() && |outputs[0]| <= |was| == output.Length
        && output[..] == if i == 0 then was else outputs[0] + was[|outputs[0]|..]
      else Collected(data, i)
    }

    /** One round of the loop of collectTensor. */
    method CollectPart(i: nat, threadBatchSize: nat, ndim: nat, ghost data: seq<T>, ghost was: seq<T>)
      requires i < Parts(ndim) && threadBatchSize == batchSize / Parts(ndim) && Gathered(ndim, data, was, i)
      modifies output
      ensures Gathered(ndim, data, was, i + 1)
    {
      if !Flat(ndim) { SliceFits(data, i); }
      ghost var before := output[..];
      Deselect(output, outputs[i], i * threadBatchSize);
      if !Flat(ndim) { PutSlice(before, data, i, n); }
    }

    lemma SliceFits(data: seq<T>, i: nat)
      requires Holds(data) && i < Devices(batchSize, n)
      ensures outputs[i] == Slice(data, i, n) && Cut(i, batchSize, n) == i * Share(batchSize, n)
      ensures Cut(i, batchSize, n) + |outputs[i]| == Cut(i + 1, batchSize, n) <= batchSize
    {
      SlicesPartition(i, batchSize, n);
    }

    /** A one-dimensional output over several devices. */
    predicate Flat(ndim: nat) { ndim == 1 && n > 1 }

    /** The slices of the first i devices have been put in place. */
    ghost predicate Collected(data: seq<T>, i: nat)
      reads this, output
    {
      && Holds(data) && i <= Devices(batchSize, n) && Cut(i, batchSize, n) <= batchSize
      && output[..Cut(i, batchSize, n)] == data[..Cut(i, batchSize, n)]
    }

    /** A computation on every device, sample by sample. */
    method RunAll<S>(f: S -> T, xs: seq<seq<S>>)
      requires |xs| == n
      modifies this`outputs
      ensures |outputs| == n && forall i {:trigger outputs[i]} :: 0 <= i < n ==> outputs[i] == Map(f, xs[i])
    {
      outputs := seq(n, i requires 0 <= i < n => Map(f, xs[i]));
    }
  }

  /** cpu_deselect with the identical indices start, start + 1, ... */
  method Deselect<T>(output: array<T>, part: seq<T>, start: nat)
    requires start + |part| <= output.Length
    modifies output
    ensures output[..] == old(output[..start]) + part + old(output[start + |part|..])
  {
    for k := 0 to |part|
      invariant output[..start] == old(output[..start]) && output[start..start + k] == part[..k]
      invariant output[start + |part|..] == old(output[start + |part|..])
    {
      output[start + k] := part[k];
    }
    assert output[..] == output[..start] + output[start..start + |part|] + output[start + |part|..];
  }

  /** `before` with the i-th slice of `data` put in its place. */
  function Placed<T>(before: seq<T>, data: seq<T>, i: nat, n: nat): seq<T>
    requires |before| == |data| && i < Devices(|data|, n)
  {
    SlicesPartition(i, |data|, n);
    before[..Cut(i, |data|, n)] + Slice(data, i, n) + before[Cut(i + 1, |data|, n)..]
  }

  /** Putting the next slice behind the slices before it. */
  lemma PutSlice<T>(before: seq<T>, data: seq<T>, i: nat, n: nat)
    requires |before| == |data| && i < Devices(|data|, n) && Cut(i, |data|, n) <= |data|
    requires before[..Cut(i, |data|, n)] == data[..Cut(i, |data|, n)]
    ensures Cut(i, |data|, n) < Cut(i + 1, |data|, n) <= |data|
    ensures Placed(before, data, i, n)[..Cut(i + 1, |data|, n)] == data[..Cut(i + 1, |data|, n)]
  {
    SlicesPartition(i, |data|, n);
  }

  /** Collecting what was distributed is the identity. */
  method DistributeThenCollect<T(0)>(l: SplitLayer<T>, ndim: nat)
    requires l.Split() && l.batchSize >= l.n
    modifies l, l.output
    ensures l.output == old(l.output) && l.output[..] == old(l.output[..])
  {
    ghost var data := l.output[..];
    var ok := l.Distribute();
    SlicesPartition(0, l.batchSize, l.n);
    l.Collect(ndim, data);
  }

  function Map<S, T>(f: S -> T, s: seq<S>): (r: seq<T>)
    ensures |r| == |s| && forall k :: 0 <= k < |s| ==> r[k] == f(s[k])
  {
    seq(|s|, k requires 0 <= k < |s| => f(s[k]))
  }

  /** A layer that works sample by sample computes, on the slices, the slices of what it computes on
      the whole batch. */
  lemma SlicesOfMap<S, T>(f: S -> T, data: seq<S>, i: nat, n: nat)
    requires i < Devices(|data|, n)
    ensures Slice(Map(f, data), i, n) == Map(f, Slice(data, i, n))
  {
    SlicesPartition(i, |data|, n);
  }

  /** cpu_select: the samples of x at sind[ini], ..., sind[end - 1]. */
  method SelectSamples<S>(x: seq<S>, sind: seq<nat>, ini: nat, end: nat) returns (part: seq<S>)
    requires ini <= end <= |sind| && forall k :: 0 <= k < |sind| ==> sind[k] < |x|
    ensures part == Gather(x, sind)[ini..end]
  {
    part := [];
    for k := ini to end
      invariant part == Gather(x, sind)[ini..k]
    {
      part := part + [x[sind[k]]];
    }
  }

  /** Net::train_batch: the samples each device net receives for the chosen indices. */
  method TrainBatchSlices<S>(x: seq<S>, sind: seq<nat>, n: nat, sizes: seq<nat>) returns (ok: bool, xs: seq<seq<S>>)
    requires n > 0 && |sizes| == n && forall k :: 0 <= k < |sind| ==> sind[k] < |x|
    requires |sind| >= n ==> forall i :: 0 <= i < n ==> sizes[i] == Cut(i + 1, |sind|, n) - Cut(i, |sind|, n)
    ensures ok <==> |sind| >= n
    ensures ok ==> |xs| == n && forall i :: 0 <= i < n ==> xs[i] == Slice(Gather(x, sind), i, n)
  {
    xs := [];
    if |sind| < n { return false, xs; }
    var threadBatchSize := |sind| / n;
    for i := 0 to n
      invariant |xs| == i
      invariant forall d :: 0 <= d < i ==> xs[d] == Slice(Gather(x, sind), d, n)
    {
      SlicesPartition(i, |sind|, n);
      var start := i * threadBatchSize;
      var part := SelectSamples(x, sind, start, start + sizes[i]);
      xs := xs + [part];
    }
    ok := true;
  }

  /** A training or inference step over the devices: the slices are computed on separately with the
      same weights, and the collected output is that of the whole batch on one device.  A
      one-dimensional output over several devices keeps only what device 0 computed for its slice. */
  method ForwardOnDevices<S, T(0)>(x: seq<S>, sind: seq<nat>, f: S -> T, l: SplitLayer<T>, ndim: nat) returns (ok: bool)
    requires l.Valid() && |sind| > 0 && (l.batchSize > 0 ==> l.Split())
    requires forall k :: 0 <= k < |sind| ==> sind[k] < |x|
    modifies l, l.output
    ensures ok <==> |sind| >= l.n
    ensures ok && (ndim != 1 || l.n == 1) ==> l.output[..] == Map(f, Gather(x, sind))
    ensures ok && ndim == 1 && l.n > 1 ==> Slice(Map(f, Gather(x, sind)), 0, l.n) <= l.output[..]
  {
    l.Resize(|sind|);
    var xs;
    ok, xs := TrainBatchSlices(x, sind, l.n, l.sizes);
    if ok {
      ghost var whole := Map(f, Gather(x, sind));
      l.RunAll(f, xs);
      forall i | 0 <= i < l.n ensures l.outputs[i] == Slice(whole, i, l.n) {
        SlicesOfMap(f, Gather(x, sind), i, l.n);
      }
      SlicesPartition(0, |sind|, l.n);
      l.Collect(ndim, whole);
    }
  }
}
