/** How a dataset is cut into batches, shuffled and divided among processes. */
module Sharding {
  import opened Arithmetic
  import opened DataGenerator
  import opened Sequences
  import opened Wrappers

  ghost predicate Permutation(s: seq<nat>, n: nat) {
    multiset(s) == multiset(UpTo(n))
  }

  /** gen_unique_random_list; rnd stands for the values rand() returns. */
  method GenUniqueRandomList(vektor: array<nat>, rnd: seq<nat>)
    requires |rnd| == vektor.Length
    modifies vektor
    ensures Permutation(vektor[..], vektor.Length)
    ensures vektor[..] == Shuffled(vektor.Length, rnd, vektor.Length)
  {
    var n := vektor.Length;
    for k := 0 to n
      invariant forall m :: 0 <= m < k ==> vektor[m] == m
    {
      vektor[k] := k;
    }
    assert vektor[..] == UpTo(n);
    for k := 0 to n
      invariant vektor[..] == Shuffled(n, rnd, k)
    {
      ghost var was := vektor[..];
      var im := rnd[k] % n;
      if k != im {
        vektor[k], vektor[im] := vektor[im], vektor[k];
      }
      assert vektor[..] == Swapped(was, k, im);
    }
    ShuffledIsPermutation(n, rnd, n);
  }

  function Swapped(s: seq<nat>, i: nat, j: nat): (r: seq<nat>)
    requires i < |s| && j < |s|
    ensures |r| == |s|
  {
    s[i := s[j]][j := s[i]]
  }

  /** The list after the first k swaps. */
  function Shuffled(n: nat, rnd: seq<nat>, k: nat): (s: seq<nat>)
    requires k <= |rnd| && k <= n
    ensures |s| == n
  {
    if k == 0 then UpTo(n) else Swapped(Shuffled(n, rnd, k - 1), k - 1, rnd[k - 1] % n)
  }

  lemma {:induction false} SamePrefix(n: nat, a: seq<nat>, b: seq<nat>, k: nat)
    requires k <= |a| && k <= |b| && k <= n && a[..k] == b[..k]
    ensures Shuffled(n, a, k) == Shuffled(n, b, k)
  {
    if k > 0 {
      assert a[..k][k - 1] == b[..k][k - 1] && a[..k - 1] == a[..k][..k - 1] && b[..k - 1] == b[..k][..k - 1];
      SamePrefix(n, a, b, k - 1);
    }
  }

  lemma SwapKeepsElements(s: seq<nat>, i: nat, j: nat)
    requires i < |s| && j < |s|
    ensures multiset(Swapped(s, i, j)) == multiset(s)
  {
  }

  lemma {:induction false} ShuffledIsPermutation(n: nat, rnd: seq<nat>, k: nat)
    requires k <= |rnd| && k <= n
    ensures Permutation(Shuffled(n, rnd, k), n)
  {
    if k > 0 {
      ShuffledIsPermutation(n, rnd, k - 1);
      SwapIsPermutation(Shuffled(n, rnd, k - 1), k - 1, rnd[k - 1] % n, n);
    }
  }

  lemma SwapIsPermutation(s: seq<nat>, i: nat, j: nat, n: nat)
    requires i < |s| && j < |s| && Permutation(s, n)
    ensures Permutation(Swapped(s, i, j), n)
  {
    SwapKeepsElements(s, i, j);
  }

  /** Random numbers that bring the first k elements of p to their places. */
  lemma {:induction false} Steer(p: seq<nat>, n: nat, k: nat) returns (rnd: seq<nat>)
    requires Permutation(p, n) && k <= n == |p|
    ensures |rnd| == k && Shuffled(n, rnd, k)[..k] == p[..k]
  {
    if k == 0 {
      rnd := [];
    } else {
      var before := Steer(p, n, k - 1);
      rnd := SteerOn(p, n, k - 1, before);
    }
  }

  lemma SteerOn(p: seq<nat>, n: nat, k: nat, before: seq<nat>) returns (rnd: seq<nat>)
    requires Permutation(p, n) && k < n == |p|
    requires |before| == k && Shuffled(n, before, k)[..k] == p[..k]
    ensures |rnd| == k + 1 && Shuffled(n, rnd, k + 1)[..k + 1] == p[..k + 1]
  {
    var s := Shuffled(n, before, k);
    ShuffledIsPermutation(n, before, k);
    var q := PlaceToSwap(s, p, n, k);
    rnd := before + [q];
    DivModUnique(q, n, 0, q);
    SamePrefix(n, before, rnd, k);
    SwapInPlace(s, p, k, q);
  }

  /** The next element of p stands behind those already in place. */
  lemma PlaceToSwap(s: seq<nat>, p: seq<nat>, n: nat, k: nat) returns (q: nat)
    requires Permutation(p, n) && Permutation(s, n) && k < n == |p| == |s| && s[..k] == p[..k]
    ensures k <= q < n && s[q] == p[k]
  {
    PermutationIsBijection(p, n);
    PermutationIsBijection(s, n);
    forall m | 0 <= m < k ensures s[m] == p[m] {
      assert s[..k][m] == p[..k][m];
    }
    q := Pos(s, p[k]);
  }

  lemma SwapInPlace(s: seq<nat>, p: seq<nat>, k: nat, q: nat)
    requires k < |p| == |s| && s[..k] == p[..k] && k <= q < |s| && s[q] == p[k]
    ensures Swapped(s, k, q)[..k + 1] == p[..k + 1]
  {
    var t := Swapped(s, k, q);
    forall m | 0 <= m <= k ensures t[m] == p[m] {
      if m < k { assert s[..k][m] == p[..k][m]; }
    }
  }

  /** Every order of the batches arises from some random numbers. */
  lemma EveryOrderArises(p: seq<nat>, n: nat) returns (rnd: seq<nat>)
    requires Permutation(p, n)
    ensures |rnd| == |p| == n && Shuffled(n, rnd, n) == p
  {
    PermutationIsBijection(p, n);
    rnd := Steer(p, n, n);
    TakeAll(p);
    TakeAll(Shuffled(n, rnd, n));
  }

  lemma {:induction false} CountUpTo(n: nat, x: int)
    ensures multiset(UpTo(n))[x] == if 0 <= x < n then 1 else 0
  {
    if n > 0 {
      CountUpTo(n - 1, x);
      assert UpTo(n) == UpTo(n - 1) + [n - 1];
    }
  }

  lemma CountOf<T>(s: seq<T>, i: nat, j: nat)
    requires i < j < |s| && s[i] == s[j]
    ensures multiset(s)[s[i]] >= 2
  {
    assert s == s[..i] + [s[i]] + s[i + 1..j] + [s[j]] + s[j + 1..];
  }

  /** A permutation takes every value below n exactly once. */
  lemma PermutationIsBijection(s: seq<nat>, n: nat)
    requires Permutation(s, n)
    ensures |s| == n
    ensures forall i :: 0 <= i < n ==> 0 <= s[i] < n
    ensures forall i, j :: 0 <= i < j < n ==> s[i] != s[j]
    ensures forall x :: 0 <= x < n ==> x in s
  {
    assert |multiset(s)| == |multiset(UpTo(n))|;
    forall i | 0 <= i < n ensures 0 <= s[i] < n {
      assert s[i] in multiset(s);
      CountUpTo(n, s[i]);
    }
    forall i, j | 0 <= i < j < n ensures s[i] != s[j] {
      CountUpTo(n, s[i]);
      if s[i] == s[j] { CountOf(s, i, j); }
    }
    forall x | 0 <= x < n ensures x in s {
      CountUpTo(n, x);
      assert x in multiset(s);
    }
  }

  // ---------------------------------------------------------------- batches per process

  /** set_NBPP_distributed: batches per process and discarded samples.  When distr holds every process has
      a dataset of its own, of which it trains all whole batches; otherwise they all share one. */
  method SetNbpp(dsSize: nat, localBatch: nat, distr: bool, nProcs: nat) returns (nbpp: nat, discarded: int)
    requires localBatch > 0 && nProcs > 0
    ensures distr ==> nbpp == dsSize / localBatch && discarded == dsSize - nbpp * localBatch
    ensures !distr ==> nbpp == dsSize / localBatch / nProcs && discarded == dsSize - nProcs * nbpp * localBatch
    ensures distr ==> 0 <= discarded < localBatch
    ensures !distr ==> 0 <= discarded < nProcs * localBatch
  {
    var numBatches := dsSize / localBatch;
    if !distr {
      nbpp := numBatches / nProcs;
      discarded := dsSize - nProcs * nbpp * localBatch;
      NbppFits(dsSize, localBatch, nProcs);
    } else {
      nbpp := numBatches;
      discarded := dsSize - nbpp * localBatch;
      NbppFits(dsSize, localBatch, 1);
    }
  }

  /** Whole batches, shared evenly, use all but fewer than n * localBatch samples. */
  lemma NbppFits(dsSize: nat, localBatch: nat, n: nat)
    requires localBatch > 0 && n > 0
    ensures 0 <= dsSize - n * (dsSize / localBatch / n) * localBatch < n * localBatch
  {
    var b := dsSize / localBatch;
    var q, r := b / n, b % n;
    assert n * q == b - r;
    assert n * q * localBatch == b * localBatch - r * localBatch;
    assert b * localBatch == dsSize - dsSize % localBatch;
    assert 0 <= r * localBatch <= (n - 1) * localBatch by { MulMono(r, n - 1, localBatch); }
    assert (n - 1) * localBatch == n * localBatch - localBatch;
  }

  // ---------------------------------------------------------------- who reads what

  /** Position in the batch list at which process id reads its k-th batch of a shared dataset. */
  function Slot(id: nat, k: nat, nbpp: nat): nat { id * nbpp + k }

  lemma SlotInRange(id: nat, k: nat, nbpp: nat, nProcs: nat)
    requires id < nProcs && k < nbpp
    ensures Slot(id, k, nbpp) < nProcs * nbpp
    ensures Slot(id, k, nbpp) / nbpp == id && Slot(id, k, nbpp) % nbpp == k
  {
    MulMono(id + 1, nProcs, nbpp);
    assert (id + 1) * nbpp == id * nbpp + nbpp;
    DivModUnique(id * nbpp + k, nbpp, id, k);
  }

  /** The j-th claim of process id makes it read batch b. */
  ghost predicate Reads(list: seq<nat>, nbpp: nat, claims: seq<seq<nat>>, id: nat, j: nat, b: int) {
    && id < |claims| && j < |claims[id]| && Slot(id, claims[id][j], nbpp) < |list|
    && list[Slot(id, claims[id][j], nbpp)] == b
  }

  /** Over all processes, whatever the shuffle, when each process claims each of its indices once,
      in order, every batch of the shared dataset is read exactly once. */
  lemma EachBatchReadOnce(list: seq<nat>, nbpp: nat, nProcs: nat, claims: seq<seq<nat>>, b: nat)
    returns (id: nat, j: nat)
    requires Permutation(list, nProcs * nbpp) && |claims| == nProcs && b < nProcs * nbpp
    requires forall p :: 0 <= p < nProcs ==> |claims[p]| == nbpp && forall k :: 0 <= k < nbpp ==> claims[p][k] == k
    ensures Reads(list, nbpp, claims, id, j, b)
    ensures forall id', j' :: Reads(list, nbpp, claims, id', j', b) ==> id' == id && j' == j
  {
    PermutationIsBijection(list, nProcs * nbpp);
    assert b in list;
    var m: nat :| m < |list| && list[m] == b;
    id, j := SlotOf(m, nbpp, nProcs);
    forall id', j' | Reads(list, nbpp, claims, id', j', b) ensures id' == id && j' == j {
      assert Slot(id', j', nbpp) == m;
      SlotInRange(id', j', nbpp, nProcs);
      SlotInRange(id, j, nbpp, nProcs);
    }
  }

  /** The indices the threads of a run claimed. */
  function ClaimsOf(c: Config, acts: seq<Actor>): seq<nat> {
    var s := Run(c, acts);
    if s.Some? then s.value.claims else []
  }

  /** However the threads of each process interleave, when every generator has run to its end all
      processes together have read every batch of the shared dataset exactly once. */
  lemma AllBatchesDelivered(list: seq<nat>, nbpp: nat, cs: seq<Config>, runs: seq<seq<Actor>>, b: nat)
    returns (id: nat, j: nat)
    requires |cs| == |runs| && Permutation(list, |cs| * nbpp) && b < |cs| * nbpp
    requires forall p :: 0 <= p < |cs| ==>
      && cs[p].nbpp == nbpp && cs[p].bufferSize >= 1 && cs[p].threads >= 1 && cs[p].calls >= nbpp
      && Run(cs[p], runs[p]).Some? && Stuck(cs[p], Run(cs[p], runs[p]).value)
    ensures var claims := seq(|cs|, p requires 0 <= p < |cs| => ClaimsOf(cs[p], runs[p]));
      && Reads(list, nbpp, claims, id, j, b)
      && forall id', j' :: Reads(list, nbpp, claims, id', j', b) ==> id' == id && j' == j
  {
    var claims := seq(|cs|, p requires 0 <= p < |cs| => ClaimsOf(cs[p], runs[p]));
    forall p | 0 <= p < |cs| ensures claims[p] == UpTo(nbpp) {
      RunsComplete(cs[p], runs[p]);
    }
    id, j := EachBatchReadOnce(list, nbpp, |cs|, claims, b);
  }

  lemma SlotOf(m: nat, nbpp: nat, nProcs: nat) returns (id: nat, j: nat)
    requires m < nProcs * nbpp
    ensures id < nProcs && j < nbpp && Slot(id, j, nbpp) == m
  {
    assert nbpp > 0;
    id, j := m / nbpp, m % nbpp;
    if id >= nProcs { MulMono(nProcs, id, nbpp); }
  }

  // ---------------------------------------------------------------- file offsets

  /** First byte of batch pos: a header of ndim + 1 four-byte integers, then the samples. */
  function Offset(ndim: nat, nSize: nat, elem: nat, pos: nat): nat { (ndim + 1) * 4 + pos * nSize * elem }

  /** The batches the processes read from one dataset of dsSize samples, nProcs of them or, when distr
      holds, one. */
  function Total(dsSize: nat, localBatch: nat, distr: bool, nProcs: nat): (total: nat)
    requires localBatch > 0 && nProcs > 0
    ensures distr ==> total == dsSize / localBatch
    ensures !distr ==> total == nProcs * (dsSize / localBatch / nProcs)
  {
    if distr then dsSize / localBatch else nProcs * (dsSize / localBatch / nProcs)
  }

  /** Every batch of every process lies inside the file, behind the header. */
  lemma RangeInFile(ndim: nat, shapeSize: nat, dsSize: nat, localBatch: nat, distr: bool, nProcs: nat, elem: nat,
                    p: nat)
    requires localBatch > 0 && nProcs > 0 && p < Total(dsSize, localBatch, distr, nProcs)
    ensures var nSize := shapeSize * localBatch;
      && (ndim + 1) * 4 <= Offset(ndim, nSize, elem, p)
      && Offset(ndim, nSize, elem, p) + nSize * elem <= (ndim + 1) * 4 + dsSize * shapeSize * elem
  {
    var nSize, total := shapeSize * localBatch, Total(dsSize, localBatch, distr, nProcs);
    RangeBefore(ndim, nSize, elem, p, total);
    NbppFits(dsSize, localBatch, if distr then 1 else nProcs);
    BatchesFit(total, localBatch, shapeSize, elem, dsSize);
  }

  lemma RangeBefore(ndim: nat, nSize: nat, elem: nat, p: nat, total: nat)
    requires p < total
    ensures (ndim + 1) * 4 <= Offset(ndim, nSize, elem, p)
    ensures Offset(ndim, nSize, elem, p) + nSize * elem <= (ndim + 1) * 4 + total * (nSize * elem)
  {
    var bytes := nSize * elem;
    MulAssoc(p, nSize, elem);
    MulMono(p + 1, total, bytes);
    assert (p + 1) * bytes == p * bytes + bytes;
  }

  /** Sample s of batch p is sample p * localBatch + s of the file. */
  lemma SampleOffset(ndim: nat, shapeSize: nat, localBatch: nat, elem: nat, p: nat, s: nat)
    ensures Offset(ndim, shapeSize * localBatch, elem, p) + s * (shapeSize * elem)
         == (ndim + 1) * 4 + (p * localBatch + s) * (shapeSize * elem)
  {
    var sample := shapeSize * elem;
    assert p * (shapeSize * localBatch) * elem == p * localBatch * sample by {
      MulAssoc(p, shapeSize * localBatch, elem);
      MulAssoc(localBatch, shapeSize, elem);
      MulAssoc(p, localBatch, sample);
    }
    assert (p * localBatch + s) * sample == p * localBatch * sample + s * sample;
  }

  /** Byte x of the file belongs to exactly the batch its place behind the header says, and a byte of the
      header to none. */
  lemma ByteOfBatch(ndim: nat, nSize: nat, elem: nat, p: nat, x: nat)
    requires nSize * elem > 0
    ensures Offset(ndim, nSize, elem, p) <= x < Offset(ndim, nSize, elem, p) + nSize * elem
      <==> x >= (ndim + 1) * 4 && p == (x - (ndim + 1) * 4) / (nSize * elem)
  {
    var bytes, y := nSize * elem, x - (ndim + 1) * 4;
    MulAssoc(p, nSize, elem);
    if 0 <= y && p * bytes <= y < p * bytes + bytes { DivModUnique(y, bytes, p, y - p * bytes); }
    if 0 <= y { assert y == y / bytes * bytes + y % bytes; }
  }

  /** The first `total` batches are together the first bytes of the data, without a gap. */
  lemma RangesCover(ndim: nat, nSize: nat, elem: nat, total: nat, x: nat)
    requires nSize * elem > 0
    ensures (exists p: nat ::
               p < total && Offset(ndim, nSize, elem, p) <= x < Offset(ndim, nSize, elem, p) + nSize * elem)
      <==> (ndim + 1) * 4 <= x < (ndim + 1) * 4 + total * (nSize * elem)
  {
    var bytes, y := nSize * elem, x - (ndim + 1) * 4;
    if p: nat :| p < total && Offset(ndim, nSize, elem, p) <= x < Offset(ndim, nSize, elem, p) + bytes {
      RangeBefore(ndim, nSize, elem, p, total);
    }
    if 0 <= y < total * bytes {
      ByteOfBatch(ndim, nSize, elem, y / bytes, x);
      DivBound(y, total, bytes);
      var p := y / bytes;
      assert Offset(ndim, nSize, elem, p) <= x < Offset(ndim, nSize, elem, p) + bytes;
    }
  }

  /** Different batches never overlap, whatever the file holds. */
  lemma RangesDisjoint(ndim: nat, nSize: nat, elem: nat, p: nat, q: nat)
    requires p < q
    ensures Offset(ndim, nSize, elem, p) + nSize * elem <= Offset(ndim, nSize, elem, q)
  {
    var bytes := nSize * elem;
    MulAssoc(p, nSize, elem);
    MulAssoc(q, nSize, elem);
    MulMono(p + 1, q, bytes);
    assert (p + 1) * bytes == p * bytes + bytes;
  }

  lemma BatchesFit(total: nat, localBatch: nat, shapeSize: nat, elem: nat, dsSize: nat)
    requires total * localBatch <= dsSize
    ensures total * (shapeSize * localBatch * elem) <= dsSize * shapeSize * elem
  {
    assert total * (shapeSize * localBatch * elem) == (total * localBatch) * (shapeSize * elem) by {
      MulAssoc(total, localBatch, shapeSize * elem);
      MulAssoc(localBatch, shapeSize, elem);
    }
    MulMono(total * localBatch, dsSize, shapeSize * elem);
    MulAssoc(dsSize, shapeSize, elem);
  }
}
