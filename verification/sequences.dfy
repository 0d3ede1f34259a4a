/** Sequences without duplicates. */
module Sequences {
  import opened Arithmetic

  /** A place where x occurs in s. */
  ghost function Pos<T>(s: seq<T>, x: T): (i: nat)
    requires x in s
    ensures i < |s| && s[i] == x
  {
    var i :| 0 <= i < |s| && s[i] == x;
    i
  }

  /** No element occurs twice: each is found only where it stands. */
  ghost predicate NoDup<T>(s: seq<T>) {
    forall i :: 0 <= i < |s| ==> Pos(s, s[i]) == i
  }

  ghost predicate AllIn<T>(s: seq<T>, t: seq<T>) {
    forall i :: 0 <= i < |s| ==> s[i] in t
  }

  /** 0, 1, ..., n - 1. */
  function UpTo(n: nat): (s: seq<nat>)
    ensures |s| == n && forall i :: 0 <= i < n ==> s[i] == i
  {
    seq(n, i => i)
  }

  /** The elements of s at the given places. */
  function Gather<T>(s: seq<T>, at: seq<nat>): (r: seq<T>)
    requires forall k :: 0 <= k < |at| ==> at[k] < |s|
    ensures |r| == |at| && forall k :: 0 <= k < |at| ==> r[k] == s[at[k]]
  {
    seq(|at|, k requires 0 <= k < |at| => s[at[k]])
  }

  lemma {:induction false} DistinctBound<T>(s: seq<T>, t: seq<T>)
    requires NoDup(s) && AllIn(s, t)
    ensures |s| <= |t|
  {
    if s != [] {
      var j := Pos(t, s[0]);
      var rest := t[..j] + t[j + 1..];
      forall i | 0 <= i < |s[1..]| ensures s[1..][i] in rest {
        assert s[0] != s[i + 1] == s[1..][i];
        var q := Pos(t, s[i + 1]);
        assert t[q] == s[i + 1] && q != j;
        assert if q < j then rest[q] == t[q] else rest[q - 1] == t[q];
      }
      DistinctBound(s[1..], rest);
    }
  }

  lemma TakeOneMore<T>(s: seq<T>, i: nat)
    requires i < |s|
    ensures s[..i + 1] == s[..i] + [s[i]]
  {
  }

  lemma TakeAll<T>(s: seq<T>)
    ensures s[..|s|] == s
  {
  }

  lemma ListOfThree<T>(a: T, b: T, c: T)
    ensures [] + [a] == [a] && [] + [b] + [c] == [b, c] && [a] + [b] + [c] == [a, b, c]
  {
  }

  lemma DistinctInRange(s: seq<nat>, n: nat)
    requires NoDup(s) && forall i :: 0 <= i < |s| ==> s[i] < n
    ensures |s| <= n
  {
    var all := UpTo(n);
    forall i | 0 <= i < |s| ensures s[i] in all {
      assert all[s[i]] == s[i];
    }
    DistinctBound(s, all);
  }

  lemma {:induction false} MissingElement<T>(s: seq<T>, t: seq<T>) returns (x: T)
    requires NoDup(t) && |s| < |t|
    ensures x in t && x !in s
  {
    if forall i :: 0 <= i < |t| ==> t[i] in s {
      DistinctBound(t, s);
      assert false;
    }
    var i :| 0 <= i < |t| && t[i] !in s;
    x := t[i];
  }

  lemma CountNoDup<T>(s: seq<T>, x: T)
    requires NoDup(s)
    ensures multiset(s)[x] == if x in s then 1 else 0
  {
    if s != [] {
      var last := |s| - 1;
      assert s == s[..last] + [s[last]];
      CountNoDup(s[..last], x);
    }
  }

  lemma SameElements<T(!new)>(s: seq<T>, t: seq<T>)
    requires NoDup(s) && NoDup(t) && |s| == |t| && AllIn(s, t)
    ensures multiset(s) == multiset(t)
    ensures forall x :: x in s <==> x in t
  {
    forall x ensures multiset(s)[x] == multiset(t)[x] {
      CountNoDup(s, x);
      CountNoDup(t, x);
      if x in t && x !in s {
        var j := Pos(t, x);
        var rest := t[..j] + t[j + 1..];
        forall i | 0 <= i < |s| ensures s[i] in rest {
          var q := Pos(t, s[i]);
          assert s[i] != x;
          assert if q < j then rest[q] == t[q] else rest[q - 1] == t[q];
        }
        DistinctBound(s, rest);
      }
    }
    assert multiset(s) == multiset(t);
    forall x ensures x in s <==> x in t {
      assert x in multiset(s) <==> x in multiset(t);
    }
  }

  lemma AppendDistinct<T>(a: seq<T>, b: seq<T>)
    requires NoDup(a) && NoDup(b) && forall i :: 0 <= i < |b| ==> b[i] !in a
    ensures NoDup(a + b)
  {
    var r := a + b;
    forall i | 0 <= i < |r| ensures Pos(r, r[i]) == i {
      var q := Pos(r, r[i]);
      if i < |a| { assert a[i] == r[i]; } else { assert b[i - |a|] == r[i]; }
      if q < |a| { assert a[q] == r[q]; } else { assert b[q - |a|] == r[q]; }
    }
  }

  lemma CoverAll(writes: seq<nat>, n: nat)
    requires NoDup(writes) && forall b: nat :: b in writes <==> b < n
    ensures |writes| == n
  {
    var all := UpTo(n);
    forall i | 0 <= i < n ensures all[i] in writes && Pos(all, all[i]) == i {
    }
    forall i | 0 <= i < |writes| ensures writes[i] in all {
      assert writes[i] in writes;
      assert all[writes[i]] == writes[i];
    }
    DistinctBound(all, writes);
    DistinctBound(writes, all);
  }

  // ---------------------------------------------------------------- lists of lists

  function Concat<T>(ss: seq<seq<T>>): seq<T> {
    if ss == [] then [] else Concat(ss[..|ss| - 1]) + ss[|ss| - 1]
  }

  lemma {:induction false} InConcat<T>(ss: seq<seq<T>>, x: T)
    ensures x in Concat(ss) <==> exists i :: 0 <= i < |ss| && x in ss[i]
  {
    if ss != [] {
      var init, last := ss[..|ss| - 1], ss[|ss| - 1];
      InConcat(init, x);
      if x in Concat(init) {
        var i :| 0 <= i < |init| && x in init[i];
        assert ss[i] == init[i];
      }
      if i :| 0 <= i < |ss| && x in ss[i] {
        if i < |init| { assert x in init[i]; }
      }
    }
  }

  ghost predicate SameWidth<T>(ss: seq<seq<T>>, n: nat) {
    forall i {:trigger ss[i]} :: 0 <= i < |ss| ==> |ss[i]| == n
  }

  lemma {:induction false} ConcatLength<T>(ss: seq<seq<T>>, n: nat)
    requires SameWidth(ss, n)
    ensures |Concat(ss)| == |ss| * n
  {
    if ss != [] {
      ConcatLength(ss[..|ss| - 1], n);
      assert |ss| * n == (|ss| - 1) * n + n;
    }
  }

  /** With rows of n elements, element j of row i stands at i * n + j. */
  lemma {:induction false} ConcatCell<T>(ss: seq<seq<T>>, n: nat, i: nat, j: nat)
    requires SameWidth(ss, n) && i < |ss| && j < n
    ensures |Concat(ss)| == |ss| * n
    ensures 0 <= i * n + j < |Concat(ss)| && Concat(ss)[i * n + j] == ss[i][j]
  {
    ConcatLength(ss, n);
    MulMono(i + 1, |ss|, n);
    assert (i + 1) * n == i * n + n;
    var front := ss[..|ss| - 1];
    ConcatLength(front, n);
    if i < |front| {
      ConcatCell(front, n, i, j);
      assert front[i] == ss[i];
    }
  }

  lemma {:induction false} ConcatPrefix<T>(ss: seq<seq<T>>, i: nat)
    requires i < |ss|
    ensures Concat(ss[..i + 1]) == Concat(ss[..i]) + ss[i]
    ensures |Concat(ss[..i])| + |ss[i]| <= |Concat(ss)|
    decreases |ss|
  {
    assert ss[..i + 1][..i] == ss[..i];
    if i + 1 < |ss| {
      ConcatPrefix(ss[..|ss| - 1], i);
      assert ss[..|ss| - 1][..i] == ss[..i];
    } else {
      TakeAll(ss);
    }
  }

  // ---------------------------------------------------------------- sifting

  /** The elements of s that are in t, or those that are not. */
  function Sift<T(==)>(s: seq<T>, t: seq<T>, want: bool): seq<T> {
    if s == [] then []
    else
      var last := s[|s| - 1];
      Sift(s[..|s| - 1], t, want) + if (last in t) == want then [last] else []
  }

  lemma {:induction false} SiftMember<T>(s: seq<T>, t: seq<T>, want: bool, x: T)
    ensures x in Sift(s, t, want) <==> x in s && (x in t) == want
  {
    if s != [] {
      var init, last := s[..|s| - 1], s[|s| - 1];
      SiftMember(init, t, want, x);
      assert s == init + [last];
    }
  }

  lemma {:induction false} SiftSizes<T>(s: seq<T>, t: seq<T>)
    ensures |Sift(s, t, true)| + |Sift(s, t, false)| == |s|
  {
    if s != [] { SiftSizes(s[..|s| - 1], t); }
  }

  lemma {:induction false} SiftDistinct<T>(s: seq<T>, t: seq<T>, want: bool)
    requires NoDup(s)
    ensures NoDup(Sift(s, t, want))
  {
    if s != [] {
      var init, last := s[..|s| - 1], s[|s| - 1];
      forall i | 0 <= i < |init| ensures Pos(init, init[i]) == i && init[i] != last {
        assert Pos(s, s[i]) == i && Pos(s, s[|s| - 1]) == |s| - 1;
        assert s[Pos(init, init[i])] == s[i];
        assert Pos(s, s[Pos(init, init[i])]) == Pos(init, init[i]);
      }
      SiftDistinct(init, t, want);
      SiftMember(init, t, want, last);
      assert last !in init;
      AppendDistinct(Sift(init, t, want), [last]);
    }
  }

  lemma SiftStep<T>(s: seq<T>, t: seq<T>, want: bool, m: nat)
    requires m < |s|
    ensures (s[m] in t) == want ==> Sift(s[..m + 1], t, want) == Sift(s[..m], t, want) + [s[m]]
    ensures (s[m] in t) != want ==> Sift(s[..m + 1], t, want) == Sift(s[..m], t, want)
  {
    assert s[..m + 1][..m] == s[..m];
  }

  /** An element that passes the sieve stands behind those that passed before it. */
  lemma {:induction false} SiftAt<T>(s: seq<T>, t: seq<T>, want: bool, m: nat)
    requires m < |s|
    ensures Sift(s[..m], t, want) <= Sift(s, t, want)
    ensures (s[m] in t) == want ==>
      |Sift(s[..m], t, want)| < |Sift(s, t, want)| && Sift(s, t, want)[|Sift(s[..m], t, want)|] == s[m]
    decreases |s|
  {
    var init := s[..|s| - 1];
    if m < |init| {
      SiftAt(init, t, want, m);
      assert init[..m] == s[..m] && init[m] == s[m];
    } else {
      assert init == s[..m];
    }
  }

  /** Every sifted element comes from a place of s. */
  lemma {:induction false} SiftFrom<T>(s: seq<T>, t: seq<T>, want: bool, q: nat) returns (m: nat)
    requires q < |Sift(s, t, want)|
    ensures m < |s| && (s[m] in t) == want && |Sift(s[..m], t, want)| == q && Sift(s, t, want)[q] == s[m]
  {
    var init := s[..|s| - 1];
    if q < |Sift(init, t, want)| {
      m := SiftFrom(init, t, want, q);
      assert init[..m] == s[..m] && init[m] == s[m];
    } else {
      m := |s| - 1;
      assert init == s[..m];
    }
  }

  /** Taking the elements of t out of s leaves |s| - |t| elements exactly when s had them all. */
  lemma SiftCounts<T(!new)>(s: seq<T>, t: seq<T>)
    requires NoDup(s) && NoDup(t)
    ensures |Sift(s, t, false)| + |t| >= |s|
    ensures |Sift(s, t, false)| + |t| == |s| <==> AllIn(t, s)
  {
    var ins := Sift(s, t, true);
    SiftSizes(s, t);
    SiftDistinct(s, t, true);
    forall i | 0 <= i < |ins| ensures ins[i] in t && ins[i] in s {
      SiftMember(s, t, true, ins[i]);
    }
    DistinctBound(ins, t);
    if |ins| == |t| {
      SameElements(ins, t);
      forall i | 0 <= i < |t| ensures t[i] in s {
        assert t[i] in ins;
        SiftMember(s, t, true, t[i]);
      }
    }
    if AllIn(t, s) {
      forall i | 0 <= i < |t| ensures t[i] in ins {
        SiftMember(s, t, true, t[i]);
      }
      DistinctBound(t, ins);
    }
  }
}
