/** Unrolling of a recurrent encoder net into a feed-forward net of shared copies. */
module Unrolling {
  import opened Graphs
  import opened Sequences
  import opened Wrappers

  // ---------------------------------------------------------------- looking ahead for recurrent layers

  ghost predicate RnnAhead(child: Links, recurrent: seq<bool>, l: Layer)
    requires |recurrent| == |child|
  {
    exists p :: Path(child, p) && |p| >= 2 && p[0] == l && recurrent[p[|p| - 1]]
  }

  /** The layer is recurrent or some recurrent layer depends on it. */
  ghost predicate Leads(child: Links, recurrent: seq<bool>, l: Layer)
    requires |recurrent| == |child| && l < |child|
  {
    recurrent[l] || RnnAhead(child, recurrent, l)
  }

  lemma AheadOfChild(child: Links, recurrent: seq<bool>, l: Layer, c: Layer)
    requires Closed(child) && |recurrent| == |child| && l < |child| && c in child[l] && c < |child|
    requires Leads(child, recurrent, c)
    ensures RnnAhead(child, recurrent, l)
  {
    if recurrent[c] {
      assert Path(child, [l, c]) && recurrent[[l, c][1]];
    } else {
      var p :| Path(child, p) && |p| >= 2 && p[0] == c && recurrent[p[|p| - 1]];
      var q := [l] + p;
      forall i, j | 0 <= i && j == i + 1 && j < |q| ensures q[j] in child[q[i]] {
        if i > 0 { assert p[i] in child[p[i - 1]]; }
      }
      assert Path(child, q) && |q| >= 2 && q[0] == l && recurrent[q[|q| - 1]];
    }
  }

  lemma AheadByChild(child: Links, recurrent: seq<bool>, l: Layer) returns (i: nat)
    requires Closed(child) && |recurrent| == |child| && l < |child| && RnnAhead(child, recurrent, l)
    ensures i < |child[l]| && Leads(child, recurrent, child[l][i])
  {
    var p :| Path(child, p) && |p| >= 2 && p[0] == l && recurrent[p[|p| - 1]];
    assert p[1] in child[p[0]];
    i :| 0 <= i < |child[l]| && child[l][i] == p[1];
    if |p| > 2 {
      var q := p[1..];
      forall x, y | 0 <= x && y == x + 1 && y < |q| ensures q[y] in child[q[x]] {
        assert p[y + 1] in child[p[x + 1]];
      }
      assert Path(child, q) && |q| >= 2 && q[0] == child[l][i] && recurrent[q[|q| - 1]];
    }
  }

  /** The layers that lead (or do not lead) to a recurrent layer, in their present order. */
  ghost function Keep(child: Links, recurrent: seq<bool>, s: seq<Layer>, want: bool): (r: seq<Layer>)
    requires |recurrent| == |child| && forall i :: 0 <= i < |s| ==> s[i] < |child|
    ensures |r| <= |s|
  {
    if s == [] then []
    else
      var init, last := s[..|s| - 1], s[|s| - 1];
      Keep(child, recurrent, init, want) + if Leads(child, recurrent, last) == want then [last] else []
  }

  lemma {:induction false} KeepMembers(child: Links, recurrent: seq<bool>, s: seq<Layer>, want: bool)
    requires |recurrent| == |child| && forall i :: 0 <= i < |s| ==> s[i] < |child|
    ensures forall l {:trigger l in Keep(child, recurrent, s, want)} {:trigger l in s} ::
      l in Keep(child, recurrent, s, want) <==> l in s && l < |child| && Leads(child, recurrent, l) == want
  {
    if s != [] {
      var init, last := s[..|s| - 1], s[|s| - 1];
      KeepMembers(child, recurrent, init, want);
      assert s == init + [last];
    }
  }

  lemma KeepWithin(child: Links, recurrent: seq<bool>, s: seq<Layer>, want: bool)
    requires |recurrent| == |child| && forall i :: 0 <= i < |s| ==> s[i] < |child|
    ensures AllIn(Keep(child, recurrent, s, want), s)
  {
    var q := Keep(child, recurrent, s, want);
    KeepMembers(child, recurrent, s, want);
    forall i | 0 <= i < |q| ensures q[i] in s {
      assert q[i] in q;
    }
  }

  lemma KeepStep(child: Links, recurrent: seq<bool>, s: seq<Layer>, j: nat, want: bool)
    requires |recurrent| == |child| && (forall i :: 0 <= i < |s| ==> s[i] < |child|) && j < |s|
    ensures Keep(child, recurrent, s[..j + 1], want)
         == Keep(child, recurrent, s[..j], want) + if Leads(child, recurrent, s[j]) == want then [s[j]] else []
  {
    assert s[..j + 1][..j] == s[..j];
  }

  ghost function FrnnOrder(child: Links, recurrent: seq<bool>, s: seq<Layer>): (r: seq<Layer>)
    requires |recurrent| == |child| && forall i :: 0 <= i < |s| ==> s[i] < |child|
  {
    Keep(child, recurrent, s, true) + Keep(child, recurrent, s, false)
  }

  /** The elements of r occur in s, in the same order. */
  ghost predicate InOrder(s: seq<Layer>, r: seq<Layer>) {
    && AllIn(r, s)
    && forall i, j {:trigger Pos(s, r[i]), Pos(s, r[j])} :: 0 <= i < j < |r| ==> Pos(s, r[i]) < Pos(s, r[j])
  }

  lemma InOrderAppend(s: seq<Layer>, r: seq<Layer>, m: nat)
    requires NoDup(s) && m < |s| && InOrder(s, r)
    requires AllIn(r, s[..m])
    ensures InOrder(s, r + [s[m]])
  {
    forall i | 0 <= i < |r| ensures Pos(s, r[i]) < m {
      assert r[i] in s[..m];
      var z :| 0 <= z < m && s[..m][z] == r[i];
      assert s[z] == r[i];
    }
  }

  lemma {:induction false} KeepInOrder(child: Links, recurrent: seq<bool>, s: seq<Layer>, t: seq<Layer>, want: bool)
    requires |recurrent| == |child| && Valid(s, child) && t <= s
    ensures InOrder(s, Keep(child, recurrent, t, want))
  {
    if t != [] {
      var m := |t| - 1;
      var init := t[..m];
      assert t[m] == s[m] && init == s[..m];
      KeepInOrder(child, recurrent, s, init, want);
      if Leads(child, recurrent, t[m]) == want {
        KeepWithin(child, recurrent, init, want);
        InOrderAppend(s, Keep(child, recurrent, init, want), m);
      } else {
        assert Keep(child, recurrent, t, want) == Keep(child, recurrent, init, want);
      }
    }
  }

  /** A list in the order of s inherits its discipline. */
  lemma InOrderIsForward(parent: Links, s: seq<Layer>, r: seq<Layer>)
    requires Valid(s, parent) && ParentsFirst(parent, s, s) && InOrder(s, r)
    ensures Valid(r, parent) && ParentsFirst(parent, r, r)
  {
    InOrderDistinct(s, r);
    forall i | 0 <= i < |r| ensures r[i] < |parent| {
      assert r[i] in s && s[Pos(s, r[i])] == r[i];
    }
    forall i, k | 0 <= i < |r| && 0 <= k < |parent[r[i]]| && parent[r[i]][k] in r
      ensures parent[r[i]][k] in r[..i]
    {
      var p, m := parent[r[i]][k], Pos(s, r[i]);
      var j := Pos(r, p);
      assert s[m] == r[i] && r[j] in s && parent[s[m]][k] in s[..m];
      var z :| 0 <= z < m && s[z] == p;
      assert Pos(s, s[z]) == z && Pos(s, r[j]) < Pos(s, r[i]);
      assert r[..i][j] == p;
    }
  }

  lemma KeepOrdered(parent: Links, child: Links, recurrent: seq<bool>, s: seq<Layer>, want: bool)
    requires Mirrored(parent, child) && |recurrent| == |child| && Valid(s, parent) && ParentsFirst(parent, s, s)
    ensures var r := Keep(child, recurrent, s, want);
      Valid(r, parent) && ParentsFirst(parent, r, r)
  {
    KeepInOrder(child, recurrent, s, s, want);
    InOrderIsForward(parent, s, Keep(child, recurrent, s, want));
  }

  /** Parents of a layer that leads to a recurrent layer lead there too. */
  lemma ParentLeads(parent: Links, child: Links, recurrent: seq<bool>, p: Layer, c: Layer)
    requires Mirrored(parent, child) && |recurrent| == |child| && c < |parent| && p in parent[c] && p < |parent|
    requires Leads(child, recurrent, c)
    ensures Leads(child, recurrent, p)
  {
    assert multiset(parent[c])[p] > 0 && multiset(child[p])[c] > 0;
    AheadOfChild(child, recurrent, p, c);
  }

  /** Moving the layers that lead to a recurrent layer to the front keeps the order topological. */
  lemma FrnnOrderIsForward(parent: Links, child: Links, recurrent: seq<bool>, s: seq<Layer>)
    requires Mirrored(parent, child) && |recurrent| == |child| && Valid(s, parent) && ParentsFirst(parent, s, s)
    ensures var r := FrnnOrder(child, recurrent, s);
      && Valid(r, parent) && ParentsFirst(parent, r, r)
      && forall l :: l in r <==> l in s
  {
    KeepOrdered(parent, child, recurrent, s, true);
    KeepOrdered(parent, child, recurrent, s, false);
    KeepMembers(child, recurrent, s, true);
    KeepMembers(child, recurrent, s, false);
    var a, b := Keep(child, recurrent, s, true), Keep(child, recurrent, s, false);
    forall i, k | 0 <= i < |a| && 0 <= k < |parent[a[i]]| ensures parent[a[i]][k] !in b {
      assert a[i] in a;
      ParentLeads(parent, child, recurrent, parent[a[i]][k], a[i]);
    }
    ConcatIsForward(parent, a, b);
  }

  lemma ConcatIsForward(parent: Links, a: seq<Layer>, b: seq<Layer>)
    requires Valid(a, parent) && Valid(b, parent) && ParentsFirst(parent, a, a) && ParentsFirst(parent, b, b)
    requires forall l :: l in a ==> l !in b
    requires forall i, k :: 0 <= i < |a| && 0 <= k < |parent[a[i]]| ==> parent[a[i]][k] !in b
    ensures Valid(a + b, parent) && ParentsFirst(parent, a + b, a + b)
  {
    var r := a + b;
    forall i | 0 <= i < |r| ensures r[i] < |parent| && Pos(r, r[i]) == i {
      var q := Pos(r, r[i]);
      if i < |a| { assert a[i] == r[i]; } else { assert b[i - |a|] == r[i]; }
      if q < |a| { assert a[q] == r[q]; } else { assert b[q - |a|] == r[q]; }
    }
    forall i, k | 0 <= i < |r| && 0 <= k < |parent[r[i]]| && parent[r[i]][k] in r
      ensures parent[r[i]][k] in r[..i]
    {
      var p := parent[r[i]][k];
      if i < |a| {
        assert parent[a[i]][k] in a;
        assert r[..i] == a[..i];
      } else {
        assert r[..i] == a + b[..i - |a|];
        if p !in a { assert parent[b[i - |a|]][k] in b; }
      }
    }
  }

  lemma DeeperPath(child: Links, stack: seq<Layer>, c: Layer)
    requires Closed(child) && Acyclic(child, UpTo(|child|))
    requires Path(child, stack) && c in child[stack[|stack| - 1]] && c < |child|
    ensures Path(child, stack + [c]) && |stack + [c]| <= |child|
  {
    var deeper := stack + [c];
    forall x, y | 0 <= x && y == x + 1 && y < |deeper| ensures deeper[y] in child[deeper[x]] {
      if y < |stack| { assert stack[y] in child[stack[x]]; }
    }
    forall x | 0 <= x < |deeper| ensures deeper[x] in UpTo(|child|) {
      assert UpTo(|child|)[deeper[x]] == deeper[x];
    }
    if |deeper| > |child| { LongPathRepeats(child, UpTo(|child|), deeper); }
  }

  lemma {:induction false} SourceLeads(parent: Links, child: Links, recurrent: seq<bool>, vfts: seq<Layer>, x: Layer,
                                       i: nat)
    requires Mirrored(parent, child) && |recurrent| == |child|
    requires Valid(vfts, parent) && ParentsFirst(parent, vfts, vfts)
    requires OnlySource(parent, vfts, x) && i < |vfts| && Leads(child, recurrent, vfts[i])
    ensures x < |child| && Leads(child, recurrent, x)
    decreases i
  {
    var l := vfts[i];
    if l != x {
      assert HasParentIn(parent, vfts, l);
      var k :| 0 <= k < |parent[l]| && parent[l][k] in vfts;
      assert parent[l][k] in vfts[..i];
      var j :| 0 <= j < i && vfts[j] == parent[l][k];
      ParentLeads(parent, child, recurrent, vfts[j], l);
      SourceLeads(parent, child, recurrent, vfts, x, j);
    }
  }

  ghost predicate HasParentIn(parent: Links, layers: seq<Layer>, l: Layer)
    requires l < |parent|
  {
    exists k :: 0 <= k < |parent[l]| && parent[l][k] in layers
  }

  /** x is the only layer of the net without a parent in the net. */
  ghost predicate OnlySource(parent: Links, layers: seq<Layer>, x: Layer)
    requires Valid(layers, parent)
  {
    x in layers && forall i :: 0 <= i < |layers| ==> (layers[i] != x <==> HasParentIn(parent, layers, layers[i]))
  }

  // ---------------------------------------------------------------- where inputs must stand

  /** The order in which a row lists copies: the inputs, then the other layers in their order. */
  function Laid(layers: seq<Layer>, lin: seq<Layer>): seq<Layer> {
    lin + Sift(layers, lin, false)
  }

  /** Every recurrent layer comes after all the inputs. */
  ghost predicate Timely(layers: seq<Layer>, recurrent: seq<bool>, lin: seq<Layer>) {
    forall j {:trigger layers[j]} ::
      0 <= j < |layers| && layers[j] < |recurrent| && recurrent[layers[j]] && layers[j] !in lin ==>
      AllIn(lin, layers[..j])
  }

  lemma LaidMembers(layers: seq<Layer>, lin: seq<Layer>)
    requires NoDup(layers) && NoDup(lin) && AllIn(lin, layers)
    ensures NoDup(Laid(layers, lin)) && |Laid(layers, lin)| == |layers|
    ensures forall x :: x in Laid(layers, lin) <==> x in layers
  {
    var rest := Sift(layers, lin, false);
    SiftCounts(layers, lin);
    SiftDistinct(layers, lin, false);
    forall x ensures x in Laid(layers, lin) <==> x in layers {
      SiftMember(layers, lin, false, x);
      if x in lin { assert lin[Pos(lin, x)] in layers; }
    }
    forall i | 0 <= i < |rest| ensures rest[i] !in lin {
      SiftMember(layers, lin, false, rest[i]);
    }
    AppendDistinct(lin, rest);
  }

  /** The place of a layer in a row is its place among the layers exactly when every input comes
      before it: then, and only then, `nlayers[i-1][j]` is the previous copy of layers[j]. */
  lemma LookupIsOwn(layers: seq<Layer>, lin: seq<Layer>, j: nat)
    requires NoDup(layers) && NoDup(lin) && AllIn(lin, layers) && j < |layers| && layers[j] !in lin
    ensures |Laid(layers, lin)| == |layers| && layers[j] in Laid(layers, lin)
    ensures Laid(layers, lin)[j] == layers[j] <==> AllIn(lin, layers[..j])
    ensures Pos(Laid(layers, lin), layers[j]) == |lin| + |Sift(layers[..j], lin, false)|
  {
    var laid, q := Laid(layers, lin), |lin| + |Sift(layers[..j], lin, false)|;
    LaidMembers(layers, lin);
    SiftAt(layers, lin, false, j);
    assert laid[q] == layers[j] && Pos(laid, laid[q]) == q && Pos(laid, laid[j]) == j;
    PrefixDistinct(layers, j);
    SiftCounts(layers[..j], lin);
  }

  lemma PrefixDistinct(s: seq<Layer>, j: nat)
    requires NoDup(s) && j <= |s|
    ensures NoDup(s[..j])
  {
    var t := s[..j];
    forall i | 0 <= i < j ensures Pos(t, t[i]) == i {
      assert s[Pos(t, t[i])] == s[i] && Pos(s, s[i]) == i && Pos(s, s[Pos(t, t[i])]) == Pos(t, t[i]);
    }
  }

  const MISALIGNED_PARENT: Links := [[], [], [1]]
  const MISALIGNED_CHILD: Links := [[], [2], []]
  const MISALIGNED_RECURRENT: seq<bool> := [false, false, true]

  lemma MisalignedLeads()
    ensures !Leads(MISALIGNED_CHILD, MISALIGNED_RECURRENT, 0)
    ensures Leads(MISALIGNED_CHILD, MISALIGNED_RECURRENT, 1) && Leads(MISALIGNED_CHILD, MISALIGNED_RECURRENT, 2)
  {
    var child := MISALIGNED_CHILD;
    assert child[1][0] == 2 && 2 in child[1];
    AheadOfChild(child, MISALIGNED_RECURRENT, 1, 2);
    forall p | Path(child, p) && |p| >= 2 ensures p[0] != 0 {
      assert p[1] in child[p[0]];
    }
  }

  lemma MisalignedMirrored()
    ensures Mirrored(MISALIGNED_PARENT, MISALIGNED_CHILD)
  {
    var parent, child := MISALIGNED_PARENT, MISALIGNED_CHILD;
    forall p, c | 0 <= p < |parent| && 0 <= c < |parent| ensures multiset(child[p])[c] == multiset(parent[c])[p] {
      assert p == 0 || p == 1 || p == 2;
      assert c == 0 || c == 1 || c == 2;
    }
  }

  lemma KeepThree(child: Links, recurrent: seq<bool>, a: Layer, b: Layer, c: Layer)
    requires |recurrent| == |child| && a < |child| && b < |child| && c < |child|
    requires !Leads(child, recurrent, a) && Leads(child, recurrent, b) && Leads(child, recurrent, c)
    ensures Keep(child, recurrent, [a, b, c], true) == [b, c] && Keep(child, recurrent, [a, b, c], false) == [a]
  {
    var s := [a];
    KeepOne(child, recurrent, a);
    KeepBothAppend(child, recurrent, s, b, c);
    ListOfThree(a, b, c);
  }

  lemma KeepOne(child: Links, recurrent: seq<bool>, a: Layer)
    requires |recurrent| == |child| && a < |child| && !Leads(child, recurrent, a)
    ensures Keep(child, recurrent, [a], true) == [] && Keep(child, recurrent, [a], false) == [a]
  {
    var s := [a];
    assert s[..|s| - 1] == [];
  }

  lemma KeepBothAppend(child: Links, recurrent: seq<bool>, s: seq<Layer>, x: Layer, y: Layer)
    requires |recurrent| == |child| && (forall i :: 0 <= i < |s| ==> s[i] < |child|) && x < |child| && y < |child|
    requires Leads(child, recurrent, x) && Leads(child, recurrent, y)
    ensures Keep(child, recurrent, s + [x] + [y], true) == Keep(child, recurrent, s, true) + [x] + [y]
    ensures Keep(child, recurrent, s + [x] + [y], false) == Keep(child, recurrent, s, false)
  {
    KeepAppend(child, recurrent, s, x);
    KeepAppend(child, recurrent, s + [x], y);
  }

  lemma KeepAppend(child: Links, recurrent: seq<bool>, s: seq<Layer>, x: Layer)
    requires |recurrent| == |child| && (forall i :: 0 <= i < |s| ==> s[i] < |child|) && x < |child|
    ensures Leads(child, recurrent, x) ==>
      Keep(child, recurrent, s + [x], true) == Keep(child, recurrent, s, true) + [x]
    ensures Leads(child, recurrent, x) ==> Keep(child, recurrent, s + [x], false) == Keep(child, recurrent, s, false)
    ensures !Leads(child, recurrent, x) ==> Keep(child, recurrent, s + [x], true) == Keep(child, recurrent, s, true)
    ensures !Leads(child, recurrent, x) ==>
      Keep(child, recurrent, s + [x], false) == Keep(child, recurrent, s, false) + [x]
  {
    assert (s + [x])[..|s|] == s;
  }

  /** A net on which the lookup finds the copy of another layer: input 0 leads nowhere, input 1 feeds
      recurrent layer 2, and position 1 of a row holds the copy of layer 1. */
  lemma LookupMisses()
    ensures Mirrored(MISALIGNED_PARENT, MISALIGNED_CHILD)
    ensures FrnnOrder(MISALIGNED_CHILD, MISALIGNED_RECURRENT, [0, 1, 2]) == [1, 2, 0]
    ensures !Timely([1, 2, 0], MISALIGNED_RECURRENT, [0, 1]) && Laid([1, 2, 0], [0, 1])[..2] == [0, 1]
  {
    MisalignedMirrored();
    MisalignedLeads();
    KeepThree(MISALIGNED_CHILD, MISALIGNED_RECURRENT, 0, 1, 2);
    MisalignedLate();
  }

  lemma MisalignedLate()
    ensures !Timely([1, 2, 0], MISALIGNED_RECURRENT, [0, 1]) && Laid([1, 2, 0], [0, 1])[..2] == [0, 1]
  {
    var layers: seq<Layer>, lin: seq<Layer> := [1, 2, 0], [0, 1];
    assert layers[..1] == [1] && lin[0] !in layers[..1] && layers[1] == 2;
  }

  /** Input x stands before recurrent layer r in every forward order the marking can make. */
  ghost predicate InTime(child: Links, recurrent: seq<bool>, vfts: seq<Layer>, x: Layer, r: Layer)
    requires |recurrent| == |child| && x in vfts && r in vfts
  {
    x < |child| && Leads(child, recurrent, x) && Pos(vfts, x) < Pos(vfts, r)
  }

  ghost predicate Waits(recurrent: seq<bool>, vfts: seq<Layer>, lin: seq<Layer>, r: Layer) {
    r in vfts && r < |recurrent| && recurrent[r] && r !in lin
  }

  ghost predicate AllInTime(child: Links, recurrent: seq<bool>, vfts: seq<Layer>, lin: seq<Layer>)
    requires |recurrent| == |child| && AllIn(lin, vfts)
  {
    forall r, i {:trigger Waits(recurrent, vfts, lin, r), lin[i]} ::
      Waits(recurrent, vfts, lin, r) && 0 <= i < |lin| ==>
      InTime(child, recurrent, vfts, lin[i], r)
  }

  /** Inputs come in time exactly when each of them leads to a recurrent layer and precedes every
      recurrent layer, or there is no recurrent layer. */
  lemma TimelyIff(parent: Links, child: Links, recurrent: seq<bool>, vfts: seq<Layer>, lin: seq<Layer>)
    requires Mirrored(parent, child) && |recurrent| == |child|
    requires Valid(vfts, parent) && ParentsFirst(parent, vfts, vfts)
    requires AllIn(lin, vfts)
    ensures Timely(FrnnOrder(child, recurrent, vfts), recurrent, lin) <==> AllInTime(child, recurrent, vfts, lin)
  {
    var layers := FrnnOrder(child, recurrent, vfts);
    FrnnOrderIsForward(parent, child, recurrent, vfts);
    if Timely(layers, recurrent, lin) {
      forall r: Layer, i | Waits(recurrent, vfts, lin, r) && 0 <= i < |lin|
        ensures InTime(child, recurrent, vfts, lin[i], r)
      {
        FrnnBefore(child, recurrent, vfts, lin[i], r);
        assert layers[Pos(layers, r)] == r;
      }
    }
    if AllInTime(child, recurrent, vfts, lin) {
      forall j | 0 <= j < |layers| && layers[j] < |recurrent| && recurrent[layers[j]] && layers[j] !in lin
        ensures AllIn(lin, layers[..j])
      {
        assert layers[j] in vfts && Pos(layers, layers[j]) == j;
        assert Waits(recurrent, vfts, lin, layers[j]);
        forall i | 0 <= i < |lin| ensures lin[i] in layers[..j] {
          assert InTime(child, recurrent, vfts, lin[i], layers[j]);
          FrnnBefore(child, recurrent, vfts, lin[i], layers[j]);
        }
      }
    }
  }

  /** What stands before a leading layer among the leading ones: those before it in the net. */
  lemma KeepBefore(child: Links, recurrent: seq<bool>, vfts: seq<Layer>, x: Layer, r: Layer)
    requires |recurrent| == |child| && Valid(vfts, child) && x in vfts && r in vfts && r < |child| && x != r
    requires Leads(child, recurrent, r)
    ensures r in Keep(child, recurrent, vfts, true)
    ensures x in Keep(child, recurrent, vfts, true)[..Pos(Keep(child, recurrent, vfts, true), r)] <==>
      InTime(child, recurrent, vfts, x, r)
  {
    var a := Keep(child, recurrent, vfts, true);
    KeepMembers(child, recurrent, vfts, true);
    KeepInOrder(child, recurrent, vfts, vfts, true);
    assert vfts[Pos(vfts, x)] == x && r in a;
    var j := Pos(a, r);
    if x in a[..j] {
      var i := Pos(a[..j], x);
      assert a[i] == x && x in a && Pos(vfts, a[i]) < Pos(vfts, a[j]);
    }
    if InTime(child, recurrent, vfts, x, r) {
      assert x in a;
      assert a[..j][Pos(a, x)] == x;
    }
  }

  /** The same in the reordered layers. */
  lemma FrnnBefore(child: Links, recurrent: seq<bool>, vfts: seq<Layer>, x: Layer, r: Layer)
    requires |recurrent| == |child| && Valid(vfts, child) && x in vfts && r in vfts && r < |child| && x != r
    requires Leads(child, recurrent, r)
    ensures r in FrnnOrder(child, recurrent, vfts)
    ensures x in FrnnOrder(child, recurrent, vfts)[..Pos(FrnnOrder(child, recurrent, vfts), r)] <==>
      InTime(child, recurrent, vfts, x, r)
  {
    var a, b := Keep(child, recurrent, vfts, true), Keep(child, recurrent, vfts, false);
    KeepBefore(child, recurrent, vfts, x, r);
    KeepMembers(child, recurrent, vfts, false);
    forall m | 0 <= m < |b| ensures b[m] != r {
      assert b[m] in b;
    }
    KeepInOrder(child, recurrent, vfts, vfts, true);
    InOrderDistinct(vfts, a);
    var j := Pos(a + b, r);
    assert j < |a| && a[j] == r && Pos(a, a[j]) == j;
    assert (a + b)[..j] == a[..j];
  }

  lemma InOrderDistinct(s: seq<Layer>, r: seq<Layer>)
    requires NoDup(s) && InOrder(s, r)
    ensures NoDup(r)
  {
    forall i | 0 <= i < |r| ensures Pos(r, r[i]) == i {
      var q := Pos(r, r[i]);
      assert s[Pos(s, r[i])] == r[i] && Pos(s, r[q]) == Pos(s, r[i]);
    }
  }

  /** In a net fed by one input layer and by nothing else the input is always in time. */
  lemma SingleInputTimely(parent: Links, child: Links, recurrent: seq<bool>, vfts: seq<Layer>, x: Layer)
    requires Mirrored(parent, child) && |recurrent| == |child|
    requires Valid(vfts, parent) && ParentsFirst(parent, vfts, vfts)
    requires OnlySource(parent, vfts, x)
    ensures Timely(FrnnOrder(child, recurrent, vfts), recurrent, [x])
  {
    assert vfts[0] == x by {
      forall k | 0 <= k < |parent[vfts[0]]| ensures parent[vfts[0]][k] !in vfts {
      }
    }
    var lin := [x];
    assert Pos(vfts, vfts[0]) == 0;
    forall r: Layer, i | Waits(recurrent, vfts, lin, r) && 0 <= i < |lin|
      ensures InTime(child, recurrent, vfts, lin[i], r)
    {
      SourceLeads(parent, child, recurrent, vfts, x, Pos(vfts, r));
      assert vfts[Pos(vfts, r)] == r;
    }
    TimelyIff(parent, child, recurrent, vfts, lin);
  }

  // ---------------------------------------------------------------- the recurrence

  /** The net to unroll, its layers in an order in which all but the inputs follow their parents.  What
      a recurrent layer l takes from the step before is the value of layer past[l]. */
  datatype Source = Source(parent: Links, recurrent: seq<bool>, layers: seq<Layer>, lin: seq<Layer>,
                           past: seq<Layer>) {
    ghost predicate Ok() {
      && |recurrent| == |parent| == |past| && Valid(layers, parent)
      && NoDup(lin) && AllIn(lin, layers)
      && (forall l: Layer {:trigger past[l]} :: l in layers && l < |past| ==> past[l] in layers)
      && forall i, k ::
          0 <= i < |layers| && layers[i] < |parent| && layers[i] !in lin && 0 <= k < |parent[layers[i]]| ==>
        parent[layers[i]][k] in layers ==> parent[layers[i]][k] in layers[..i]
    }

    /** Layer l takes a value from the step before. */
    ghost predicate Remembers(l: Layer) {
      l in layers && l < |recurrent| && recurrent[l] && l !in lin
    }

    /** Every layer that takes a value from the step before takes its own. */
    ghost predicate OwnPast() {
      forall l: Layer {:trigger Remembers(l)} :: Remembers(l) && l < |past| ==> past[l] == l
    }

    /** Every parent of a layer other than an input belongs to the net. */
    ghost predicate Complete() {
      forall j :: 0 <= j < |layers| && layers[j] < |parent| && layers[j] !in lin ==> AllIn(parent[layers[j]], layers)
    }

    /** The inputs come first: then position j of a row holds the copy of layers[j]. */
    ghost predicate Aligned() {
      lin <= layers
    }
  }

  lemma EarlierParent(src: Source, j: nat, k: nat)
    requires src.Ok() && j < |src.layers| && src.layers[j] !in src.lin && k < |src.parent[src.layers[j]]|
    requires src.parent[src.layers[j]][k] in src.layers
    ensures Pos(src.layers, src.parent[src.layers[j]][k]) < j
  {
    assert src.parent[src.layers[j]][k] in src.layers[..j];
    var q :| 0 <= q < j && src.layers[q] == src.parent[src.layers[j]][k];
  }

  /** Value of layer l at time t: an input layer shows what it is fed; any other layer applies
      its function to its parents at time t and, if recurrent, to layer past[l] at t - 1. */
  ghost function Rec<V>(src: Source, fwd: (Layer, seq<V>) -> V, feed: (nat, nat) -> V, t: nat, l: Layer): V
    requires src.Ok() && src.Complete() && l in src.layers
    decreases t, Pos(src.layers, l)
  {
    if l in src.lin then feed(t, Pos(src.lin, l))
    else
      var ps := src.parent[l];
      assert src.layers[Pos(src.layers, l)] == l;
      var now := seq(|ps|, k requires 0 <= k < |ps| =>
        EarlierParent(src, Pos(src.layers, l), k); Rec(src, fwd, feed, t, ps[k]));
      fwd(l, if src.recurrent[l] && t > 0 then now + [Rec(src, fwd, feed, t - 1, src.past[l])] else now)
  }

  ghost predicate SamePast(a: Source, b: Source) {
    forall l: Layer {:trigger a.Remembers(l)} :: a.Remembers(l) && l < |a.past| && l < |b.past| ==>
      a.past[l] == b.past[l]
  }

  /** The recurrence does not depend on which forward order lists the layers. */
  lemma {:induction false} RecOrderFree<V>(a: Source, b: Source, fwd: (Layer, seq<V>) -> V, feed: (nat, nat) -> V,
                                           t: nat, l: Layer)
    requires a.Ok() && a.Complete() && b.Ok() && b.Complete()
    requires a.parent == b.parent && a.recurrent == b.recurrent && a.lin == b.lin
    requires (forall x :: x in a.layers <==> x in b.layers) && l in a.layers && SamePast(a, b)
    ensures Rec(a, fwd, feed, t, l) == Rec(b, fwd, feed, t, l)
    decreases t, Pos(a.layers, l)
  {
    if l !in a.lin {
      var ps := a.parent[l];
      var i := Pos(a.layers, l);
      assert a.layers[i] == l && b.layers[Pos(b.layers, l)] == l;
      forall k | 0 <= k < |ps| ensures Rec(a, fwd, feed, t, ps[k]) == Rec(b, fwd, feed, t, ps[k]) {
        EarlierParent(a, i, k);
        RecOrderFree(a, b, fwd, feed, t, ps[k]);
      }
      var now := seq(|ps|, k requires 0 <= k < |ps| => Rec(a, fwd, feed, t, ps[k]));
      assert now == seq(|ps|, k requires 0 <= k < |ps| => Rec(b, fwd, feed, t, ps[k]));
      if t > 0 && a.recurrent[l] {
        assert a.Remembers(l);
        RecOrderFree(a, b, fwd, feed, t - 1, a.past[l]);
      }
    }
  }

  /** The same net, every recurrent layer taking its own value from the step before. */
  function Own(src: Source): Source { src.(past := UpTo(|src.parent|)) }

  /** Whatever the layers compute and are fed, each has the value it has when recurrent layers take
      their own past. */
  ghost predicate SameMeaning(src: Source)
    requires src.Ok() && src.Complete()
  {
    && Own(src).Ok() && Own(src).Complete()
    && forall fwd: (Layer, seq<nat>) -> nat, feed: (nat, nat) -> nat, t: nat, l: Layer
         {:trigger Rec(src, fwd, feed, t, l)} ::
         l in src.layers ==> Rec(src, fwd, feed, t, l) == Rec(Own(src), fwd, feed, t, l)
  }

  lemma SameMeaningIff(src: Source)
    requires src.Ok() && src.Complete()
    ensures SameMeaning(src) <==> src.OwnPast()
  {
    var own := Own(src);
    assert own.Ok() && own.Complete();
    if src.OwnPast() {
      forall fwd: (Layer, seq<nat>) -> nat, feed: (nat, nat) -> nat, t: nat, l: Layer | l in src.layers
        ensures Rec(src, fwd, feed, t, l) == Rec(own, fwd, feed, t, l)
      {
        RecOrderFree(src, own, fwd, feed, t, l);
      }
    }
    if SameMeaning(src) {
      forall l: Layer | src.Remembers(l) ensures src.past[l] == l {
        var fwd, feed := Recall(l, |src.parent[l]|), Names(src.lin);
        RecallsPast(src, l, feed);
        RecallsPast(own, l, feed);
        assert Rec(src, fwd, feed, 1, l) == Rec(own, fwd, feed, 1, l);
      }
    }
  }

  /** Every layer shows its own number, but layer l, after n arguments, what follows them. */
  function Recall(l: Layer, n: nat): (Layer, seq<nat>) -> nat {
    (m: Layer, xs: seq<nat>) => if m == l && |xs| == n + 1 then xs[n] else m
  }

  function Names(lin: seq<Layer>): (nat, nat) -> nat {
    (t: nat, j: nat) => if j < |lin| then lin[j] else 0
  }

  lemma RecallsPast(src: Source, l: Layer, feed: (nat, nat) -> nat)
    requires src.Ok() && src.Complete() && src.Remembers(l)
    requires forall j :: 0 <= j < |src.lin| ==> feed(0, j) == src.lin[j]
    ensures Rec(src, Recall(l, |src.parent[l]|), feed, 1, l) == src.past[l]
  {
    var fwd, m := Recall(l, |src.parent[l]|), src.past[l];
    assert Rec(src, fwd, feed, 0, m) == m;
  }

  // ---------------------------------------------------------------- rows of copies

  /** Where the previous row holds what the j-th layer takes from it. */
  ghost function Back(src: Source, j: nat): (m: nat)
    requires src.Ok() && j < |src.layers|
    ensures m < |src.layers| && src.layers[m] == src.past[src.layers[j]]
  {
    Pos(src.layers, src.past[src.layers[j]])
  }

  /** Parents of the copy of the j-th layer in row i: the same row's copies of its parents and,
      for a recurrent layer after the first step, the previous row's copy of what it takes from there. */
  ghost function Wired(src: Source, prev: seq<Layer>, cur: seq<Layer>, i: nat, j: nat): (par: seq<Layer>)
    requires src.Ok() && j < |src.layers| && j <= |cur| && src.layers[j] !in src.lin
    requires AllIn(src.parent[src.layers[j]], src.layers)
    requires i > 0 && src.recurrent[src.layers[j]] ==> Back(src, j) < |prev|
    ensures |par| == |src.parent[src.layers[j]]| + if src.recurrent[src.layers[j]] && i > 0 then 1 else 0
    ensures forall k {:trigger par[k]} :: 0 <= k < |src.parent[src.layers[j]]| ==>
      var m := Pos(src.layers, src.parent[src.layers[j]][k]);
      m < |cur| && par[k] == cur[m]
    ensures src.recurrent[src.layers[j]] && i > 0 ==> par[|par| - 1] == prev[Back(src, j)]
  {
    var l := src.layers[j];
    var ps := src.parent[l];
    var now := seq(|ps|, k requires 0 <= k < |ps| => EarlierParent(src, j, k); cur[Pos(src.layers, ps[k])]);
    if src.recurrent[l] && i > 0 then now + [prev[Back(src, j)]] else now
  }

  ghost predicate CopyOf(src: Source, parent: Links, orig: seq<Option<Layer>>, prev: seq<Layer>, cur: seq<Layer>,
                         i: nat, j: nat)
    requires src.Ok() && |orig| == |parent| && j < |cur| <= |src.layers|
  {
    && |src.parent| <= cur[j] < |parent|
    && orig[cur[j]] == Some(src.layers[j])
    && if src.layers[j] in src.lin then parent[cur[j]] == []
       else
         && AllIn(src.parent[src.layers[j]], src.layers)
         && (i > 0 && src.recurrent[src.layers[j]] ==> Back(src, j) < |prev|)
         && parent[cur[j]] == Wired(src, prev, cur, i, j)
  }

  /** Row i lists copies position by position: entry j is the copy of layer j. */
  ghost predicate Row(src: Source, parent: Links, orig: seq<Option<Layer>>, prev: seq<Layer>, cur: seq<Layer>, i: nat)
    requires src.Ok() && |orig| == |parent|
  {
    && |cur| <= |src.layers|
    && forall j {:trigger CopyOf(src, parent, orig, prev, cur, i, j)} :: 0 <= j < |cur| ==>
         CopyOf(src, parent, orig, prev, cur, i, j)
  }

  ghost function Before(rows: seq<seq<Layer>>, i: nat): seq<Layer>
    requires i <= |rows|
  {
    if i == 0 then [] else rows[i - 1]
  }

  ghost predicate Rows(src: Source, parent: Links, orig: seq<Option<Layer>>, rows: seq<seq<Layer>>)
    requires src.Ok() && |orig| == |parent|
  {
    forall i {:trigger Row(src, parent, orig, Before(rows, i), rows[i], i)} :: 0 <= i < |rows| ==>
      Row(src, parent, orig, Before(rows, i), rows[i], i)
  }

  lemma RowExtends(src: Source, parent: Links, orig: seq<Option<Layer>>, prev: seq<Layer>, cur: seq<Layer>, i: nat,
                   parent': Links, orig': seq<Option<Layer>>)
    requires src.Ok() && |orig| == |parent| && Row(src, parent, orig, prev, cur, i)
    requires parent <= parent' && orig <= orig' && |orig'| == |parent'|
    ensures Row(src, parent', orig', prev, cur, i)
  {
    forall j | 0 <= j < |cur| ensures CopyOf(src, parent', orig', prev, cur, i, j) {
      assert CopyOf(src, parent, orig, prev, cur, i, j);
    }
  }

  lemma RowsExtend(src: Source, parent: Links, orig: seq<Option<Layer>>, rows: seq<seq<Layer>>, parent': Links,
                   orig': seq<Option<Layer>>)
    requires src.Ok() && |orig| == |parent| && Rows(src, parent, orig, rows)
    requires parent <= parent' && orig <= orig' && |orig'| == |parent'|
    ensures Rows(src, parent', orig', rows)
  {
    forall i | 0 <= i < |rows| ensures Row(src, parent', orig', Before(rows, i), rows[i], i) {
      assert Row(src, parent, orig, Before(rows, i), rows[i], i);
      RowExtends(src, parent, orig, Before(rows, i), rows[i], i, parent', orig');
    }
  }

  /** One more copy at the end of a row. */
  lemma RowGrows(src: Source, parent: Links, orig: seq<Option<Layer>>, prev: seq<Layer>, cur: seq<Layer>, i: nat,
                 id: Layer)
    requires src.Ok() && |orig| == |parent| && Row(src, parent, orig, prev, cur, i)
    requires |cur| < |src.layers| && CopyOf(src, parent, orig, prev, cur + [id], i, |cur|)
    ensures Row(src, parent, orig, prev, cur + [id], i)
  {
    var cur' := cur + [id];
    forall j | 0 <= j < |cur'| ensures CopyOf(src, parent, orig, prev, cur', i, j) {
      if j < |cur| {
        assert CopyOf(src, parent, orig, prev, cur, i, j);
        if src.layers[j] !in src.lin {
          var ps := src.parent[src.layers[j]];
          forall k | 0 <= k < |ps|
            ensures Pos(src.layers, ps[k]) < j && cur[Pos(src.layers, ps[k])] == cur'[Pos(src.layers, ps[k])]
          {
            EarlierParent(src, j, k);
          }
          assert Wired(src, prev, cur, i, j) == Wired(src, prev, cur', i, j);
        }
      }
    }
  }

  /** isInorig on a row finds the copy by the position of its original. */
  lemma RowFinds(src: Source, parent: Links, orig: seq<Option<Layer>>, prev: seq<Layer>, cur: seq<Layer>, i: nat,
                 j: nat, l: Layer)
    requires src.Ok() && |orig| == |parent| && Row(src, parent, orig, prev, cur, i) && j < |cur|
    ensures |src.parent| <= cur[j] < |parent|
    ensures orig[cur[j]] == Some(l) <==> src.layers[j] == l
    ensures src.layers[j] == l ==> Pos(src.layers, l) == j
  {
    assert CopyOf(src, parent, orig, prev, cur, i, j);
  }

  /** A row holds at most one copy of a layer. */
  lemma RowFindsOnly(src: Source, parent: Links, orig: seq<Option<Layer>>, prev: seq<Layer>, cur: seq<Layer>, i: nat,
                     l: Layer)
    requires src.Ok() && |orig| == |parent| && Row(src, parent, orig, prev, cur, i) && l in src.layers
    ensures forall m {:trigger cur[m]} :: 0 <= m < |cur| ==>
      |src.parent| <= cur[m] < |parent| && (orig[cur[m]] == Some(l) <==> m == Pos(src.layers, l))
    ensures Pos(src.layers, l) < |cur| ==> cur[Pos(src.layers, l)] < |orig|
    ensures Pos(src.layers, l) < |cur| ==> orig[cur[Pos(src.layers, l)]] == Some(l)
  {
    forall m | 0 <= m < |cur|
      ensures |src.parent| <= cur[m] < |parent| && (orig[cur[m]] == Some(l) <==> m == Pos(src.layers, l))
    {
      RowFinds(src, parent, orig, prev, cur, i, m, l);
    }
  }

  lemma RowIds(src: Source, parent: Links, orig: seq<Option<Layer>>, rows: seq<seq<Layer>>, i: nat)
    requires src.Ok() && |orig| == |parent| && Rows(src, parent, orig, rows) && i < |rows|
    ensures |rows[i]| <= |src.layers| && NoDup(rows[i])
    ensures forall j :: 0 <= j < |rows[i]| ==>
      |src.parent| <= rows[i][j] < |parent| && orig[rows[i][j]] == Some(src.layers[j])
        && Pos(src.layers, src.layers[j]) == j
  {
    var row := rows[i];
    assert Row(src, parent, orig, Before(rows, i), row, i);
    forall j | 0 <= j < |row|
      ensures |src.parent| <= row[j] < |parent| && orig[row[j]] == Some(src.layers[j])
        && Pos(src.layers, src.layers[j]) == j
    {
      assert CopyOf(src, parent, orig, Before(rows, i), row, i, j);
    }
    forall j | 0 <= j < |row| ensures Pos(row, row[j]) == j {
      var q := Pos(row, row[j]);
      assert orig[row[q]] == orig[row[j]];
    }
  }

  // ---------------------------------------------------------------- the layer objects

  /** Copies link only to copies, and each to older ones. */
  ghost predicate CopiesOlder(parent: Links, base: nat) {
    forall l, k :: base <= l < |parent| && 0 <= k < |parent[l]| ==> base <= parent[l][k] < l
  }

  lemma LinkAdded(parent: Links, child: Links, p: Layer, c: Layer)
    requires Mirrored(parent, child) && p < |parent| && c < |parent|
    ensures Mirrored(parent[c := parent[c] + [p]], child[p := child[p] + [c]])
  {
    var up, down := parent[c := parent[c] + [p]], child[p := child[p] + [c]];
    forall x, y | 0 <= x < |up| && 0 <= y < |up| ensures multiset(down[x])[y] == multiset(up[y])[x] {
      var one := if x == p && y == c then 1 else 0;
      assert multiset(down[x])[y] == multiset(child[x])[y] + one;
      assert multiset(up[y])[x] == multiset(parent[y])[x] + one;
    }
  }

  class Arena {
    var parent: Links
    var child: Links
    var orig: seq<Option<Layer>>
    var recurrent: seq<bool>

    ghost predicate Ok()
      reads this
    {
      Mirrored(parent, child) && |parent| == |orig| == |recurrent|
    }

    constructor (parent: Links, child: Links, recurrent: seq<bool>)
      requires Mirrored(parent, child) && |recurrent| == |parent|
      ensures Ok() && this.parent == parent && this.child == child && this.recurrent == recurrent
    {
      this.parent, this.child, this.recurrent := parent, child, recurrent;
      orig := seq(|parent|, _ => None);
    }

    /** A copy of layer l with parents par; it is linked both ways. */
    method Share(l: Layer, par: seq<Layer>) returns (n: Layer)
      requires Ok() && l < |parent| && forall k :: 0 <= k < |par| ==> par[k] < |parent|
      modifies this
      ensures Ok() && n == old(|parent|)
      ensures parent == old(parent) + [par]
      ensures orig == old(orig) + [Some(l)]
      ensures recurrent == old(recurrent) + [old(recurrent)[l]]
    {
      n := |parent|;
      parent, child := parent + [[]], child + [[]];
      orig, recurrent := orig + [Some(l)], recurrent + [recurrent[l]];
      for k := 0 to |par|
        invariant orig == old(orig) + [Some(l)] && recurrent == old(recurrent) + [old(recurrent)[l]]
        invariant parent == old(parent) + [par[..k]]
        invariant Mirrored(parent, child)
      {
        AddLink(par[k], n);
        TakeOneMore(par, k);
      }
      TakeAll(par);
    }

    /** p->addchild(c); c->addparent(p). */
    method AddLink(p: Layer, c: Layer)
      requires Mirrored(parent, child) && p < |parent| && c < |parent|
      modifies this`parent, this`child
      ensures Mirrored(parent, child)
      ensures parent == old(parent)[c := old(parent)[c] + [p]]
    {
      child := child[p := child[p] + [c]];
      parent := parent[c := parent[c] + [p]];
      LinkAdded(old(parent), old(child), p, c);
    }

    /** isInorig. */
    method FindOrig(l: Layer, vl: seq<Layer>) returns (found: bool, ind: nat)
      requires forall i :: 0 <= i < |vl| ==> vl[i] < |orig|
      ensures found ==> ind < |vl| && orig[vl[ind]] == Some(l)
      ensures !found ==> forall i :: 0 <= i < |vl| ==> orig[vl[i]] != Some(l)
    {
      for i := 0 to |vl|
        invariant forall m :: 0 <= m < i ==> orig[vl[m]] != Some(l)
      {
        if orig[vl[i]] == Some(l) { return true, i; }
      }
      return false, 0;
    }

    /** Follows child links from l; `stack` is the chain of calls that led here. */
    method CheckRnnForward(l: Layer, ghost stack: seq<Layer>) returns (frnn: bool)
      requires Ok() && l < |child| && Acyclic(child, UpTo(|child|))
      requires Path(child, stack) && stack[|stack| - 1] == l
      ensures frnn <==> RnnAhead(child, recurrent, l)
      decreases |child| - |stack|
    {
      frnn := false;
      for i := 0 to |child[l]|
        invariant !frnn
        invariant forall m {:trigger Leads(child, recurrent, child[l][m])} :: 0 <= m < i ==>
          !Leads(child, recurrent, child[l][m])
      {
        var c := child[l][i];
        DeeperPath(child, stack, c);
        if recurrent[c] {
          frnn := true;
        } else {
          frnn := CheckRnnForward(c, stack + [c]);
        }
        if frnn {
          AheadOfChild(child, recurrent, l, c);
          break;
        }
      }
      if !frnn && RnnAhead(child, recurrent, l) {
        var i := AheadByChild(child, recurrent, l);
      }
    }

    /** isrecurrent or check_rnn_forward. */
    method LeadsToRnn(l: Layer) returns (ahead: bool)
      requires Ok() && Acyclic(child, UpTo(|child|)) && l < |child|
      ensures ahead == Leads(child, recurrent, l)
    {
      ahead := true;
      if !recurrent[l] { ahead := CheckRnnForward(l, [l]); }
    }

    method MarkFrnn(ls: seq<Layer>) returns (frnn: seq<bool>)
      requires Ok() && Acyclic(child, UpTo(|child|)) && Valid(ls, child)
      ensures |frnn| == |ls|
      ensures forall j {:trigger frnn[j]} :: 0 <= j < |ls| ==> frnn[j] == Leads(child, recurrent, ls[j])
    {
      frnn := [];
      for j := 0 to |ls|
        invariant |frnn| == j
        invariant forall m {:trigger frnn[m]} :: 0 <= m < j ==> frnn[m] == Leads(child, recurrent, ls[m])
      {
        var ahead := LeadsToRnn(ls[j]);
        frnn := frnn + [ahead];
      }
    }

    /** The layers whose mark is `want`, in order. */
    method KeepMarked(vfts: seq<Layer>, frnn: seq<bool>, want: bool) returns (kept: seq<Layer>)
      requires Ok() && Valid(vfts, child) && |frnn| == |vfts|
      requires forall j {:trigger frnn[j]} :: 0 <= j < |vfts| ==> frnn[j] == Leads(child, recurrent, vfts[j])
      ensures kept == Keep(child, recurrent, vfts, want)
    {
      kept := [];
      for j := 0 to |vfts|
        invariant kept == Keep(child, recurrent, vfts[..j], want)
      {
        KeepStep(child, recurrent, vfts, j, want);
        if frnn[j] == want { kept := kept + [vfts[j]]; }
      }
      TakeAll(vfts);
    }

    /** Layers in forward order, those that lead to a recurrent layer first. */
    method SortFrnnFirst(vfts: seq<Layer>) returns (layers: seq<Layer>)
      requires Ok() && Acyclic(child, UpTo(|child|)) && Valid(vfts, child)
      ensures layers == FrnnOrder(child, recurrent, vfts)
    {
      var frnn := MarkFrnn(vfts);
      layers := KeepMarked(vfts, frnn, true);
      var rest := KeepMarked(vfts, frnn, false);
      layers := layers + rest;
    }

    /** Copies of the parents of l in the row, in l's order; fails if one has no copy. */
    method CopiesOfParents(ghost src: Source, ghost prev: seq<Layer>, cur: seq<Layer>, ghost i: nat, l: Layer)
      returns (ok: bool, par: seq<Layer>)
      requires Ok() && src.Ok() && src.Aligned() && |src.parent| <= |parent| && src.parent == parent[..|src.parent|]
      requires |cur| < |src.layers| && l == src.layers[|cur|] && l !in src.lin
      requires Row(src, parent, orig, prev, cur, i)
      ensures ok <==> AllIn(src.parent[l], src.layers)
      ensures ok ==> |par| == |src.parent[l]| && forall k {:trigger par[k]} :: 0 <= k < |par| ==>
        Pos(src.layers, src.parent[l][k]) < |cur| && par[k] == cur[Pos(src.layers, src.parent[l][k])]
    {
      par := [];
      assert parent[l] == src.parent[l];
      for k := 0 to |parent[l]|
        invariant |par| == k && AllIn(src.parent[l][..k], src.layers)
        invariant forall m {:trigger par[m]} :: 0 <= m < k ==>
          src.parent[l][m] in src.layers && Pos(src.layers, src.parent[l][m]) < |cur|
          && par[m] == cur[Pos(src.layers, src.parent[l][m])]
      {
        var p := parent[l][k];
        forall j | 0 <= j < |cur|
          ensures cur[j] < |orig| && (orig[cur[j]] == Some(p) <==> src.layers[j] == p)
          ensures src.layers[j] == p ==> Pos(src.layers, p) == j
        {
          RowFinds(src, parent, orig, prev, cur, i, j, p);
        }
        if p in src.layers { EarlierParent(src, |cur|, k); }
        var found, ind := FindOrig(p, cur);
        if !found {
          assert p !in src.layers;
          assert src.parent[l][k] == p;
          return false, par;
        }
        par := par + [cur[ind]];
        TakeOneMore(src.parent[l], k);
      }
      TakeAll(src.parent[l]);
      ok := true;
    }

    /** The original layers are still those of src; everything newer is a copy. */
    ghost predicate Grown(src: Source)
      reads this
    {
      && Ok() && src.Ok() && src.Aligned()
      && src.parent <= parent && src.recurrent <= recurrent
      && CopiesOlder(parent, |src.parent|)
      && forall l {:trigger orig[l]} :: |src.parent| <= l < |orig| && orig[l].Some? ==> orig[l].value < |src.parent|
    }

    ghost predicate Copies(src: Source, ids: seq<Layer>)
      reads this
    {
      forall k :: 0 <= k < |ids| ==> |src.parent| <= ids[k] < |parent|
    }

    /** Appends to the row the copy of the next layer, given its parents. */
    method AddCopy(ghost src: Source, l: Layer, par: seq<Layer>, ghost prev: seq<Layer>, cur: seq<Layer>, ghost i: nat)
      returns (row: seq<Layer>)
      requires Grown(src) && Row(src, parent, orig, prev, cur, i)
      requires |cur| < |src.layers| && l == src.layers[|cur|] && Copies(src, par)
      requires if l in src.lin then par == []
               else && AllIn(src.parent[l], src.layers) && (i > 0 && src.recurrent[l] ==> Back(src, |cur|) < |prev|)
                    && par == Wired(src, prev, cur, i, |cur|)
      modifies this
      ensures Grown(src) && Row(src, parent, orig, prev, row, i)
      ensures old(parent) <= parent && old(orig) <= orig && row == cur + [|old(parent)|]
    {
      var n := Share(l, par);
      row := cur + [n];
      RowExtends(src, old(parent), old(orig), prev, cur, i, parent, orig);
      if l !in src.lin {
        var ps := src.parent[l];
        forall k | 0 <= k < |ps|
          ensures Pos(src.layers, ps[k]) < |cur| && cur[Pos(src.layers, ps[k])] == row[Pos(src.layers, ps[k])]
        {
          EarlierParent(src, |cur|, k);
        }
        assert Wired(src, prev, cur, i, |cur|) == Wired(src, prev, row, i, |cur|);
      }
      RowGrows(src, parent, orig, prev, cur, i, n);
    }

    /** Copies layer j into the row unless it is an input, whose copy the row has already. */
    method PlaceLayer(ghost src: Source, layers: seq<Layer>, i: nat, j: nat, prev: seq<Layer>, cur: seq<Layer>)
      returns (ok: bool, row: seq<Layer>)
      requires Grown(src) && LaidFrom(src, layers) && Row(src, parent, orig, prev, cur, i)
      requires j < |layers| && |cur| == Width(layers, src.lin, j) && Copies(src, prev)
      requires i > 0 && NeedsPast(src, layers, j) ==> j < |prev|
      modifies this
      ensures Grown(src) && old(parent) <= parent && old(orig) <= orig
      ensures ok <==> ParentsInside(src, layers, j)
      ensures ok ==> Row(src, parent, orig, prev, row, i)
      ensures ok ==> row == if layers[j] in src.lin then cur else cur + [|old(parent)|]
    {
      row := cur;
      PlaceOf(src, layers, j);
      RowFindsOnly(src, parent, orig, prev, cur, i, layers[j]);
      ghost var q := Pos(src.layers, layers[j]);
      var found, ind := FindOrig(layers[j], cur);
      ok := true;
      if !found {
        var par;
        ok, par := CopiesOfParents(src, prev, cur, i, layers[j]);
        if !ok { return; }
        if recurrent[layers[j]] && i > 0 { par := par + [prev[j]]; }
        WiredIs(src, prev, cur, i, q, par);
        row := AddCopy(src, layers[j], par, prev, cur, i);
      }
    }

    /** Starts row i with copies of the inputs. */
    method UnrollInputs(ghost src: Source, lin: seq<Layer>, ghost i: nat, ghost prev: seq<Layer>)
      returns (cur: seq<Layer>)
      requires Grown(src) && lin == src.lin
      modifies this
      ensures Grown(src) && old(parent) <= parent && old(orig) <= orig
      ensures |cur| == |lin| && Row(src, parent, orig, prev, cur, i)
      ensures forall m :: 0 <= m < |cur| ==> |old(parent)| <= cur[m]
    {
      cur := [];
      for j := 0 to |lin|
        invariant Grown(src) && old(parent) <= parent && old(orig) <= orig
        invariant |cur| == j && Row(src, parent, orig, prev, cur, i)
        invariant forall m :: 0 <= m < |cur| ==> |old(parent)| <= cur[m]
      {
        cur := AddCopy(src, lin[j], [], prev, cur, i);
      }
    }

    /** What the first j rounds of a row's loop have done. */
    ghost predicate RowSoFar(src: Source, layers: seq<Layer>, cur: seq<Layer>, prev: seq<Layer>, i: nat, first: nat,
                             j: nat)
      requires j <= |layers|
      reads this
    {
      && Grown(src) && Row(src, parent, orig, prev, cur, i)
      && |cur| == Width(layers, src.lin, j) && Copies(src, prev)
      && (forall m {:trigger cur[m]} :: 0 <= m < |cur| ==> first <= cur[m])
      && (forall m {:trigger ParentsInside(src, layers, m)} :: 0 <= m < j ==> ParentsInside(src, layers, m))
    }

    /** One round of a row's loop, for an active layer. */
    method RowRound(ghost src: Source, layers: seq<Layer>, i: nat, ghost first: nat, j: nat, prev: seq<Layer>,
                    cur: seq<Layer>)
      returns (ok: bool, row: seq<Layer>)
      requires LaidFrom(src, layers) && j < |layers| && RowSoFar(src, layers, cur, prev, i, first, j)
      requires first <= |parent|
      requires i > 0 && NeedsPast(src, layers, j) ==> j < |prev|
      modifies this
      ensures Grown(src) && old(parent) <= parent && old(orig) <= orig
      ensures !ok ==> !ParentsInside(src, layers, j)
      ensures ok ==> RowSoFar(src, layers, row, prev, i, first, j + 1)
    {
      ok, row := PlaceLayer(src, layers, i, j, prev, cur);
      if ok {
        SiftStep(layers, src.lin, false, j);
        assert |row| == Width(layers, src.lin, j + 1);
        assert Copies(src, prev) by {
          forall k | 0 <= k < |prev| ensures |src.parent| <= prev[k] < |parent| {
          }
        }
        forall m | 0 <= m < |row| ensures first <= row[m] {
          if m < |cur| { assert row[m] == cur[m]; }
        }
      }
    }

    /** The active layers are the first ones. */
    ghost predicate Flagged(frnn: seq<bool>, all: bool, active: nat) {
      forall j {:trigger frnn[j]} :: 0 <= j < |frnn| ==> ((all || frnn[j]) <==> j < active)
    }

    lemma FlagIs(frnn: seq<bool>, all: bool, active: nat, j: nat)
      requires Flagged(frnn, all, active) && j < |frnn|
      ensures (all || frnn[j]) <==> j < active
    {
    }

    /** Row i of the unrolling: the inputs, then every layer that is active at this step (all of
        them when `all`, else those marked), each linked to copies of its parents. */
    method UnrollRow(ghost src: Source, layers: seq<Layer>, lin: seq<Layer>, frnn: seq<bool>, all: bool, i: nat,
                     prev: seq<Layer>, ghost active: nat) returns (ok: bool, cur: seq<Layer>)
      requires Grown(src) && LaidFrom(src, layers) && lin == src.lin
      requires |frnn| == |layers| && active <= |layers|
      requires Flagged(frnn, all, active)
      requires Copies(src, prev)
      requires forall j {:trigger NeedsPast(src, layers, j)} ::
        0 <= j < active && i > 0 && NeedsPast(src, layers, j) ==> j < |prev|
      modifies this
      ensures Grown(src) && old(parent) <= parent && old(orig) <= orig
      ensures !ok ==>
        exists j {:trigger ParentsInside(src, layers, j)} :: 0 <= j < active && !ParentsInside(src, layers, j)
      ensures ok ==> RowSoFar(src, layers, cur, prev, i, |old(parent)|, active)
    {
      cur := UnrollInputs(src, lin, i, prev);
      assert layers[..0] == [];
      for j := 0 to |layers|
        invariant old(parent) <= parent && old(orig) <= orig
        invariant RowSoFar(src, layers, cur, prev, i, |old(parent)|, if j <= active then j else active)
      {
        FlagIs(frnn, all, active, j);
        if all || frnn[j] {
          ok, cur := RowRound(src, layers, i, |old(parent)|, j, prev, cur);
          if !ok { return; }
        }
      }
      ok := true;
    }

    /** Copies of the outputs found in a row. */
    method CopiesOfOutputs(ghost src: Source, ghost prev: seq<Layer>, cur: seq<Layer>, ghost i: nat, lout: seq<Layer>)
      returns (outs: seq<Layer>)
      requires Grown(src) && Row(src, parent, orig, prev, cur, i) && |cur| == |src.layers| && AllIn(lout, src.layers)
      ensures |outs| == |lout| && forall k {:trigger outs[k]} :: 0 <= k < |lout| ==>
        outs[k] == cur[Pos(src.layers, lout[k])]
    {
      outs := [];
      for k := 0 to |lout|
        invariant |outs| == k && forall m {:trigger outs[m]} :: 0 <= m < k ==> outs[m] == cur[Pos(src.layers, lout[m])]
      {
        forall j | 0 <= j < |cur|
          ensures cur[j] < |orig| && (orig[cur[j]] == Some(lout[k]) <==> j == Pos(src.layers, lout[k]))
        {
          RowFinds(src, parent, orig, prev, cur, i, j, lout[k]);
        }
        var found, ind := FindOrig(lout[k], cur);
        assert orig[cur[Pos(src.layers, lout[k])]] == Some(lout[k]);
        if found { outs := outs + [cur[ind]]; }
      }
    }

    /** The rows made so far are aligned and share no copy. */
    ghost predicate Stacked(src: Source, rows: seq<seq<Layer>>)
      reads this
    {
      Grown(src) && Rows(src, parent, orig, rows) && Spread(rows)
    }

    /** The next row, wired to the last one. */
    method NextRow(ghost src: Source, layers: seq<Layer>, lin: seq<Layer>, frnn: seq<bool>, all: bool, ghost nf: nat,
                   nlayers: seq<seq<Layer>>) returns (ok: bool, cur: seq<Layer>)
      requires Stacked(src, nlayers) && Marked(src, layers, frnn, nf) && lin == src.lin
      requires nlayers != [] ==> |nlayers[|nlayers| - 1]| >= Width(layers, lin, nf)
      modifies this
      ensures Grown(src)
      ensures !ok ==> !src.Complete()
      ensures ok ==> Stacked(src, nlayers + [cur])
      ensures ok ==> |cur| == Width(layers, lin, if all then |layers| else nf)
      ensures ok && all ==> src.Complete()
    {
      var i := |nlayers|;
      var prev := if i == 0 then [] else nlayers[i - 1];
      ghost var parent0, orig0 := parent, orig;
      ghost var active := if all then |layers| else nf;
      if i > 0 {
        RowIds(src, parent, orig, nlayers, i - 1);
        PastInReach(src, layers, nf, prev);
      }
      CompleteInOrder(src, layers);
      ok, cur := UnrollRow(src, layers, lin, frnn, all, i, prev, active);
      if ok {
        RowsGrow(src, parent0, orig0, nlayers, cur, parent, orig);
        SpreadGrows(src, parent0, orig0, nlayers, cur);
      }
    }

    /** One step of unroll_enc: a new row with its inputs and, late enough, its outputs. */
    method UnrollStep(ghost src: Source, layers: seq<Layer>, lin: seq<Layer>, lout: seq<Layer>, frnn: seq<bool>,
                      from: int, ghost nf: nat, nlayers: seq<seq<Layer>>, nin: seq<seq<Layer>>, nout: seq<seq<Layer>>)
      returns (ok: bool, nlayers': seq<seq<Layer>>, nin': seq<seq<Layer>>, nout': seq<seq<Layer>>)
      requires Stacked(src, nlayers) && Marked(src, layers, frnn, nf) && lin == src.lin && AllIn(lout, src.layers)
      requires Listed(src, nlayers, nin, nout, lout, from, Width(layers, lin, nf))
      modifies this
      ensures Grown(src)
      ensures !ok ==> !src.Complete()
      ensures ok && |nlayers| >= from ==> src.Complete()
      ensures ok ==> |nlayers'| == |nlayers| + 1 && Stacked(src, nlayers')
      ensures ok ==> Listed(src, nlayers', nin', nout', lout, from, Width(layers, lin, nf))
    {
      nlayers', nin', nout' := nlayers, nin, nout;
      var all := |nlayers| >= from;
      var cur;
      ok, cur := NextRow(src, layers, lin, frnn, all, nf, nlayers);
      if !ok { return; }
      nlayers' := nlayers + [cur];
      WidthGrows(layers, lin, nf, |layers|);
      WidthOfAll(layers, lin);
      var outs := [];
      if all {
        assert Row(src, parent, orig, Before(nlayers', |nlayers|), nlayers'[|nlayers|], |nlayers|);
        outs := CopiesOfOutputs(src, Before(nlayers', |nlayers|), cur, |nlayers|, lout);
      }
      nin', nout' := nin + [cur[..|lin|]], nout + [outs];
      ListedGrows(src, nlayers, nin, nout, lout, from, Width(layers, lin, nf), cur, outs);
    }

    /** unroll_enc up to the construction of the new net: one row of copies per input step, with
        outputs taken from the last outl steps.  False stands for the thrown "Unexpected error". */
    method UnrollEnc(vfts: seq<Layer>, lin: seq<Layer>, lout: seq<Layer>, inl: nat, outl: nat)
      returns (ok: bool, nin: seq<seq<Layer>>, nout: seq<seq<Layer>>, ghost src: Source, ghost rows: seq<seq<Layer>>)
      requires Ok() && CanUnroll(parent, child, recurrent, vfts, lin, lout)
      requires inl >= 1 && outl >= 1
      modifies this
      ensures src.parent == old(parent) && src.recurrent == old(recurrent) && src.lin == lin
      ensures LaidFrom(src, FrnnOrder(old(child), old(recurrent), vfts))
      ensures Grown(src)
      ensures ok <==> src.Complete()
      ensures ok ==> |rows| == inl && Rows(src, parent, orig, rows) && Spread(rows)
      ensures ok ==> Listed(src, rows, nin, nout, lout, inl - outl, 0)
    {
      FrnnOrderIsForward(parent, child, recurrent, vfts);
      var layers := SortFrnnFirst(vfts);
      var frnn := MarkFrnn(layers);
      src := Unrolled(parent, recurrent, layers, lin);
      ghost var nf := |Keep(child, recurrent, vfts, true)|;
      MarksSplit(parent, child, recurrent, vfts, lin, frnn);
      var nlayers: seq<seq<Layer>> := [];
      nin, nout := [], [];
      for i := 0 to inl
        invariant |nlayers| == i && Stacked(src, nlayers) && Marked(src, layers, frnn, nf)
        invariant Listed(src, nlayers, nin, nout, lout, inl - outl, Width(layers, lin, nf))
        invariant i == inl ==> src.Complete()
      {
        ok, nlayers, nin, nout := UnrollStep(src, layers, lin, lout, frnn, inl - outl, nf, nlayers, nin, nout);
        if !ok { rows := nlayers; return; }
      }
      rows := nlayers;
      ok := true;
    }
  }

  /** What unroll_enc asks of a net: a forward order of acyclic layers, with its inputs and outputs among
      them. */
  ghost predicate CanUnroll(parent: Links, child: Links, recurrent: seq<bool>, vfts: seq<Layer>, lin: seq<Layer>,
                            lout: seq<Layer>) {
    && |recurrent| == |child| && Acyclic(child, UpTo(|child|))
    && Valid(vfts, child) && ParentsFirst(parent, vfts, vfts)
    && NoDup(lin) && AllIn(lin, vfts) && AllIn(lout, vfts)
  }

  // ---------------------------------------------------------------- rows and the order of layers

  /** What layer l takes from the step before, by the code's lookup: the layer whose copy stands, in a
      row, at the place of l among the layers. */
  ghost function Linked(n: nat, layers: seq<Layer>, lin: seq<Layer>): (past: seq<Layer>)
    ensures |past| == n
    ensures forall l {:trigger past[l]} :: 0 <= l < n && l in layers && |Laid(layers, lin)| == |layers| ==>
      past[l] == Laid(layers, lin)[Pos(layers, l)]
  {
    var laid := Laid(layers, lin);
    seq(n, l requires 0 <= l < n => if l in layers && Pos(layers, l) < |laid| then laid[Pos(layers, l)] else l)
  }

  /** The net as it is unrolled from its reordered layers. */
  ghost function Unrolled(parent: Links, recurrent: seq<bool>, layers: seq<Layer>, lin: seq<Layer>): Source
    requires NoDup(layers) && NoDup(lin) && AllIn(lin, layers)
  {
    LaidMembers(layers, lin);
    Source(parent, recurrent, Laid(layers, lin), lin, Linked(|parent|, layers, lin))
  }

  ghost predicate LaidFrom(src: Source, layers: seq<Layer>) {
    && src.Ok() && NoDup(layers) && AllIn(src.lin, layers) && src.layers == Laid(layers, src.lin)
    && |src.layers| == |layers| && (forall x :: x in src.layers <==> x in layers)
    && src.past == Linked(|src.parent|, layers, src.lin)
  }

  /** The code links every recurrent layer to its own previous copy exactly when all of them come after
      the inputs. */
  lemma OwnPastIff(src: Source, layers: seq<Layer>)
    requires LaidFrom(src, layers)
    ensures src.OwnPast() <==> Timely(layers, src.recurrent, src.lin)
  {
    forall j | 0 <= j < |layers| && layers[j] < |src.recurrent| && src.recurrent[layers[j]] && layers[j] !in src.lin
      ensures src.Remembers(layers[j]) && (src.past[layers[j]] == layers[j] <==> AllIn(src.lin, layers[..j]))
    {
      LookupIsOwn(layers, src.lin, j);
      assert Pos(layers, layers[j]) == j;
    }
    if Timely(layers, src.recurrent, src.lin) {
      forall l: Layer | src.Remembers(l) ensures src.past[l] == l {
        assert layers[Pos(layers, l)] == l;
      }
    }
  }

  /** The first nf layers are the marked ones, and every recurrent layer is among them. */
  ghost predicate Marked(src: Source, layers: seq<Layer>, frnn: seq<bool>, nf: nat) {
    && LaidFrom(src, layers) && src.Aligned()
    && |frnn| == |layers| && nf <= |layers|
    && (forall j {:trigger frnn[j]} :: 0 <= j < |layers| ==> (frnn[j] <==> j < nf))
    && (forall j {:trigger NeedsPast(src, layers, j)} :: 0 <= j < |layers| && NeedsPast(src, layers, j) ==> j < nf)
  }

  lemma MarksSplit(parent: Links, child: Links, recurrent: seq<bool>, vfts: seq<Layer>, lin: seq<Layer>,
                   frnn: seq<bool>)
    requires Mirrored(parent, child) && |recurrent| == |child| && Valid(vfts, child) && ParentsFirst(parent, vfts, vfts)
    requires NoDup(lin) && AllIn(lin, vfts) && AllIn(lin, FrnnOrder(child, recurrent, vfts))
    requires NoDup(FrnnOrder(child, recurrent, vfts))
    requires var layers := FrnnOrder(child, recurrent, vfts);
      |frnn| == |layers| && forall j {:trigger frnn[j]} :: 0 <= j < |layers| && layers[j] < |child| ==>
        frnn[j] == Leads(child, recurrent, layers[j])
    ensures var layers := FrnnOrder(child, recurrent, vfts);
      Marked(Unrolled(parent, recurrent, layers, lin), layers, frnn, |Keep(child, recurrent, vfts, true)|)
  {
    var layers := FrnnOrder(child, recurrent, vfts);
    var src := Unrolled(parent, recurrent, layers, lin);
    FrnnOrderIsForward(parent, child, recurrent, vfts);
    FrnnPrefix(child, recurrent, vfts);
    LaidIsOrdered(parent, recurrent, layers, lin);
    forall j | 0 <= j < |layers| && NeedsPast(src, layers, j) ensures j < |Keep(child, recurrent, vfts, true)| {
      assert layers[j] < |child| && Leads(child, recurrent, layers[j]);
    }
  }

  /** How many copies a row holds after the first j layers. */
  function Width(layers: seq<Layer>, lin: seq<Layer>, j: nat): nat
    requires j <= |layers|
  {
    |lin| + |Sift(layers[..j], lin, false)|
  }

  ghost predicate NeedsPast(src: Source, layers: seq<Layer>, j: nat)
    requires j < |layers|
  {
    layers[j] < |src.recurrent| && src.recurrent[layers[j]] && layers[j] !in src.lin
  }

  ghost predicate ParentsInside(src: Source, layers: seq<Layer>, j: nat)
    requires j < |layers|
  {
    layers[j] in src.lin || (layers[j] < |src.parent| && AllIn(src.parent[layers[j]], src.layers))
  }

  lemma LaidIsOrdered(parent: Links, recurrent: seq<bool>, layers: seq<Layer>, lin: seq<Layer>)
    requires |recurrent| == |parent| && Valid(layers, parent) && ParentsFirst(parent, layers, layers)
    requires NoDup(lin) && AllIn(lin, layers)
    ensures var src := Unrolled(parent, recurrent, layers, lin);
      LaidFrom(src, layers) && src.Aligned()
  {
    var laid := Laid(layers, lin);
    LaidMembers(layers, lin);
    forall i | 0 <= i < |laid| ensures laid[i] < |parent| {
      assert laid[i] in layers;
    }
    forall i, k | 0 <= i < |laid| && laid[i] !in lin && 0 <= k < |parent[laid[i]]| && parent[laid[i]][k] in laid
      ensures parent[laid[i]][k] in laid[..i]
    {
      ParentLaidBefore(parent, layers, lin, i, parent[laid[i]][k]);
    }
  }

  lemma ParentLaidBefore(parent: Links, layers: seq<Layer>, lin: seq<Layer>, i: nat, p: Layer)
    requires Valid(layers, parent) && ParentsFirst(parent, layers, layers) && NoDup(lin) && AllIn(lin, layers)
    requires i < |Laid(layers, lin)| && Laid(layers, lin)[i] !in lin && Laid(layers, lin)[i] < |parent|
    requires p in parent[Laid(layers, lin)[i]] && p in layers
    ensures p in Laid(layers, lin)[..i]
  {
    var laid, rest := Laid(layers, lin), Sift(layers, lin, false);
    forall m | 0 <= m < |lin| ensures laid[m] in lin {
    }
    var m := SiftFrom(layers, lin, false, i - |lin|);
    assert layers[m] == laid[i];
    var k := Pos(parent[layers[m]], p);
    assert parent[layers[m]][k] in layers[..m];
    if p in lin {
      assert laid[..i][Pos(lin, p)] == p;
    } else {
      SiftMember(layers[..m], lin, false, p);
      SiftAt(layers, lin, false, m);
      var before := Sift(layers[..m], lin, false);
      assert laid[..i][|lin| + Pos(before, p)] == p;
    }
  }

  /** Where a layer stands in a row: inputs by their number, the others after the first j layers. */
  lemma PlaceOf(src: Source, layers: seq<Layer>, j: nat)
    requires LaidFrom(src, layers) && j < |layers|
    ensures layers[j] in src.layers && layers[j] < |src.parent|
    ensures layers[j] in src.lin ==> Pos(src.layers, layers[j]) < |src.lin|
    ensures layers[j] !in src.lin ==> Pos(src.layers, layers[j]) == Width(layers, src.lin, j)
    ensures Back(src, Pos(src.layers, layers[j])) == j
  {
    assert Pos(layers, layers[j]) == j && Pos(src.layers, src.layers[j]) == j;
    assert src.layers[Pos(src.layers, layers[j])] == layers[j];
    if layers[j] in src.lin {
      var q := Pos(src.lin, layers[j]);
      assert src.layers[q] == layers[j] && Pos(src.layers, src.layers[q]) == q;
    } else {
      LookupIsOwn(layers, src.lin, j);
    }
  }

  lemma WidthGrows(layers: seq<Layer>, lin: seq<Layer>, j: nat, n: nat)
    requires j <= n <= |layers|
    ensures Width(layers, lin, j) <= Width(layers, lin, n)
    ensures j < n && layers[j] !in lin ==> Width(layers, lin, j) < Width(layers, lin, n)
  {
    if j < n {
      SiftAt(layers[..n], lin, false, j);
      assert layers[..n][..j] == layers[..j];
    }
  }

  lemma WidthOfAll(layers: seq<Layer>, lin: seq<Layer>)
    requires NoDup(layers) && NoDup(lin) && AllIn(lin, layers)
    ensures Width(layers, lin, |layers|) == |layers|
  {
    TakeAll(layers);
    SiftCounts(layers, lin);
  }

  /** A row with the marked layers is wide enough for the lookups of the next one. */
  lemma PastInReach(src: Source, layers: seq<Layer>, nf: nat, prev: seq<Layer>)
    requires LaidFrom(src, layers) && nf <= |layers| && |prev| >= Width(layers, src.lin, nf)
    requires forall j {:trigger NeedsPast(src, layers, j)} :: 0 <= j < |layers| && NeedsPast(src, layers, j) ==> j < nf
    ensures forall j {:trigger NeedsPast(src, layers, j)} :: 0 <= j < |layers| && NeedsPast(src, layers, j) ==>
      j < |prev|
  {
    PrefixDistinct(layers, nf);
    SiftCounts(layers[..nf], src.lin);
  }

  lemma CompleteInOrder(src: Source, layers: seq<Layer>)
    requires LaidFrom(src, layers)
    ensures src.Complete() <==> forall j {:trigger ParentsInside(src, layers, j)} :: 0 <= j < |layers| ==>
      ParentsInside(src, layers, j)
  {
    forall j | 0 <= j < |layers| && src.Complete() ensures ParentsInside(src, layers, j) {
      PlaceOf(src, layers, j);
      assert src.layers[Pos(src.layers, layers[j])] == layers[j];
    }
    if forall j {:trigger ParentsInside(src, layers, j)} :: 0 <= j < |layers| ==> ParentsInside(src, layers, j) {
      forall m | 0 <= m < |src.layers| && src.layers[m] !in src.lin
        ensures AllIn(src.parent[src.layers[m]], src.layers)
      {
        assert src.layers[m] in layers;
        assert ParentsInside(src, layers, Pos(layers, src.layers[m]));
      }
    }
  }

  /** What nin and nout list for each row; every row has at least nf entries. */
  ghost predicate Listed(src: Source, rows: seq<seq<Layer>>, nin: seq<seq<Layer>>, nout: seq<seq<Layer>>,
                         lout: seq<Layer>, from: int, nf: nat) {
    && |nin| == |nout| == |rows|
    && forall i {:trigger rows[i]} {:trigger nin[i]} {:trigger nout[i]} :: 0 <= i < |rows| ==>
         && |rows[i]| >= nf && |rows[i]| >= |src.lin| && nin[i] == rows[i][..|src.lin|]
         && if i >= from then IsOutRow(src, rows[i], lout, nout[i]) else nout[i] == []
  }

  ghost predicate Below(a: seq<Layer>, b: seq<Layer>) {
    forall i, j :: 0 <= i < |a| && 0 <= j < |b| ==> a[i] < b[j]
  }

  /** Rows share no copies: each is newer than the one before. */
  ghost predicate Spread(rows: seq<seq<Layer>>) {
    forall i, k {:trigger Below(rows[i], rows[k])} :: 0 <= i < k < |rows| ==> Below(rows[i], rows[k])
  }

  lemma SpreadGrows(src: Source, parent: Links, orig: seq<Option<Layer>>, rows: seq<seq<Layer>>, cur: seq<Layer>)
    requires src.Ok() && |orig| == |parent| && Rows(src, parent, orig, rows) && Spread(rows)
    requires forall m :: 0 <= m < |cur| ==> |parent| <= cur[m]
    ensures Spread(rows + [cur])
  {
    var rows' := rows + [cur];
    forall i, k | 0 <= i < k < |rows'| ensures Below(rows'[i], rows'[k]) {
      if k == |rows| {
        RowIds(src, parent, orig, rows, i);
      } else {
        assert Below(rows[i], rows[k]);
      }
    }
  }

  lemma ListedGrows(src: Source, rows: seq<seq<Layer>>, nin: seq<seq<Layer>>, nout: seq<seq<Layer>>, lout: seq<Layer>,
                    from: int, nf: nat, cur: seq<Layer>, outs: seq<Layer>)
    requires Listed(src, rows, nin, nout, lout, from, nf)
    requires |cur| >= nf && |cur| >= |src.lin|
    requires if |rows| >= from then IsOutRow(src, cur, lout, outs) else outs == []
    ensures Listed(src, rows + [cur], nin + [cur[..|src.lin|]], nout + [outs], lout, from, nf)
  {
  }

  /** The row's copies of the output layers, in the outputs' order. */
  ghost predicate IsOutRow(src: Source, row: seq<Layer>, lout: seq<Layer>, outs: seq<Layer>) {
    && |outs| == |lout| && |row| == |src.layers|
    && forall k {:trigger outs[k]} :: 0 <= k < |lout| ==>
        lout[k] in src.layers && outs[k] == row[Pos(src.layers, lout[k])]
  }

  lemma FrnnPrefix(child: Links, recurrent: seq<bool>, s: seq<Layer>)
    requires |recurrent| == |child| && forall i :: 0 <= i < |s| ==> s[i] < |child|
    ensures var layers := FrnnOrder(child, recurrent, s);
      forall j {:trigger layers[j]} :: 0 <= j < |layers| ==>
        layers[j] < |child| && (Leads(child, recurrent, layers[j]) <==> j < |Keep(child, recurrent, s, true)|)
  {
    KeepMembers(child, recurrent, s, true);
    KeepMembers(child, recurrent, s, false);
    var a, b := Keep(child, recurrent, s, true), Keep(child, recurrent, s, false);
    var layers := FrnnOrder(child, recurrent, s);
    forall j | 0 <= j < |layers|
      ensures layers[j] < |child| && (Leads(child, recurrent, layers[j]) <==> j < |a|)
    {
      if j < |a| { assert layers[j] == a[j] && a[j] in a; } else { assert layers[j] == b[j - |a|] && b[j - |a|] in b; }
    }
  }

  lemma InputByPosition(src: Source, j: nat)
    requires src.Ok() && src.Aligned() && j < |src.layers|
    ensures src.layers[j] in src.lin <==> j < |src.lin|
    ensures j < |src.lin| ==> Pos(src.lin, src.layers[j]) == j
  {
    if j < |src.lin| { assert src.lin[j] == src.layers[j]; }
    if src.layers[j] in src.lin {
      var q := Pos(src.lin, src.layers[j]);
      assert src.layers[q] == src.layers[j];
    }
  }

  lemma RowsGrow(src: Source, parent: Links, orig: seq<Option<Layer>>, rows: seq<seq<Layer>>, cur: seq<Layer>,
                 parent': Links, orig': seq<Option<Layer>>)
    requires src.Ok() && |orig| == |parent| && Rows(src, parent, orig, rows)
    requires parent <= parent' && orig <= orig' && |orig'| == |parent'|
    requires Row(src, parent', orig', Before(rows, |rows|), cur, |rows|)
    ensures Rows(src, parent', orig', rows + [cur])
  {
    RowsExtend(src, parent, orig, rows, parent', orig');
    var rows' := rows + [cur];
    forall i | 0 <= i < |rows'| ensures Row(src, parent', orig', Before(rows', i), rows'[i], i) {
      assert Before(rows', i) == Before(rows, i);
      if i < |rows| { assert rows'[i] == rows[i] && Row(src, parent', orig', Before(rows, i), rows[i], i); }
    }
  }

  lemma WiredIs(src: Source, prev: seq<Layer>, cur: seq<Layer>, i: nat, j: nat, par: seq<Layer>)
    requires src.Ok() && j < |src.layers| && j <= |cur| && src.layers[j] !in src.lin
    requires AllIn(src.parent[src.layers[j]], src.layers)
    requires i > 0 && src.recurrent[src.layers[j]] ==> Back(src, j) < |prev|
    requires var ps := src.parent[src.layers[j]];
      && |par| == |ps| + (if src.recurrent[src.layers[j]] && i > 0 then 1 else 0)
      && (forall k {:trigger par[k]} :: 0 <= k < |ps| ==>
          Pos(src.layers, ps[k]) < |cur| && par[k] == cur[Pos(src.layers, ps[k])])
      && (|par| > |ps| ==> par[|ps|] == prev[Back(src, j)])
    ensures par == Wired(src, prev, cur, i, j)
  {
    var wired, n := Wired(src, prev, cur, i, j), |src.parent[src.layers[j]]|;
    forall k | 0 <= k < |par| ensures par[k] == wired[k] {
      if k == n { assert wired[|wired| - 1] == par[n]; }
    }
  }
}
