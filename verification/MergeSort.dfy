/**
 * The merge sort of argtable3. On ties, merging takes the element of the right half, so equal elements come out in
 * the reverse of their original order.
 */
module MergeSort {
  import opened Sequences

  type Compare<!T> = (T, T) -> int

  predicate Less<T>(cmp: Compare<T>, x: T, y: T) {
    cmp(x, y) < 0
  }

  /** The comparison is that of a total preorder. */
  ghost predicate Order<T(!new)>(cmp: Compare<T>) {
    && (forall x, y :: cmp(x, y) < 0 <==> cmp(y, x) > 0)
    && (forall x, y, z :: cmp(x, y) <= 0 && cmp(y, z) <= 0 ==> cmp(x, z) <= 0)
  }

  ghost predicate Ascending<T>(cmp: Compare<T>, s: seq<T>) {
    forall p, q :: 0 <= p < q < |s| ==> cmp(s[p], s[q]) <= 0
  }

  function One<T>(cmp: Compare<T>, y: T, x: T): seq<T> {
    if cmp(y, x) == 0 then [y] else []
  }

  /** The elements that compare equal to x, in order. */
  function Class<T>(cmp: Compare<T>, s: seq<T>, x: T): seq<T> {
    if s == [] then [] else One(cmp, s[0], x) + Class(cmp, s[1..], x)
  }

  // ----- merging -----

  function Merged<T>(cmp: Compare<T>, l: seq<T>, r: seq<T>): (m: seq<T>)
    ensures |m| == |l| + |r|
    decreases |l| + |r|
  {
    if l == [] then r
    else if r == [] then l
    else if Less(cmp, l[0], r[0]) then [l[0]] + Merged(cmp, l[1..], r)
    else [r[0]] + Merged(cmp, l, r[1..])
  }

  lemma {:induction false} MergedPermutes<T>(cmp: Compare<T>, l: seq<T>, r: seq<T>)
    ensures multiset(Merged(cmp, l, r)) == multiset(l) + multiset(r)
    decreases |l| + |r|
  {
    if l != [] && r != [] {
      assert l == [l[0]] + l[1..] && r == [r[0]] + r[1..];
      if cmp(l[0], r[0]) < 0 {
        MergedPermutes(cmp, l[1..], r);
      } else {
        MergedPermutes(cmp, l, r[1..]);
      }
    }
  }

  /** What bounds both halves from below bounds the merge. */
  ghost predicate Bounds<T>(cmp: Compare<T>, x: T, s: seq<T>) {
    forall p :: 0 <= p < |s| ==> cmp(x, s[p]) <= 0
  }

  lemma {:induction false} MergedBounds<T>(cmp: Compare<T>, x: T, l: seq<T>, r: seq<T>)
    requires Bounds(cmp, x, l) && Bounds(cmp, x, r)
    ensures Bounds(cmp, x, Merged(cmp, l, r))
    decreases |l| + |r|
  {
    if l != [] && r != [] {
      if cmp(l[0], r[0]) < 0 {
        MergedBounds(cmp, x, l[1..], r);
      } else {
        MergedBounds(cmp, x, l, r[1..]);
      }
    }
  }

  lemma HeadBounds<T(!new)>(cmp: Compare<T>, x: T, s: seq<T>)
    requires Order(cmp) && Ascending(cmp, s) && s != [] && cmp(x, s[0]) <= 0
    ensures Bounds(cmp, x, s) && Ascending(cmp, s[1..]) && Bounds(cmp, s[0], s[1..])
  {
    forall p | 0 <= p < |s| ensures cmp(x, s[p]) <= 0 {
      assert p > 0 ==> cmp(s[0], s[p]) <= 0;
    }
  }

  lemma ConsAscends<T>(cmp: Compare<T>, x: T, s: seq<T>)
    requires Ascending(cmp, s) && Bounds(cmp, x, s)
    ensures Ascending(cmp, [x] + s)
  {
    var t := [x] + s;
    forall p, q | 0 <= p < q < |t| ensures cmp(t[p], t[q]) <= 0 {
      assert t[q] == s[q - 1];
      assert p > 0 ==> t[p] == s[p - 1];
    }
  }

  lemma {:induction false} MergedAscends<T(!new)>(cmp: Compare<T>, l: seq<T>, r: seq<T>)
    requires Order(cmp) && Ascending(cmp, l) && Ascending(cmp, r)
    ensures Ascending(cmp, Merged(cmp, l, r))
    decreases |l| + |r|
  {
    if l != [] && r != [] {
      if cmp(l[0], r[0]) < 0 {
        HeadBounds(cmp, l[0], r);
        HeadBounds(cmp, l[0], l);
        MergedAscends(cmp, l[1..], r);
        MergedBounds(cmp, l[0], l[1..], r);
        ConsAscends(cmp, l[0], Merged(cmp, l[1..], r));
      } else {
        HeadBounds(cmp, r[0], l);
        HeadBounds(cmp, r[0], r);
        MergedAscends(cmp, l, r[1..]);
        MergedBounds(cmp, r[0], l, r[1..]);
        ConsAscends(cmp, r[0], Merged(cmp, l, r[1..]));
      }
    }
  }

  lemma {:induction false} NoneAbove<T>(cmp: Compare<T>, s: seq<T>, x: T)
    requires forall p :: 0 <= p < |s| ==> cmp(s[p], x) != 0
    ensures Class(cmp, s, x) == []
  {
    if s != [] {
      NoneAbove(cmp, s[1..], x);
    }
  }

  lemma StrictlyAbove<T(!new)>(cmp: Compare<T>, x: T, y: T, z: T, w: T)
    requires Order(cmp) && cmp(y, x) == 0 && cmp(y, z) < 0 && (w == z || cmp(z, w) <= 0)
    ensures cmp(w, x) != 0
  {
  }

  /** An element below the head of an ascending sequence has no equal in it. */
  lemma NoEqualAbove<T(!new)>(cmp: Compare<T>, s: seq<T>, y: T, x: T)
    requires Order(cmp) && Ascending(cmp, s) && s != [] && cmp(y, s[0]) < 0 && cmp(y, x) == 0
    ensures Class(cmp, s, x) == []
  {
    forall p | 0 <= p < |s| ensures cmp(s[p], x) != 0 {
      StrictlyAbove(cmp, x, y, s[0], s[p]);
    }
    NoneAbove(cmp, s, x);
  }

  lemma ClassCons<T>(cmp: Compare<T>, y: T, s: seq<T>, x: T)
    ensures Class(cmp, [y] + s, x) == One(cmp, y, x) + Class(cmp, s, x)
  {
    assert ([y] + s)[1..] == s;
  }

  lemma MoveFirst<T>(h: seq<T>, a: seq<T>, b: seq<T>)
    ensures h + (a + b) == (h + a) + b && (h == [] || a == [] ==> h + (a + b) == a + (h + b))
  {
  }

  /** Of equal elements, all those of the right half come first. */
  lemma {:induction false} MergedClass<T(!new)>(cmp: Compare<T>, l: seq<T>, r: seq<T>, x: T)
    requires Order(cmp) && Ascending(cmp, l) && Ascending(cmp, r)
    ensures Class(cmp, Merged(cmp, l, r), x) == Class(cmp, r, x) + Class(cmp, l, x)
    decreases |l| + |r|
  {
    if l == [] || r == [] {
      assert Class(cmp, r, x) + [] == Class(cmp, r, x) && [] + Class(cmp, l, x) == Class(cmp, l, x);
    } else if Less(cmp, l[0], r[0]) {
      MergedClass(cmp, l[1..], r, x);
      ClassCons(cmp, l[0], Merged(cmp, l[1..], r), x);
      if cmp(l[0], x) == 0 {
        NoEqualAbove(cmp, r, l[0], x);
      }
      MoveFirst(One(cmp, l[0], x), Class(cmp, r, x), Class(cmp, l[1..], x));
    } else {
      MergedClass(cmp, l, r[1..], x);
      ClassCons(cmp, r[0], Merged(cmp, l, r[1..]), x);
      MoveFirst(One(cmp, r[0], x), Class(cmp, r[1..], x), Class(cmp, l, x));
    }
  }

  // ----- sorting -----

  /** The left half has |s| / 2 elements. */
  function Sorted<T>(cmp: Compare<T>, s: seq<T>): (r: seq<T>)
    ensures |r| == |s|
    decreases |s|
  {
    if |s| < 2 then s
    else Merged(cmp, Sorted(cmp, s[..|s| / 2]), Sorted(cmp, s[|s| / 2..]))
  }

  lemma SortedHalves<T>(cmp: Compare<T>, s: seq<T>, l: seq<T>, r: seq<T>)
    requires |s| >= 2 && l == s[..|s| / 2] && r == s[|s| / 2..]
    ensures s == l + r && Sorted(cmp, s) == Merged(cmp, Sorted(cmp, l), Sorted(cmp, r))
  {
  }

  lemma {:induction false} ClassConcat<T>(cmp: Compare<T>, a: seq<T>, b: seq<T>, x: T)
    ensures Class(cmp, a + b, x) == Class(cmp, a, x) + Class(cmp, b, x)
  {
    if a == [] {
      assert a + b == b;
    } else {
      ClassConcat(cmp, a[1..], b, x);
      assert a + b == [a[0]] + (a[1..] + b);
      ClassCons(cmp, a[0], a[1..] + b, x);
      MoveFirst(One(cmp, a[0], x), Class(cmp, a[1..], x), Class(cmp, b, x));
    }
  }

  lemma {:induction false} SortedPermutes<T>(cmp: Compare<T>, s: seq<T>)
    ensures multiset(Sorted(cmp, s)) == multiset(s)
    decreases |s|
  {
    if |s| >= 2 {
      var l, r := s[..|s| / 2], s[|s| / 2..];
      SortedPermutes(cmp, l);
      SortedPermutes(cmp, r);
      MergedPermutes(cmp, Sorted(cmp, l), Sorted(cmp, r));
      SortedHalves(cmp, s, l, r);
    }
  }

  lemma {:induction false} SortedAscends<T(!new)>(cmp: Compare<T>, s: seq<T>)
    requires Order(cmp)
    ensures Ascending(cmp, Sorted(cmp, s))
    decreases |s|
  {
    if |s| >= 2 {
      var l, r := s[..|s| / 2], s[|s| / 2..];
      SortedAscends(cmp, l);
      SortedAscends(cmp, r);
      MergedAscends(cmp, Sorted(cmp, l), Sorted(cmp, r));
    }
  }

  lemma {:induction false} MergedReverses<T(!new)>(cmp: Compare<T>, l: seq<T>, r: seq<T>, ls: seq<T>, rs: seq<T>, x: T)
    requires Order(cmp) && Ascending(cmp, ls) && Ascending(cmp, rs)
    requires Class(cmp, ls, x) == Reversed(Class(cmp, l, x)) && Class(cmp, rs, x) == Reversed(Class(cmp, r, x))
    ensures Class(cmp, Merged(cmp, ls, rs), x) == Reversed(Class(cmp, l + r, x))
  {
    MergedClass(cmp, ls, rs, x);
    ClassConcat(cmp, l, r, x);
    ReversedConcat(Class(cmp, l, x), Class(cmp, r, x));
  }

  /** Equal elements come out in exactly the reverse of their input order. */
  lemma {:induction false} SortedReversesEquals<T(!new)>(cmp: Compare<T>, s: seq<T>, x: T)
    requires Order(cmp)
    ensures Class(cmp, Sorted(cmp, s), x) == Reversed(Class(cmp, s, x))
    decreases |s|
  {
    if |s| >= 2 {
      var l, r := s[..|s| / 2], s[|s| / 2..];
      SortedReversesEquals(cmp, l, x);
      SortedReversesEquals(cmp, r, x);
      SortedAscends(cmp, l);
      SortedAscends(cmp, r);
      MergedReverses(cmp, l, r, Sorted(cmp, l), Sorted(cmp, r), x);
      SortedHalves(cmp, s, l, r);
    } else if |s| == 1 {
      assert s[1..] == [];
    }
  }

  lemma {:induction false} ReversedClass<T>(cmp: Compare<T>, s: seq<T>, x: T)
    ensures Class(cmp, Reversed(s), x) == Reversed(Class(cmp, s, x))
  {
    if s != [] {
      ReversedClass(cmp, s[1..], x);
      ClassConcat(cmp, Reversed(s[1..]), [s[0]], x);
      assert [s[0]][1..] == [];
      ReversedConcat(if cmp(s[0], x) == 0 then [s[0]] else [], Class(cmp, s[1..], x));
    }
  }

  /** r is t sorted stably: ascending, with equal elements in the order in which t has them. */
  ghost predicate StablySorted<T(!new)>(cmp: Compare<T>, t: seq<T>, r: seq<T>) {
    Ascending(cmp, r) && forall x :: Class(cmp, r, x) == Class(cmp, t, x)
  }

  lemma ClassHead<T>(cmp: Compare<T>, s: seq<T>, x: T)
    requires Class(cmp, s, x) != []
    ensures exists p :: 0 <= p < |s| && cmp(s[p], x) == 0
  {
    if forall p :: 0 <= p < |s| ==> cmp(s[p], x) != 0 {
      NoneAbove(cmp, s, x);
    }
  }

  /** Equal classes and ascending order leave one choice for the head. */
  lemma HeadsAgree<T(!new)>(cmp: Compare<T>, r: seq<T>, u: seq<T>)
    requires Order(cmp) && Ascending(cmp, r) && Ascending(cmp, u) && r != []
    requires forall x :: Class(cmp, r, x) == Class(cmp, u, x)
    ensures u != [] && r[0] == u[0]
  {
    var y := r[0];
    assert cmp(y, y) == 0;
    assert Class(cmp, r, y) == Class(cmp, u, y) && Class(cmp, r, y)[0] == y;
    ClassHead(cmp, u, y);
    var z := u[0];
    assert cmp(z, z) == 0;
    assert Class(cmp, u, z) == Class(cmp, r, z) && Class(cmp, u, z)[0] == z;
    ClassHead(cmp, r, z);
    var p :| 0 <= p < |r| && cmp(r[p], z) == 0;
    var q :| 0 <= q < |u| && cmp(u[q], y) == 0;
    assert cmp(y, r[p]) <= 0 && cmp(z, u[q]) <= 0;
    assert cmp(y, z) <= 0 && cmp(z, y) <= 0;
  }

  lemma {:induction false} ClassesDetermine<T(!new)>(cmp: Compare<T>, r: seq<T>, u: seq<T>)
    requires Order(cmp) && Ascending(cmp, r) && Ascending(cmp, u)
    requires forall x :: Class(cmp, r, x) == Class(cmp, u, x)
    ensures r == u
    decreases |r|
  {
    if r != [] {
      HeadsAgree(cmp, r, u);
      forall x ensures Class(cmp, r[1..], x) == Class(cmp, u[1..], x) {
        assert Class(cmp, r, x) == Class(cmp, u, x);
        var head := if cmp(r[0], x) == 0 then [r[0]] else [];
        assert Class(cmp, r, x)[|head|..] == Class(cmp, r[1..], x)
            && Class(cmp, u, x)[|head|..] == Class(cmp, u[1..], x);
      }
      ClassesDetermine(cmp, r[1..], u[1..]);
      assert r == [r[0]] + r[1..] && u == [u[0]] + u[1..];
    } else if u != [] {
      HeadsAgree(cmp, u, r);
    }
  }

  /** The result is the stable sort of the reversed input, and nothing else is. */
  lemma SortIsStableOnReverse<T(!new)>(cmp: Compare<T>, s: seq<T>, r: seq<T>)
    requires Order(cmp)
    ensures StablySorted(cmp, Reversed(s), r) <==> r == Sorted(cmp, s)
  {
    SortedAscends(cmp, s);
    forall x ensures Class(cmp, Sorted(cmp, s), x) == Class(cmp, Reversed(s), x) {
      SortedReversesEquals(cmp, s, x);
      ReversedClass(cmp, s, x);
    }
    if StablySorted(cmp, Reversed(s), r) {
      ClassesDetermine(cmp, r, Sorted(cmp, s));
    }
  }

  // ----- in place -----

  /** The range i..k with its halves i..j and j..k merged. */
  function MergedPart<T>(cmp: Compare<T>, s: seq<T>, i: nat, j: nat, k: nat): (r: seq<T>)
    requires i <= j <= k <= |s|
    ensures |r| == |s|
  {
    Patched(s, i, Remaining(cmp, s, i, j, j, k))
  }

  /** The range i..k sorted. */
  function SortedPart<T>(cmp: Compare<T>, s: seq<T>, i: nat, k: nat): (r: seq<T>)
    requires i <= k <= |s|
    ensures |r| == |s|
  {
    Patched(s, i, Sorted(cmp, s[i..k]))
  }

  /** What is still to be merged from two ranges of s. */
  function Remaining<T>(cmp: Compare<T>, s: seq<T>, i: nat, j: nat, p: nat, k: nat): (m: seq<T>)
    requires i <= j <= p <= k <= |s|
    ensures |m| == j - i + k - p
  {
    Merged(cmp, s[i..j], s[p..k])
  }

  /** The outcome when m has been merged and the ranges i..j and p..k are left. */
  ghost function Outcome<T>(cmp: Compare<T>, m: seq<T>, s: seq<T>, i: nat, j: nat, p: nat, k: nat): seq<T>
    requires i <= j <= p <= k <= |s|
  {
    m + Remaining(cmp, s, i, j, p, k)
  }

  lemma TakeRight<T>(cmp: Compare<T>, m: seq<T>, x: T, s: seq<T>, i: nat, j: nat, p: nat, k: nat)
    requires i <= j <= p < k <= |s| && x == s[p] && (i == j || !Less(cmp, s[i], x))
    ensures Outcome(cmp, m + [x], s, i, j, p + 1, k) == Outcome(cmp, m, s, i, j, p, k)
  {
    assert s[p..k] == [s[p]] + s[p + 1..k] && s[p..k][1..] == s[p + 1..k];
  }

  lemma TakeLeft<T>(cmp: Compare<T>, m: seq<T>, x: T, s: seq<T>, i: nat, j: nat, p: nat, k: nat)
    requires i < j <= p <= k <= |s| && x == s[i] && (p == k || Less(cmp, x, s[p]))
    ensures Outcome(cmp, m + [x], s, i + 1, j, p, k) == Outcome(cmp, m, s, i, j, p, k)
  {
    assert s[i..j] == [s[i]] + s[i + 1..j] && s[i..j][1..] == s[i + 1..j];
  }

  lemma NothingLeft<T>(cmp: Compare<T>, m: seq<T>, s: seq<T>, j: nat, k: nat)
    requires j <= k <= |s|
    ensures Outcome(cmp, m, s, j, j, k, k) == m
  {
  }

  /** The loop of merge over the halves i..j and j+1..k, both bounds inclusive. */
  method MergeInto<T>(a: array<T>, i: nat, j: int, k: int, cmp: Compare<T>) returns (m: seq<T>)
    requires i <= j + 1 <= k + 1 <= a.Length
    ensures m == Remaining(cmp, a[..], i, j + 1, j + 1, k + 1)
  {
    ghost var s, left, right := a[..], j + 1, k + 1;
    var ipos, jpos := i, j + 1;
    m := [];
    ghost var whole := Outcome(cmp, m, s, i, left, left, right);
    while ipos <= j || jpos <= k
      invariant i <= ipos <= left <= jpos <= right
      invariant Outcome(cmp, m, s, ipos, left, jpos, right) == whole
      decreases left - ipos + right - jpos
    {
      if ipos > j || (jpos <= k && !Less(cmp, a[ipos], a[jpos])) {
        var x := a[jpos];
        TakeRight(cmp, m, x, s, ipos, left, jpos, right);
        m, jpos := m + [x], jpos + 1;
      } else {
        var x := a[ipos];
        TakeLeft(cmp, m, x, s, ipos, left, jpos, right);
        m, ipos := m + [x], ipos + 1;
      }
    }
    NothingLeft(cmp, m, s, left, right);
  }

  method Merge<T>(a: array<T>, i: nat, j: int, k: int, cmp: Compare<T>)
    requires i <= j + 1 <= k + 1 <= a.Length
    modifies a
    ensures a[..] == MergedPart(cmp, old(a[..]), i, j + 1, k + 1)
  {
    var m := MergeInto(a, i, j, k, cmp);
    CopyBack(a, i, m);
  }

  method CopyBack<T>(a: array<T>, i: nat, m: seq<T>)
    requires i + |m| <= a.Length
    modifies a
    ensures a[..] == Patched(old(a[..]), i, m)
  {
    ghost var s := a[..];
    for p := 0 to |m|
      invariant a[..] == Patched(s, i, m[..p])
    {
      a[i + p] := m[p];
    }
  }

  /** Rewriting two neighbouring parts, then both at once. */
  lemma PatchTwice<T>(s: seq<T>, i: nat, j: nat, k: nat, l: seq<T>, r: seq<T>, m: seq<T>)
    requires i <= j <= k <= |s| && |l| == j - i && |r| == k - j && |m| == k - i
    ensures var t := Patched(s, i, l);
            && |t| == |s| && t[j..k] == s[j..k]
            && var u := Patched(t, j, r);
               |u| == |s| && u[i..j] == l && u[j..k] == r && Patched(u, i, m) == Patched(s, i, m)
  {
    var t := Patched(s, i, l);
    var u := Patched(t, j, r);
    assert u[..i] == s[..i] && u[k..] == s[k..];
  }

  lemma Halves<T>(s: seq<T>, i: nat, h: nat, k: nat)
    requires i + h <= k <= |s|
    ensures s[i..k][..h] == s[i..i + h] && s[i..k][h..] == s[i + h..k]
  {
  }

  /** Sorting two neighbouring ranges and merging them sorts the whole range. */
  lemma SortByHalves<T>(cmp: Compare<T>, s: seq<T>, i: nat, j: nat, k: nat)
    requires i < j < k <= |s| && j - i == (k - i) / 2
    ensures MergedPart(cmp, SortedPart(cmp, SortedPart(cmp, s, i, j), j, k), i, j, k) == SortedPart(cmp, s, i, k)
  {
    Halves(s, i, j - i, k);
    var l, r := Sorted(cmp, s[i..j]), Sorted(cmp, s[j..k]);
    SortedHalves(cmp, s[i..k], s[i..j], s[j..k]);
    PatchTwice(s, i, j, k, l, r, Merged(cmp, l, r));
  }

  lemma ShortIsSorted<T>(cmp: Compare<T>, s: seq<T>, i: nat, k: nat)
    requires i <= k <= |s| && k - i < 2
    ensures SortedPart(cmp, s, i, k) == s
  {
  }

  lemma HalfWay(i: nat, k: nat)
    requires i < k
    ensures var j := (i + k - 1) / 2; i <= j < k && j + 1 - i == (k + 1 - i) / 2
  {
  }

  /** arg_mgsort on a[i..k], both bounds inclusive. */
  method Mgsort<T>(a: array<T>, i: nat, k: int, cmp: Compare<T>)
    requires i <= k + 1 <= a.Length
    modifies a
    ensures a[..] == SortedPart(cmp, old(a[..]), i, k + 1)
    decreases k - i, 1
  {
    ghost var goal := SortedPart(cmp, a[..], i, k + 1);
    if i >= k {
      ShortIsSorted(cmp, a[..], i, k + 1);
      return;
    }
    HalfWay(i, k);
    var j := (i + k - 1) / 2;
    SortByHalves(cmp, a[..], i, j + 1, k + 1);
    SortHalves(a, i, j, k, cmp, goal);
  }

  /** The two recursive calls and the merge. */
  method SortHalves<T>(a: array<T>, i: nat, j: nat, k: nat, cmp: Compare<T>, ghost goal: seq<T>)
    requires i <= j < k < a.Length
    requires MergedPart(cmp, SortedPart(cmp, SortedPart(cmp, a[..], i, j + 1), j + 1, k + 1), i, j + 1, k + 1) == goal
    modifies a
    ensures a[..] == goal
    decreases k - i, 0
  {
    Mgsort(a, i, j, cmp);
    ghost var t := a[..];
    assert MergedPart(cmp, SortedPart(cmp, t, j + 1, k + 1), i, j + 1, k + 1) == goal;
    Mgsort(a, j + 1, k, cmp);
    ghost var u := a[..];
    assert MergedPart(cmp, u, i, j + 1, k + 1) == goal;
    Merge(a, i, j, k, cmp);
  }
}
