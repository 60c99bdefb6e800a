/** Sequence vocabulary shared by the models: filtering, flattening, keeping
    first occurrences, sorting, and the byte-wise order on strings. */
module Sequences {

  datatype Option<+T> = None | Some(value: T)

  function Take<T>(xs: seq<T>, n: nat): seq<T> {
    if n < |xs| then xs[..n] else xs
  }

  lemma ConcatAssociates<T>(a: seq<T>, b: seq<T>, c: seq<T>)
    ensures a + (b + c) == a + b + c
  {
  }

  function Filter<T>(xs: seq<T>, p: T -> bool): seq<T> {
    if xs == [] then []
    else
      var front := Filter(xs[..|xs| - 1], p);
      if p(xs[|xs| - 1]) then front + [xs[|xs| - 1]] else front
  }

  lemma {:induction false} FilterConcat<T>(xs: seq<T>, ys: seq<T>, p: T -> bool)
    ensures Filter(xs + ys, p) == Filter(xs, p) + Filter(ys, p)
    decreases |ys|
  {
    if ys == [] {
      assert xs + ys == xs;
    } else {
      var n := |ys| - 1;
      assert (xs + ys)[..|xs + ys| - 1] == xs + ys[..n];
      FilterConcat(xs, ys[..n], p);
    }
  }

  lemma {:induction false} FilterMembers<T>(xs: seq<T>, p: T -> bool)
    ensures forall x :: x in Filter(xs, p) <==> x in xs && p(x)
    ensures |Filter(xs, p)| <= |xs|
  {
    if xs == [] {
    } else {
      FilterMembers(xs[..|xs| - 1], p);
      assert xs == xs[..|xs| - 1] + [xs[|xs| - 1]];
    }
  }

  /** ys is xs read at the positions `at`, in order: exactly those that satisfy p. */
  ghost predicate SelectedAt<T>(ys: seq<T>, xs: seq<T>, p: T -> bool, at: seq<nat>) {
    && |at| == |ys|
    && (forall k :: 0 <= k < |at| ==> at[k] < |xs| && ys[k] == xs[at[k]] && p(xs[at[k]]))
    && (forall k, l :: 0 <= k < l < |at| ==> at[k] < at[l])
    && (forall i :: 0 <= i < |xs| && p(xs[i]) ==> i in at)
  }

  lemma SelectionGrows<T>(ys: seq<T>, xs: seq<T>, p: T -> bool, before: seq<nat>, x: T)
    requires SelectedAt(ys, xs, p, before)
    ensures p(x) ==> SelectedAt(ys + [x], xs + [x], p, before + [|xs|])
    ensures !p(x) ==> SelectedAt(ys, xs + [x], p, before)
  {
    var all, at := xs + [x], before + if p(x) then [|xs|] else [];
    assert forall k :: 0 <= k < |before| ==> all[before[k]] == xs[before[k]];
    forall i | 0 <= i < |all| && p(all[i]) ensures i in at {
      if i < |xs| {
        assert all[i] == xs[i];
        assert i in before;
      } else {
        assert at[|before|] == i;
      }
    }
  }

  lemma {:induction false} FilterAt<T>(xs: seq<T>, p: T -> bool) returns (at: seq<nat>)
    ensures SelectedAt(Filter(xs, p), xs, p, at)
  {
    if xs == [] {
      at := [];
    } else {
      var n := |xs| - 1;
      at := FilterAt(xs[..n], p);
      SelectionGrows(Filter(xs[..n], p), xs[..n], p, at, xs[n]);
      at := if p(xs[n]) then at + [n] else at;
      assert xs == xs[..n] + [xs[n]];
    }
  }

  lemma InFirst(all: seq<nat>, i: nat, n: nat)
    requires n > 0 && i in all && forall k, l :: 0 <= k < l < |all| ==> all[k] < all[l]
    ensures i in Take(all, n) || (|Take(all, n)| == n && Take(all, n)[n - 1] < i)
  {
    var k :| 0 <= k < |all| && all[k] == i;
    if k < n {
      assert Take(all, n)[k] == i;
    }
  }

  /** The positions whose element satisfies p. */
  ghost function Places<T>(xs: seq<T>, p: T -> bool): set<nat> {
    set i: nat | i < |xs| && p(xs[i])
  }

  lemma {:induction false} FilterCount<T>(xs: seq<T>, p: T -> bool)
    ensures |Filter(xs, p)| == |Places(xs, p)|
  {
    if xs == [] {
      assert Places(xs, p) == {};
    } else {
      var n := |xs| - 1;
      FilterCount(xs[..n], p);
      assert Places(xs, p) == Places(xs[..n], p) + if p(xs[n]) then {n} else {};
    }
  }

  function Flatten<T>(xss: seq<seq<T>>): seq<T> {
    if xss == [] then [] else Flatten(xss[..|xss| - 1]) + xss[|xss| - 1]
  }

  lemma {:induction false} FlattenConcat<T>(a: seq<seq<T>>, b: seq<seq<T>>)
    ensures Flatten(a + b) == Flatten(a) + Flatten(b)
    decreases |b|
  {
    if b == [] {
      assert a + b == a;
    } else {
      var n := |b| - 1;
      assert (a + b)[..|a + b| - 1] == a + b[..n];
      FlattenConcat(a, b[..n]);
      ConcatAssociates(Flatten(a), Flatten(b[..n]), b[n]);
    }
  }

  lemma FlattenOne<T>(row: seq<T>)
    ensures Flatten([row]) == row
  {
    assert [row][..0] == [] && Flatten([row]) == [] + row;
  }

  /** ys reads xss row by row, from left to right: every place of every row once. */
  ghost predicate FlattenedAt<T>(ys: seq<T>, xss: seq<seq<T>>, from: seq<(nat, nat)>) {
    && ReadsAt(ys, xss, from)
    && Rising(from) && Covers(from, xss)
  }

  ghost predicate Rising(from: seq<(nat, nat)>) {
    forall k, l :: 0 <= k < l < |from| ==>
      from[k].0 < from[l].0 || (from[k].0 == from[l].0 && from[k].1 < from[l].1)
  }

  ghost predicate ReadsAt<T>(ys: seq<T>, xss: seq<seq<T>>, from: seq<(nat, nat)>) {
    && |from| == |ys|
    && forall k :: 0 <= k < |from| ==>
         from[k].0 < |xss| && from[k].1 < |xss[from[k].0]| && ys[k] == xss[from[k].0][from[k].1]
  }

  ghost predicate Covers<T>(from: seq<(nat, nat)>, xss: seq<seq<T>>) {
    forall i, j :: 0 <= i < |xss| && 0 <= j < |xss[i]| ==> (i, j) in from
  }

  function RowPlaces(n: nat, width: nat): (r: seq<(nat, nat)>)
    ensures |r| == width && forall j :: 0 <= j < width ==> r[j] == (n, j)
  {
    seq(width, j requires j >= 0 => (n, j))
  }

  lemma CoversGrow<T>(from: seq<(nat, nat)>, xss: seq<seq<T>>, row: seq<T>)
    requires Covers(from, xss)
    ensures Covers(from + RowPlaces(|xss|, |row|), xss + [row])
  {
    var more, places := xss + [row], RowPlaces(|xss|, |row|);
    forall i, j | 0 <= i < |more| && 0 <= j < |more[i]| ensures (i, j) in from + places {
      if i < |xss| {
        assert more[i] == xss[i];
        assert (i, j) in from;
      } else {
        assert places[j] == (i, j);
      }
    }
  }

  lemma ReadsGrow<T>(ys: seq<T>, xss: seq<seq<T>>, from: seq<(nat, nat)>, row: seq<T>)
    requires ReadsAt(ys, xss, from)
    ensures ReadsAt(ys + row, xss + [row], from + RowPlaces(|xss|, |row|))
  {
    var more, places, all := xss + [row], RowPlaces(|xss|, |row|), from + RowPlaces(|xss|, |row|);
    forall k | 0 <= k < |all|
      ensures all[k].0 < |more| && all[k].1 < |more[all[k].0]| && (ys + row)[k] == more[all[k].0][all[k].1]
    {
      if k < |from| {
        assert all[k] == from[k] && more[from[k].0] == xss[from[k].0];
      } else {
        assert all[k] == places[k - |from|];
      }
    }
  }

  lemma PlacesGrow(from: seq<(nat, nat)>, n: nat, width: nat)
    requires Rising(from) && forall k :: 0 <= k < |from| ==> from[k].0 < n
    ensures Rising(from + RowPlaces(n, width))
  {
  }

  lemma {:induction false} FlattenAt<T>(xss: seq<seq<T>>) returns (from: seq<(nat, nat)>)
    ensures FlattenedAt(Flatten(xss), xss, from)
  {
    if xss == [] {
      from := [];
    } else {
      var n := |xss| - 1;
      var before := FlattenAt(xss[..n]);
      from := before + RowPlaces(n, |xss[n]|);
      assert xss == xss[..n] + [xss[n]];
      ReadsGrow(Flatten(xss[..n]), xss[..n], before, xss[n]);
      CoversGrow(before, xss[..n], xss[n]);
      PlacesGrow(before, n, |xss[n]|);
    }
  }

  ghost predicate Distinct<T>(xs: seq<T>) {
    forall i, j :: 0 <= i < j < |xs| ==> xs[i] != xs[j]
  }

  lemma DistinctSameSetSameMultiset<T>(xs: seq<T>, ys: seq<T>)
    requires Distinct(xs) && Distinct(ys)
    requires forall x :: x in xs <==> x in ys
    ensures multiset(xs) == multiset(ys)
  {
    forall x ensures multiset(xs)[x] == multiset(ys)[x] {
      DistinctCount(xs, x);
      DistinctCount(ys, x);
    }
  }

  lemma {:induction false} DistinctCount<T>(xs: seq<T>, x: T)
    requires Distinct(xs)
    ensures multiset(xs)[x] == if x in xs then 1 else 0
  {
    if xs == [] {
    } else {
      var n := |xs| - 1;
      DistinctCount(xs[..n], x);
      assert xs == xs[..n] + [xs[n]];
    }
  }

  // ---- mapping ----

  function Map<T, U>(xs: seq<T>, f: T -> U): (ys: seq<U>)
    ensures |ys| == |xs|
    ensures forall i :: 0 <= i < |xs| ==> ys[i] == f(xs[i])
  {
    seq(|xs|, i requires 0 <= i < |xs| => f(xs[i]))
  }

  lemma MapAround<T, U>(xs: seq<T>, j: nat, f: T -> U)
    requires j < |xs|
    ensures multiset(Map(xs, f)) == multiset(Map(xs[..j] + xs[j + 1..], f)) + multiset{f(xs[j])}
  {
    var a, b := Map(xs[..j], f), Map(xs[j + 1..], f);
    assert Map(xs, f) == a + [f(xs[j])] + b;
    assert Map(xs[..j] + xs[j + 1..], f) == a + b;
  }

  /** Mapping respects permutation. */
  lemma {:induction false} MapOfPermutation<T, U>(xs: seq<T>, ys: seq<T>, f: T -> U)
    requires multiset(xs) == multiset(ys)
    ensures multiset(Map(xs, f)) == multiset(Map(ys, f))
    decreases |xs|
  {
    SameElements(xs, ys);
    if xs == [] {
    } else {
      var n := |xs| - 1;
      var x := xs[n];
      assert x in ys;
      var j :| 0 <= j < |ys| && ys[j] == x;
      var xt, yt := xs[..n] + xs[n + 1..], ys[..j] + ys[j + 1..];
      RemoveOne(xs, n);
      RemoveOne(ys, j);
      MapOfPermutation(xt, yt, f);
      MapAround(xs, n, f);
      MapAround(ys, j, f);
    }
  }

  lemma RemoveOne<T>(xs: seq<T>, j: nat)
    requires j < |xs|
    ensures multiset(xs[..j] + xs[j + 1..]) == multiset(xs) - multiset{xs[j]}
  {
    assert xs == xs[..j] + [xs[j]] + xs[j + 1..];
  }

  // ---- first occurrences ----

  /** The element at i carries a key no earlier element carries. */
  ghost predicate IsFirst<T, K>(xs: seq<T>, key: T -> K, i: nat)
    requires i < |xs|
  {
    forall j :: 0 <= j < i ==> key(xs[j]) != key(xs[i])
  }

  /** xs without every element whose key was already carried by an earlier one. */
  ghost function FirstOccurrences<T, K>(xs: seq<T>, key: T -> K): seq<T> {
    if xs == [] then []
    else
      var n := |xs| - 1;
      FirstOccurrences(xs[..n], key) + if IsFirst(xs, key, n) then [xs[n]] else []
  }

  /** at lists, in order, exactly the positions of xs that are first to carry their key. */
  ghost predicate FirstPositions<T, K>(at: seq<nat>, xs: seq<T>, key: T -> K) {
    && (forall k :: 0 <= k < |at| ==> at[k] < |xs| && IsFirst(xs, key, at[k]))
    && (forall k, l :: 0 <= k < l < |at| ==> at[k] < at[l])
    && (forall i :: 0 <= i < |xs| && IsFirst(xs, key, i) ==> i in at)
  }

  lemma FirstInFront<T, K>(xs: seq<T>, key: T -> K, n: nat, i: nat)
    requires i < n <= |xs|
    ensures IsFirst(xs[..n], key, i) <==> IsFirst(xs, key, i)
  {
    assert forall j :: 0 <= j <= i ==> xs[..n][j] == xs[j];
  }

  lemma FirstPositionsGrow<T, K>(before: seq<nat>, xs: seq<T>, key: T -> K)
    requires xs != [] && FirstPositions(before, xs[..|xs| - 1], key)
    ensures var n := |xs| - 1;
      FirstPositions(before + if IsFirst(xs, key, n) then [n] else [], xs, key)
  {
    var n := |xs| - 1;
    var at := before + if IsFirst(xs, key, n) then [n] else [];
    forall k | 0 <= k < |before| ensures IsFirst(xs, key, before[k]) {
      FirstInFront(xs, key, n, before[k]);
    }
    forall i | 0 <= i < |xs| && IsFirst(xs, key, i) ensures i in at {
      if i < n {
        FirstInFront(xs, key, n, i);
        assert i in before;
      } else {
        assert at[|before|] == n;
      }
    }
  }

  /** The first occurrences are xs read at those positions. */
  lemma {:induction false} FirstOccurrencesAt<T, K>(xs: seq<T>, key: T -> K) returns (at: seq<nat>)
    ensures FirstPositions(at, xs, key) && |at| == |FirstOccurrences(xs, key)|
    ensures forall k :: 0 <= k < |at| ==> FirstOccurrences(xs, key)[k] == xs[at[k]]
  {
    if xs == [] {
      at := [];
    } else {
      var n := |xs| - 1;
      var before := FirstOccurrencesAt(xs[..n], key);
      at := before + if IsFirst(xs, key, n) then [n] else [];
      FirstPositionsGrow(before, xs, key);
    }
  }

  lemma FirstOccurrencesDistinct<T, K>(xs: seq<T>, key: T -> K)
    ensures forall k, l :: 0 <= k < l < |FirstOccurrences(xs, key)| ==>
      key(FirstOccurrences(xs, key)[k]) != key(FirstOccurrences(xs, key)[l])
    ensures forall i :: 0 <= i < |xs| ==>
      exists k :: 0 <= k < |FirstOccurrences(xs, key)| && key(FirstOccurrences(xs, key)[k]) == key(xs[i])
  {
    var at := FirstOccurrencesAt(xs, key);
    var out := FirstOccurrences(xs, key);
    forall k, l | 0 <= k < l < |out| ensures key(out[k]) != key(out[l]) {
      assert at[k] < at[l] && IsFirst(xs, key, at[l]);
    }
    forall i | 0 <= i < |xs| ensures exists k :: 0 <= k < |out| && key(out[k]) == key(xs[i]) {
      var f := FirstCarrier(xs, key, i);
      var k :| 0 <= k < |at| && at[k] == f;
      assert key(out[k]) == key(xs[i]);
    }
  }

  lemma FirstCarrier<T, K>(xs: seq<T>, key: T -> K, i: nat) returns (f: nat)
    requires i < |xs|
    ensures f <= i && key(xs[f]) == key(xs[i]) && IsFirst(xs, key, f)
  {
    f := i;
    while !IsFirst(xs, key, f)
      invariant f <= i && key(xs[f]) == key(xs[i])
      decreases f
    {
      var j :| 0 <= j < f && key(xs[j]) == key(xs[f]);
      f := j;
    }
  }

  // ---- sorting ----

  ghost predicate TotalPreorder<T(!new)>(le: (T, T) -> bool) {
    && (forall a, b :: le(a, b) || le(b, a))
    && (forall a, b, c :: le(a, b) && le(b, c) ==> le(a, c))
  }

  ghost predicate SortedBy<T>(xs: seq<T>, le: (T, T) -> bool) {
    forall i, j :: 0 <= i < j < |xs| ==> le(xs[i], xs[j])
  }

  /** Stands for Go's sort.Slice: callers may rely only on order and content,
      not on where equal elements land. */
  method SortBy<T(!new)>(xs: seq<T>, le: (T, T) -> bool) returns (ys: seq<T>)
    requires TotalPreorder(le)
    ensures SortedBy(ys, le)
    ensures multiset(ys) == multiset(xs)
  {
    ys := [];
    for n := 0 to |xs|
      invariant SortedBy(ys, le)
      invariant multiset(ys) == multiset(xs[..n])
    {
      ys := Insert(ys, xs[n], le);
      assert xs[..n + 1] == xs[..n] + [xs[n]];
    }
    assert xs[..|xs|] == xs;
  }

  method Insert<T(!new)>(ys: seq<T>, x: T, le: (T, T) -> bool) returns (zs: seq<T>)
    requires TotalPreorder(le) && SortedBy(ys, le)
    ensures SortedBy(zs, le)
    ensures multiset(zs) == multiset(ys) + multiset{x}
  {
    var p := |ys|;
    while p > 0 && !le(ys[p - 1], x)
      invariant 0 <= p <= |ys|
      invariant forall k :: p <= k < |ys| ==> le(x, ys[k])
    {
      p := p - 1;
    }
    zs := ys[..p] + [x] + ys[p..];
    SplicedIsSorted(ys, p, x, le);
    SplicedElements(ys, p, x);
  }

  lemma SplicedElements<T>(ys: seq<T>, p: nat, x: T)
    requires p <= |ys|
    ensures multiset(ys[..p] + [x] + ys[p..]) == multiset(ys) + multiset{x}
  {
    assert ys == ys[..p] + ys[p..];
  }

  lemma SplicedIsSorted<T(!new)>(ys: seq<T>, p: nat, x: T, le: (T, T) -> bool)
    requires TotalPreorder(le) && SortedBy(ys, le) && p <= |ys|
    requires p > 0 ==> le(ys[p - 1], x)
    requires forall k :: p <= k < |ys| ==> le(x, ys[k])
    ensures SortedBy(ys[..p] + [x] + ys[p..], le)
  {
    var zs := ys[..p] + [x] + ys[p..];
    forall k | 0 <= k < p ensures le(ys[k], x) {
      if k < p - 1 {
        assert le(ys[k], ys[p - 1]);
      }
    }
    forall i, j | 0 <= i < j < |zs| ensures le(zs[i], zs[j]) {
      var a, b := if i < p then i else i - 1, if j < p then j else j - 1;
      assert i != p ==> zs[i] == ys[a];
      assert j != p ==> zs[j] == ys[b];
    }
  }

  /** Every sequence has a sorted arrangement. */
  lemma {:induction false} SortedArrangement<T(!new)>(xs: seq<T>, le: (T, T) -> bool) returns (ys: seq<T>)
    requires TotalPreorder(le)
    ensures SortedBy(ys, le) && multiset(ys) == multiset(xs)
  {
    if xs == [] {
      ys := [];
    } else {
      var n := |xs| - 1;
      var front := SortedArrangement(xs[..n], le);
      var p := PlaceFor(front, xs[n], le);
      ys := front[..p] + [xs[n]] + front[p..];
      SplicedIsSorted(front, p, xs[n], le);
      SplicedElements(front, p, xs[n]);
      assert xs == xs[..n] + [xs[n]];
    }
  }

  lemma PlaceFor<T(!new)>(ys: seq<T>, x: T, le: (T, T) -> bool) returns (p: nat)
    requires TotalPreorder(le) && SortedBy(ys, le)
    ensures p <= |ys| && (p > 0 ==> le(ys[p - 1], x)) && forall k :: p <= k < |ys| ==> le(x, ys[k])
  {
    p := |ys|;
    while p > 0 && !le(ys[p - 1], x)
      invariant 0 <= p <= |ys|
      invariant forall k :: p <= k < |ys| ==> le(x, ys[k])
    {
      p := p - 1;
    }
  }

  lemma SameElements<T>(xs: seq<T>, ys: seq<T>)
    requires multiset(xs) == multiset(ys)
    ensures |xs| == |ys|
    ensures forall x :: x in xs <==> x in ys
  {
    assert |multiset(xs)| == |xs| && |multiset(ys)| == |ys|;
    forall x ensures x in xs <==> x in ys {
      assert x in xs <==> x in multiset(xs);
      assert x in ys <==> x in multiset(ys);
    }
  }

  ghost predicate AntisymmetricOn<T>(xs: seq<T>, le: (T, T) -> bool) {
    forall i, j :: 0 <= i < |xs| && 0 <= j < |xs| && le(xs[i], xs[j]) && le(xs[j], xs[i]) ==> xs[i] == xs[j]
  }

  /** An order that tells the given elements apart leaves one sorted arrangement. */
  lemma {:induction false} SortedUnique<T>(xs: seq<T>, ys: seq<T>, le: (T, T) -> bool)
    requires SortedBy(xs, le) && SortedBy(ys, le)
    requires multiset(xs) == multiset(ys)
    requires AntisymmetricOn(xs, le)
    ensures xs == ys
    decreases |xs|
  {
    SameElements(xs, ys);
    if xs == [] {
    } else {
      SameHead(xs, ys, le);
      SameTails(xs, ys);
      SortedUnique(xs[1..], ys[1..], le);
      assert xs == [xs[0]] + xs[1..] && ys == [ys[0]] + ys[1..];
    }
  }

  lemma SameHead<T>(xs: seq<T>, ys: seq<T>, le: (T, T) -> bool)
    requires SortedBy(xs, le) && SortedBy(ys, le) && AntisymmetricOn(xs, le)
    requires |xs| == |ys| > 0 && forall x :: x in xs <==> x in ys
    ensures xs[0] == ys[0]
  {
    assert ys[0] in xs && xs[0] in ys;
    var i :| 0 <= i < |xs| && xs[i] == ys[0];
    var j :| 0 <= j < |ys| && ys[j] == xs[0];
    if i > 0 && j > 0 {
      assert le(xs[0], xs[i]);
      assert le(ys[0], ys[j]);
      assert le(xs[i], xs[0]);
    }
  }

  lemma SameTails<T>(xs: seq<T>, ys: seq<T>)
    requires xs != [] && ys != [] && xs[0] == ys[0] && multiset(xs) == multiset(ys)
    ensures multiset(xs[1..]) == multiset(ys[1..])
  {
    assert xs == [xs[0]] + xs[1..] && ys == [ys[0]] + ys[1..];
    assert multiset(xs) == multiset{xs[0]} + multiset(xs[1..]);
    assert multiset(ys) == multiset{ys[0]} + multiset(ys[1..]);
    assert multiset(xs[1..]) == multiset(xs) - multiset{xs[0]};
    assert multiset(ys[1..]) == multiset(ys) - multiset{ys[0]};
  }

  lemma RepeatCountsTwice<T>(ys: seq<T>, i: nat, j: nat)
    requires i < j < |ys| && ys[i] == ys[j]
    ensures multiset(ys)[ys[i]] >= 2
  {
    assert ys == ys[..j] + [ys[j]] + ys[j + 1..];
    assert ys[..j][i] in multiset(ys[..j]);
  }

  lemma DistinctOfMultiset<T>(xs: seq<T>, ys: seq<T>)
    requires Distinct(xs) && multiset(xs) == multiset(ys)
    ensures Distinct(ys)
  {
    forall i, j | 0 <= i < j < |ys| ensures ys[i] != ys[j] {
      if ys[i] == ys[j] {
        DistinctCount(xs, ys[i]);
        RepeatCountsTwice(ys, i, j);
        assert false;
      }
    }
  }

  // ---- strings in byte order ----

  predicate LexLe(a: string, b: string) {
    if a == "" then true
    else if b == "" then false
    else if a[0] != b[0] then a[0] < b[0]
    else LexLe(a[1..], b[1..])
  }

  lemma {:induction false} LexTotal(a: string, b: string)
    ensures LexLe(a, b) || LexLe(b, a)
    ensures LexLe(a, b) && LexLe(b, a) ==> a == b
  {
    if a == "" || b == "" || a[0] != b[0] {
    } else {
      LexTotal(a[1..], b[1..]);
      assert a == [a[0]] + a[1..] && b == [b[0]] + b[1..];
    }
  }

  lemma {:induction false} LexTransitive(a: string, b: string, c: string)
    requires LexLe(a, b) && LexLe(b, c)
    ensures LexLe(a, c)
  {
    if a == "" || b == "" || c == "" || a[0] != b[0] || b[0] != c[0] {
    } else {
      LexTransitive(a[1..], b[1..], c[1..]);
    }
  }

  /** a comes first exactly when it is a prefix of b, or smaller where they first differ. */
  lemma {:induction false} LexIsByteOrder(a: string, b: string)
    ensures LexLe(a, b) <==> a <= b || exists i: nat :: DiffersAt(a, b, i) && a[i] < b[i]
  {
    if a == "" || b == "" {
    } else if a[0] != b[0] {
      assert DiffersAt(a, b, 0);
      forall i: nat | DiffersAt(a, b, i) ensures i == 0 {
        if i > 0 {
          DiffersFirst(a, b, i);
        }
      }
    } else {
      LexIsByteOrder(a[1..], b[1..]);
      assert a <= b <==> a[1..] <= b[1..] by {
        assert a == [a[0]] + a[1..] && b == [b[0]] + b[1..];
      }
      forall i: nat ensures DiffersAt(a[1..], b[1..], i) <==> DiffersAt(a, b, i + 1) {
        DiffersShift(a, b, i);
      }
      if i: nat :| DiffersAt(a, b, i) && a[i] < b[i] {
        assert DiffersAt(a[1..], b[1..], i - 1);
      }
      if i: nat :| DiffersAt(a[1..], b[1..], i) && a[1..][i] < b[1..][i] {
        assert DiffersAt(a, b, i + 1);
      }
    }
  }

  ghost predicate DiffersAt(a: string, b: string, i: nat) {
    i < |a| && i < |b| && a[..i] == b[..i] && a[i] != b[i]
  }

  lemma DiffersFirst(a: string, b: string, i: nat)
    requires DiffersAt(a, b, i) && i > 0
    ensures a != "" && b != "" && a[0] == b[0]
  {
    assert a[0] == a[..i][0] && b[0] == b[..i][0];
  }

  lemma DiffersShift(a: string, b: string, i: nat)
    requires a != "" && b != "" && a[0] == b[0]
    ensures DiffersAt(a[1..], b[1..], i) <==> DiffersAt(a, b, i + 1)
  {
    if i + 1 <= |a| && i + 1 <= |b| {
      assert a[..i + 1] == [a[0]] + a[1..][..i] && b[..i + 1] == [b[0]] + b[1..][..i];
    }
  }

  lemma LexIsTotalPreorder()
    ensures TotalPreorder(LexLe)
  {
    forall a, b ensures LexLe(a, b) || LexLe(b, a) {
      LexTotal(a, b);
    }
    forall a, b, c | LexLe(a, b) && LexLe(b, c) ensures LexLe(a, c) {
      LexTransitive(a, b, c);
    }
  }
}
