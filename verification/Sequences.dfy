/** Filtering and stable sorting of sequences: Python's list comprehensions with a
    condition and its built-in `sorted(..., key=...)`. */
module Sequences {

  function Filter<T>(p: T -> bool, xs: seq<T>): seq<T> {
    if xs == [] then []
    else if p(xs[|xs| - 1]) then Filter(p, xs[..|xs| - 1]) + [xs[|xs| - 1]]
    else Filter(p, xs[..|xs| - 1])
  }

  lemma ConcatAssociates<T>(a: seq<T>, b: seq<T>, c: seq<T>)
    ensures a + b + c == a + (b + c)
  {
  }

  lemma ConcatNothing<T>(a: seq<T>)
    ensures a + [] == a && [] + a == a
  {
  }

  lemma FilterSnoc<T>(p: T -> bool, xs: seq<T>, x: T)
    ensures Filter(p, xs + [x]) == if p(x) then Filter(p, xs) + [x] else Filter(p, xs)
  {
    assert (xs + [x])[..|xs|] == xs;
  }

  lemma {:induction false} FilterMembers<T(!new)>(p: T -> bool, xs: seq<T>)
    ensures forall x :: x in Filter(p, xs) <==> x in xs && p(x)
  {
    if xs != [] {
      var front, last := xs[..|xs| - 1], xs[|xs| - 1];
      FilterMembers(p, front);
      assert xs == front + [last];
    }
  }

  lemma FilterNothing<T>(p: T -> bool)
    ensures Filter(p, []) == []
  {
  }

  lemma {:induction false} FilterAppend<T>(p: T -> bool, xs: seq<T>, ys: seq<T>)
    ensures Filter(p, xs + ys) == Filter(p, xs) + Filter(p, ys)
  {
    hide Filter;
    if ys == [] {
      FilterNothing(p);
      ConcatNothing(xs);
      ConcatNothing(Filter(p, xs));
    } else {
      var front, last := ys[..|ys| - 1], ys[|ys| - 1];
      FilterAppend(p, xs, front);
      FilterSnoc(p, xs + front, last);
      FilterSnoc(p, front, last);
      assert ys == front + [last];
      ConcatAssociates(xs, front, [last]);
      ConcatAssociates(Filter(p, xs), Filter(p, front), [last]);
    }
  }

  /** Filtering twice is filtering by the conjunction. */
  lemma {:induction false} FilterCompose<T(!new)>(p: T -> bool, q: T -> bool, r: T -> bool, xs: seq<T>)
    requires forall x :: r(x) <==> p(x) && q(x)
    ensures Filter(q, Filter(p, xs)) == Filter(r, xs)
  {
    if xs != [] {
      var front, last := xs[..|xs| - 1], xs[|xs| - 1];
      FilterCompose(p, q, r, front);
      FilterSnoc(q, Filter(p, front), last);
    }
  }

  lemma SubsetSize<T>(a: set<T>, b: set<T>)
    requires a <= b
    ensures |a| <= |b|
  {
    assert |b - a| + |b * a| == |b| && b * a == a;
  }

  lemma FilterOnlyLast<T>(p: T -> bool, xs: seq<T>, last: T)
    requires (forall x | x in xs :: !p(x)) && p(last)
    ensures Filter(p, xs + [last]) == [last]
  {
    hide Filter;
    FilterNone(p, xs);
    FilterSnoc(p, xs, last);
    ConcatNothing([last]);
  }

  lemma FilterOne<T>(p: T -> bool, x: T)
    ensures Filter(p, [x]) == if p(x) then [x] else []
  {
    assert [] + [x] == [x];
    FilterSnoc(p, [], x);
  }

  lemma {:induction false} FilterAll<T>(p: T -> bool, xs: seq<T>)
    requires forall x | x in xs :: p(x)
    ensures Filter(p, xs) == xs
  {
    if xs != [] {
      assert xs[|xs| - 1] in xs;
      FilterAll(p, xs[..|xs| - 1]);
    }
  }

  lemma {:induction false} FilterNone<T>(p: T -> bool, xs: seq<T>)
    requires forall x | x in xs :: !p(x)
    ensures Filter(p, xs) == []
  {
    if xs != [] {
      FilterNone(p, xs[..|xs| - 1]);
    }
  }

  /** Filtering changes nothing iff everything passes, and that shows in the length. */
  lemma {:induction false} FilterIsAll<T>(p: T -> bool, xs: seq<T>)
    ensures |Filter(p, xs)| <= |xs|
    ensures |Filter(p, xs)| == |xs| <==> Filter(p, xs) == xs
    ensures Filter(p, xs) == xs <==> forall x | x in xs :: p(x)
  {
    if xs != [] {
      var front, last := xs[..|xs| - 1], xs[|xs| - 1];
      assert xs == front + [last];
      FilterIsAll(p, front);
    }
  }

  lemma {:induction false} FilterFirst<T>(p: T -> bool, xs: seq<T>)
    requires xs != [] && p(xs[0])
    ensures Filter(p, xs) != [] && Filter(p, xs)[0] == xs[0]
  {
    if |xs| > 1 {
      FilterFirst(p, xs[..|xs| - 1]);
    }
  }

  lemma {:induction false} FilterAgree<T>(p: T -> bool, q: T -> bool, xs: seq<T>)
    requires forall x | x in xs :: p(x) == q(x)
    ensures Filter(p, xs) == Filter(q, xs)
  {
    if xs != [] {
      assert xs[|xs| - 1] in xs;
      FilterAgree(p, q, xs[..|xs| - 1]);
    }
  }

  lemma {:induction false} FilterMultiset<T>(p: T -> bool, xs: seq<T>, x: T)
    ensures multiset(Filter(p, xs))[x] == if p(x) then multiset(xs)[x] else 0
  {
    if xs != [] {
      var front, last := xs[..|xs| - 1], xs[|xs| - 1];
      FilterMultiset(p, front, x);
      assert xs == front + [last];
    }
  }

  /** Filtering respects permutation. */
  lemma FilterPermutation<T(!new)>(p: T -> bool, xs: seq<T>, ys: seq<T>)
    requires multiset(xs) == multiset(ys)
    ensures multiset(Filter(p, xs)) == multiset(Filter(p, ys))
  {
    forall x: T
      ensures multiset(Filter(p, xs))[x] == multiset(Filter(p, ys))[x]
    {
      FilterMultiset(p, xs, x);
      FilterMultiset(p, ys, x);
    }
  }

  // ---------------------------------------------------------------------------
  // Places
  // ---------------------------------------------------------------------------

  ghost predicate Increasing(ks: seq<nat>) {
    forall a, b | 0 <= a < b < |ks| :: ks[a] < ks[b]
  }

  ghost predicate AllDifferent<T>(xs: seq<T>) {
    forall a, b | 0 <= a < b < |xs| :: xs[a] != xs[b]
  }

  /** The places of the elements that pass, in order. */
  function Places<T>(p: T -> bool, xs: seq<T>): seq<nat> {
    if xs == [] then []
    else
      var front := Places(p, xs[..|xs| - 1]);
      if p(xs[|xs| - 1]) then front + [|xs| - 1] else front
  }

  lemma OnePlaceMore(at: seq<nat>, n: nat)
    requires Increasing(at) && forall k | k in at :: k < n
    ensures Increasing(at + [n]) && forall k: nat :: k in at + [n] <==> k in at || k == n
  {
    assert forall j | 0 <= j < |at| :: at[j] in at;
  }

  lemma {:induction false} PlacesAreThose<T>(p: T -> bool, xs: seq<T>)
    ensures Increasing(Places(p, xs)) && forall k: nat :: k in Places(p, xs) <==> k < |xs| && p(xs[k])
  {
    if xs != [] {
      hide Increasing;
      var n := |xs| - 1;
      var front := Places(p, xs[..n]);
      PlacesAreThose(p, xs[..n]);
      OnePlaceMore(front, n);
      assert forall k: nat | k < n :: xs[..n][k] == xs[k];
    }
  }

  lemma {:induction false} FilteredStandThere<T>(p: T -> bool, xs: seq<T>)
    ensures var ks := Places(p, xs);
            |ks| == |Filter(p, xs)| && forall j | 0 <= j < |ks| :: ks[j] < |xs| && Filter(p, xs)[j] == xs[ks[j]]
  {
    if xs != [] {
      FilteredStandThere(p, xs[..|xs| - 1]);
    }
  }

  /** A filter keeps what passes, all of it, in the order in which it stands. */
  lemma FilterByPlaces<T>(p: T -> bool, xs: seq<T>)
    ensures var ks := Places(p, xs);
            && Increasing(ks) && (forall k: nat :: k in ks <==> k < |xs| && p(xs[k]))
            && |ks| == |Filter(p, xs)| && forall j | 0 <= j < |ks| :: ks[j] < |xs| && Filter(p, xs)[j] == xs[ks[j]]
  {
    hide Places, Filter, Increasing;
    PlacesAreThose(p, xs);
    FilteredStandThere(p, xs);
  }

  /** As many different values fit into a set as it has members. */
  lemma {:induction false} DifferentFit<T>(xs: seq<T>, s: set<T>)
    requires AllDifferent(xs) && forall x | x in xs :: x in s
    ensures |xs| <= |s|
  {
    if xs != [] {
      var front, last := xs[..|xs| - 1], xs[|xs| - 1];
      assert last in xs && last !in front;
      DifferentFit(front, s - {last});
    }
  }

  lemma {:induction false} Listed<T>(s: set<T>) returns (xs: seq<T>)
    ensures AllDifferent(xs) && |xs| == |s| && forall x :: x in xs <==> x in s
    decreases |s|
  {
    if s == {} {
      xs := [];
    } else {
      var x :| x in s;
      var rest := Listed(s - {x});
      xs := rest + [x];
    }
  }

  /** So many elements pass iff there are so many different places where one does. */
  lemma ManyPass<T>(p: T -> bool, xs: seq<T>, n: int)
    ensures |Filter(p, xs)| >= n <==> exists ks: seq<nat> :: |ks| >= n && PassAt(p, xs, ks) && AllDifferent(ks)
  {
    hide Filter;
    FilterByPlaces(p, xs);
    var places := Places(p, xs);
    assert PassAt(p, xs, places) && AllDifferent(places);
    if ks: seq<nat> :| |ks| >= n && PassAt(p, xs, ks) && AllDifferent(ks) {
      var s := set k | k in places;
      DifferentFit(ks, s);
      SetOfPlaces(places, s);
    }
  }

  lemma {:induction false} SetOfPlaces<T>(xs: seq<T>, s: set<T>)
    requires s == set x | x in xs
    ensures |s| <= |xs|
  {
    if xs == [] {
      assert s == {};
    } else {
      var front, last := xs[..|xs| - 1], xs[|xs| - 1];
      var rest := set x | x in front;
      assert xs == front + [last];
      SetOfPlaces(front, rest);
      assert s == rest + {last};
    }
  }

  ghost predicate PassAt<T>(p: T -> bool, xs: seq<T>, ks: seq<nat>) {
    forall a | 0 <= a < |ks| :: ks[a] < |xs| && p(xs[ks[a]])
  }

  ghost predicate DifferAt<T, V>(value: T -> V, xs: seq<T>, ks: seq<nat>)
    requires forall a | 0 <= a < |ks| :: ks[a] < |xs|
  {
    forall a, b | 0 <= a < b < |ks| :: value(xs[ks[a]]) != value(xs[ks[b]])
  }

  /** What passes shows so many values iff there are so many places with different ones. */
  lemma ManyValues<T(!new), V(!new)>(p: T -> bool, xs: seq<T>, value: T -> V, values: set<V>, n: int)
    requires forall v :: v in values <==> exists x :: x in xs && p(x) && value(x) == v
    ensures |values| >= n <==> exists ks: seq<nat> :: |ks| >= n && PassAt(p, xs, ks) && DifferAt(value, xs, ks)
  {
    var vs := Listed(values);
    var found := PlacesOfValues(p, xs, value, vs);
    if |values| >= n {
      assert |found| >= n && PassAt(p, xs, found) && DifferAt(value, xs, found);
    }
    if ks: seq<nat> :| |ks| >= n && PassAt(p, xs, ks) && DifferAt(value, xs, ks) {
      var shown := seq(|ks|, j requires 0 <= j < |ks| => value(xs[ks[j]]));
      forall v | v in shown
        ensures v in values
      {
        var j :| 0 <= j < |shown| && shown[j] == v;
        assert xs[ks[j]] in xs;
      }
      DifferentFit(shown, values);
    }
  }

  lemma {:induction false} PlacesOfValues<T(!new), V>(p: T -> bool, xs: seq<T>, value: T -> V, vs: seq<V>)
    returns (ks: seq<nat>)
    requires AllDifferent(vs) && forall v | v in vs :: exists x :: x in xs && p(x) && value(x) == v
    ensures |ks| == |vs| && PassAt(p, xs, ks)
    ensures forall j | 0 <= j < |ks| :: ks[j] < |xs| && value(xs[ks[j]]) == vs[j]
    ensures DifferAt(value, xs, ks)
  {
    ks := [];
    if vs != [] {
      var front, last := vs[..|vs| - 1], vs[|vs| - 1];
      assert vs == front + [last] && last in vs && forall v | v in front :: v in vs;
      var before := PlacesOfValues(p, xs, value, front);
      var x :| x in xs && p(x) && value(x) == last;
      var k: nat :| k < |xs| && xs[k] == x;
      ks := before + [k];
    }
  }

  // ---------------------------------------------------------------------------
  // Pieces
  // ---------------------------------------------------------------------------

  /** `all` is cut into these parts, in this order. */
  ghost predicate Pieces<T>(all: seq<T>, parts: seq<seq<T>>) {
    exists cuts: seq<nat> :: CutAt(all, parts, cuts)
  }

  ghost predicate CutAt<T>(all: seq<T>, parts: seq<seq<T>>, cuts: seq<nat>) {
    && |cuts| == |parts| + 1 && cuts[0] == 0 && cuts[|parts|] == |all|
    && forall k | 0 <= k < |parts| :: Piece(all, cuts[k], cuts[k + 1], parts[k])
  }

  ghost predicate Piece<T>(all: seq<T>, from: nat, to: nat, part: seq<T>) {
    from <= to <= |all| && all[from..to] == part
  }

  /** `total` is the sum of these numbers. */
  ghost predicate AddsUp(total: int, ns: seq<int>) {
    exists sums: seq<int> :: RunningSums(total, ns, sums)
  }

  ghost predicate RunningSums(total: int, ns: seq<int>, sums: seq<int>) {
    && |sums| == |ns| + 1 && sums[0] == 0 && sums[|ns|] == total
    && forall k | 0 <= k < |ns| :: sums[k + 1] == sums[k] + ns[k]
  }

  lemma NoPieces<T>()
    ensures Pieces<T>([], [])
  {
    assert CutAt<T>([], [], [0]);
  }

  lemma OnePieceMore<T>(all: seq<T>, parts: seq<seq<T>>, last: seq<T>)
    requires Pieces(all, parts)
    ensures Pieces(all + last, parts + [last])
  {
    var cuts: seq<nat> :| CutAt(all, parts, cuts);
    forall k | 0 <= k < |parts|
      ensures Piece(all + last, cuts[k], cuts[k + 1], parts[k])
    {
      assert Piece(all, cuts[k], cuts[k + 1], parts[k]);
      assert (all + last)[cuts[k]..cuts[k + 1]] == all[cuts[k]..cuts[k + 1]];
    }
    assert (all + last)[|all|..|all + last|] == last;
    assert CutAt(all + last, parts + [last], cuts + [|all + last|]);
  }

  /** The members are those of the parts. */
  lemma {:induction false} MembersOfPieces<T(!new)>(all: seq<T>, parts: seq<seq<T>>)
    requires Pieces(all, parts)
    ensures forall x :: x in all <==> exists k | 0 <= k < |parts| :: x in parts[k]
    decreases |parts|
  {
    var cuts: seq<nat> :| CutAt(all, parts, cuts);
    if parts != [] {
      hide CutAt, Pieces;
      var n := |parts| - 1;
      FrontPieces(all, parts, cuts);
      MembersOfPieces(all[..cuts[n]], parts[..n]);
      forall x
        ensures x in all <==> exists k | 0 <= k < |parts| :: x in parts[k]
      {
        InSomePart(parts, x);
      }
    }
  }

  lemma InSomePart<T>(parts: seq<seq<T>>, x: T)
    requires parts != []
    ensures var n := |parts| - 1;
            (exists k | 0 <= k < |parts| :: x in parts[k])
            <==> (exists k | 0 <= k < n :: x in parts[..n][k]) || x in parts[n]
  {
    var n := |parts| - 1;
    if k :| 0 <= k < |parts| && x in parts[k] {
      assert k < n ==> x in parts[..n][k];
    }
    if k :| 0 <= k < n && x in parts[..n][k] {
      assert x in parts[k];
    }
  }

  lemma FrontPieces<T>(all: seq<T>, parts: seq<seq<T>>, cuts: seq<nat>)
    requires parts != [] && CutAt(all, parts, cuts)
    ensures |cuts| == |parts| + 1 && cuts[|parts| - 1] <= |all|
    ensures Pieces(all[..cuts[|parts| - 1]], parts[..|parts| - 1])
    ensures all == all[..cuts[|parts| - 1]] + parts[|parts| - 1]
  {
    var n := |parts| - 1;
    assert Piece(all, cuts[n], cuts[n + 1], parts[n]);
    CutsClimb(all, parts, cuts, n);
    var front := all[..cuts[n]];
    forall k | 0 <= k < n
      ensures Piece(front, cuts[k], cuts[k + 1], parts[k])
    {
      assert Piece(all, cuts[k], cuts[k + 1], parts[k]) && cuts[k + 1] <= cuts[n];
      assert front[cuts[k]..cuts[k + 1]] == all[cuts[k]..cuts[k + 1]];
    }
    assert CutAt(front, parts[..n], cuts[..n + 1]);
  }

  lemma {:induction false} CutsClimb<T>(all: seq<T>, parts: seq<seq<T>>, cuts: seq<nat>, n: nat)
    requires CutAt(all, parts, cuts) && n <= |parts|
    ensures forall k | 0 <= k <= n :: cuts[k] <= cuts[n]
  {
    if n > 0 {
      CutsClimb(all, parts, cuts, n - 1);
      assert Piece(all, cuts[n - 1], cuts[n - 1 + 1], parts[n - 1]);
    }
  }

  lemma AddsUpToNothing()
    ensures AddsUp(0, [])
  {
    assert RunningSums(0, [], [0]);
  }

  lemma OneNumberMore(total: int, ns: seq<int>, n: int)
    requires AddsUp(total, ns)
    ensures AddsUp(total + n, ns + [n])
  {
    var sums :| RunningSums(total, ns, sums);
    assert RunningSums(total + n, ns + [n], sums + [total + n]);
  }

  // ---------------------------------------------------------------------------
  // Stable sorting
  // ---------------------------------------------------------------------------

  ghost predicate IsSorted<T>(key: T -> int, xs: seq<T>) {
    forall i, j | 0 <= i < j < |xs| :: key(xs[i]) <= key(xs[j])
  }

  /** Inserts `x` after every element whose key does not exceed its own. */
  function Insert<T>(key: T -> int, xs: seq<T>, x: T): (r: seq<T>)
    ensures |r| == |xs| + 1
  {
    if xs == [] || key(xs[|xs| - 1]) <= key(x) then xs + [x]
    else Insert(key, xs[..|xs| - 1], x) + [xs[|xs| - 1]]
  }

  function Sort<T>(key: T -> int, xs: seq<T>): (r: seq<T>)
    ensures |r| == |xs|
  {
    if xs == [] then [] else Insert(key, Sort(key, xs[..|xs| - 1]), xs[|xs| - 1])
  }

  /** What is kept is sorted if the kept elements were in order among themselves. */
  lemma {:induction false} FilterOrdered<T(!new)>(key: T -> int, p: T -> bool, xs: seq<T>)
    requires forall i, j | 0 <= i < j < |xs| && p(xs[i]) && p(xs[j]) :: key(xs[i]) <= key(xs[j])
    ensures IsSorted(key, Filter(p, xs))
  {
    if xs != [] {
      var front, last := xs[..|xs| - 1], xs[|xs| - 1];
      FilterOrdered(key, p, front);
      FilterMembers(p, front);
      var kept := Filter(p, front);
      forall i | 0 <= i < |kept| && p(last)
        ensures key(kept[i]) <= key(last)
      {
        assert kept[i] in front && p(kept[i]);
        var j :| 0 <= j < |front| && front[j] == kept[i];
        assert xs[j] == kept[i] && xs[|xs| - 1] == last;
      }
    }
  }

  lemma {:induction false} InsertMultiset<T>(key: T -> int, xs: seq<T>, x: T)
    ensures multiset(Insert(key, xs, x)) == multiset(xs) + multiset{x}
  {
    if xs != [] && key(x) < key(xs[|xs| - 1]) {
      InsertMultiset(key, xs[..|xs| - 1], x);
      assert xs == xs[..|xs| - 1] + [xs[|xs| - 1]];
    }
  }

  lemma {:induction false} InsertSorted<T>(key: T -> int, xs: seq<T>, x: T)
    requires IsSorted(key, xs)
    ensures IsSorted(key, Insert(key, xs, x))
  {
    if xs != [] && key(x) < key(xs[|xs| - 1]) {
      var front, last := xs[..|xs| - 1], xs[|xs| - 1];
      InsertSorted(key, front, x);
      InsertMultiset(key, front, x);
      var r := Insert(key, front, x);
      forall i | 0 <= i < |r|
        ensures key(r[i]) <= key(last)
      {
        assert r[i] in multiset(r);
        assert r[i] == x || r[i] in front;
      }
    }
  }

  lemma {:induction false} SortSorts<T>(key: T -> int, xs: seq<T>)
    ensures IsSorted(key, Sort(key, xs))
    ensures multiset(Sort(key, xs)) == multiset(xs)
  {
    if xs != [] {
      var front, last := xs[..|xs| - 1], xs[|xs| - 1];
      SortSorts(key, front);
      InsertSorted(key, Sort(key, front), last);
      InsertMultiset(key, Sort(key, front), last);
      assert xs == front + [last];
    }
  }

  lemma SortMembers<T(!new)>(key: T -> int, xs: seq<T>)
    ensures forall x :: x in Sort(key, xs) <==> x in xs
  {
    SortSorts(key, xs);
    forall x
      ensures x in Sort(key, xs) <==> x in xs
    {
      assert x in multiset(Sort(key, xs)) <==> x in multiset(xs);
    }
  }

  lemma FilterInsertLast<T(!new)>(key: T -> int, p: T -> bool, xs: seq<T>, x: T)
    requires forall y | y in xs :: key(y) <= key(x)
    ensures Filter(p, xs + [x]) == if p(x) then Insert(key, Filter(p, xs), x) else Filter(p, xs)
  {
    FilterSnoc(p, xs, x);
    FilterMembers(p, xs);
    var kept := Filter(p, xs);
    if kept != [] {
      assert kept[|kept| - 1] in kept;
    }
  }

  lemma InsertBefore<T>(key: T -> int, xs: seq<T>, last: T, x: T)
    requires key(x) < key(last)
    ensures Insert(key, xs + [last], x) == Insert(key, xs, x) + [last]
  {
    assert (xs + [last])[..|xs|] == xs;
  }

  lemma {:induction false} FilterInsert<T(!new)>(key: T -> int, p: T -> bool, xs: seq<T>, x: T)
    requires IsSorted(key, xs)
    ensures Filter(p, Insert(key, xs, x)) == if p(x) then Insert(key, Filter(p, xs), x) else Filter(p, xs)
  {
    if xs == [] || key(xs[|xs| - 1]) <= key(x) {
      FilterInsertLast(key, p, xs, x);
    } else {
      var front, last := xs[..|xs| - 1], xs[|xs| - 1];
      FilterInsert(key, p, front, x);
      FilterSnoc(p, Insert(key, front, x), last);
      if p(last) {
        InsertBefore(key, Filter(p, front), last, x);
      }
    }
  }

  /** Sorting commutes with filtering. */
  lemma {:induction false} FilterSort<T(!new)>(key: T -> int, p: T -> bool, xs: seq<T>)
    ensures Filter(p, Sort(key, xs)) == Sort(key, Filter(p, xs))
  {
    if xs != [] {
      var front, last := xs[..|xs| - 1], xs[|xs| - 1];
      FilterSort(key, p, front);
      SortSorts(key, front);
      FilterInsert(key, p, Sort(key, front), last);
      if p(last) {
        assert (Filter(p, front) + [last])[..|Filter(p, front)|] == Filter(p, front);
      }
    }
  }

  lemma {:induction false} InsertAppend<T>(key: T -> int, xs: seq<T>, ys: seq<T>, y: T)
    requires forall x | x in xs :: key(x) <= key(y)
    ensures Insert(key, xs + ys, y) == xs + Insert(key, ys, y)
  {
    if ys == [] {
      assert xs + ys == xs;
    } else if key(y) < key(ys[|ys| - 1]) {
      assert (xs + ys)[..|xs + ys| - 1] == xs + ys[..|ys| - 1];
      InsertAppend(key, xs, ys[..|ys| - 1], y);
    }
  }

  /** Batches that do not go back in time may be sorted one at a time. */
  lemma {:induction false} SortAppend<T(!new)>(key: T -> int, xs: seq<T>, ys: seq<T>)
    requires forall x, y | x in xs && y in ys :: key(x) <= key(y)
    ensures Sort(key, xs + ys) == Sort(key, xs) + Sort(key, ys)
  {
    if ys == [] {
      assert xs + ys == xs;
    } else {
      var front, last := ys[..|ys| - 1], ys[|ys| - 1];
      assert (xs + ys)[..|xs + ys| - 1] == xs + front;
      SortAppend(key, xs, front);
      SortMembers(key, xs);
      InsertAppend(key, Sort(key, xs), Sort(key, front), last);
    }
  }

  function KeyIs<T>(key: T -> int, k: int): T -> bool {
    x => key(x) == k
  }

  /** Elements with equal keys keep their relative order. */
  lemma SortIsStable<T(!new)>(key: T -> int, xs: seq<T>, k: int)
    ensures Filter(KeyIs(key, k), Sort(key, xs)) == Filter(KeyIs(key, k), xs)
  {
    FilterSort(key, KeyIs(key, k), xs);
    FilterMembers(KeyIs(key, k), xs);
    SortOfEqualKeys(key, Filter(KeyIs(key, k), xs), k);
  }

  lemma {:induction false} SortOfEqualKeys<T>(key: T -> int, xs: seq<T>, k: int)
    requires forall x | x in xs :: key(x) == k
    ensures Sort(key, xs) == xs
  {
    if xs != [] {
      var front, last := xs[..|xs| - 1], xs[|xs| - 1];
      SortOfEqualKeys(key, front, k);
      assert last in xs;
      if front != [] {
        assert xs[|front| - 1] in xs;
      }
    }
  }

  /** `Sort` is the only function with the two properties Python documents for
      `sorted`: the result is ordered, and equal keys keep their order. */
  lemma {:induction false} StableSortIsUnique<T(!new)>(key: T -> int, xs: seq<T>, ys: seq<T>)
    requires IsSorted(key, ys)
    requires forall k :: Filter(KeyIs(key, k), ys) == Filter(KeyIs(key, k), xs)
    ensures ys == Sort(key, xs)
  {
    forall k
      ensures Filter(KeyIs(key, k), ys) == Filter(KeyIs(key, k), Sort(key, xs))
    {
      SortIsStable(key, xs, k);
    }
    SortSorts(key, xs);
    EqualByKeys(key, ys, Sort(key, xs));
  }

  lemma {:induction false} LastByKey<T(!new)>(key: T -> int, a: seq<T>, b: seq<T>)
    requires IsSorted(key, a) && IsSorted(key, b)
    requires forall k :: Filter(KeyIs(key, k), a) == Filter(KeyIs(key, k), b)
    requires a != []
    ensures b != [] && key(a[|a| - 1]) <= key(b[|b| - 1])
  {
    var x := a[|a| - 1];
    FilterMembers(KeyIs(key, key(x)), a);
    FilterMembers(KeyIs(key, key(x)), b);
    assert KeyIs(key, key(x))(x);
    assert x in Filter(KeyIs(key, key(x)), a);
    assert x in b;
    var i :| 0 <= i < |b| && b[i] == x;
    assert i == |b| - 1 || key(b[i]) <= key(b[|b| - 1]);
  }

  lemma {:induction false} EqualByKeys<T(!new)>(key: T -> int, a: seq<T>, b: seq<T>)
    requires IsSorted(key, a) && IsSorted(key, b)
    requires forall k :: Filter(KeyIs(key, k), a) == Filter(KeyIs(key, k), b)
    ensures a == b
    decreases |a|
  {
    if a == [] {
      if b != [] {
        LastByKey(key, b, a);
        assert false;
      }
    } else {
      LastByKey(key, a, b);
      LastByKey(key, b, a);
      var x, y := a[|a| - 1], b[|b| - 1];
      var k := key(x);
      assert KeyIs(key, k)(x) && KeyIs(key, k)(y);
      var fa, fb := Filter(KeyIs(key, k), a), Filter(KeyIs(key, k), b);
      assert fa[|fa| - 1] == x && fb[|fb| - 1] == y;
      forall k
        ensures Filter(KeyIs(key, k), a[..|a| - 1]) == Filter(KeyIs(key, k), b[..|b| - 1])
      {
        DropLastByKey(key, a, b, k);
      }
      EqualByKeys(key, a[..|a| - 1], b[..|b| - 1]);
      assert a == a[..|a| - 1] + [x] && b == b[..|b| - 1] + [y];
    }
  }

  lemma {:induction false} DropLastByKey<T>(key: T -> int, a: seq<T>, b: seq<T>, k: int)
    requires a != [] && b != [] && key(a[|a| - 1]) == key(b[|b| - 1])
    requires Filter(KeyIs(key, k), a) == Filter(KeyIs(key, k), b)
    ensures Filter(KeyIs(key, k), a[..|a| - 1]) == Filter(KeyIs(key, k), b[..|b| - 1])
  {
    var p := KeyIs(key, k);
    var fa, fb := Filter(p, a[..|a| - 1]), Filter(p, b[..|b| - 1]);
    if k == key(a[|a| - 1]) {
      assert (fa + [a[|a| - 1]])[..|fa|] == fa;
      assert (fb + [b[|b| - 1]])[..|fb|] == fb;
    }
  }

  /** The sort is decided by the order of the elements within each key. */
  lemma SortByKeys<T(!new)>(key: T -> int, xs: seq<T>, ys: seq<T>)
    ensures Sort(key, xs) == Sort(key, ys) <==> forall k :: Filter(KeyIs(key, k), xs) == Filter(KeyIs(key, k), ys)
  {
    hide Sort, Filter;
    forall k
      ensures Filter(KeyIs(key, k), Sort(key, xs)) == Filter(KeyIs(key, k), xs)
      ensures Filter(KeyIs(key, k), Sort(key, ys)) == Filter(KeyIs(key, k), ys)
    {
      SortIsStable(key, xs, k);
      SortIsStable(key, ys, k);
    }
    if forall k :: Filter(KeyIs(key, k), xs) == Filter(KeyIs(key, k), ys) {
      SortSorts(key, xs);
      StableSortIsUnique(key, ys, Sort(key, xs));
    }
  }

  lemma SortedAlready<T>(key: T -> int, x: T, y: T)
    requires key(x) <= key(y)
    ensures Sort(key, [x, y]) == [x, y]
  {
    assert [x, y][..1] == [x] && [x][..0] == [];
  }

  // ---------------------------------------------------------------------------
  // Permutations
  // ---------------------------------------------------------------------------

  lemma SameMembers<T(!new)>(xs: seq<T>, ys: seq<T>)
    requires multiset(xs) == multiset(ys)
    ensures forall x :: x in xs <==> x in ys
    ensures |xs| == |ys|
  {
    assert |multiset(xs)| == |multiset(ys)|;
    forall x
      ensures x in xs <==> x in ys
    {
      assert x in multiset(xs) <==> x in multiset(ys);
    }
  }

  function FlatMap<A, B>(f: A -> seq<B>, xs: seq<A>): seq<B> {
    if xs == [] then [] else FlatMap(f, xs[..|xs| - 1]) + f(xs[|xs| - 1])
  }

  function Images<A, B>(f: A -> B, xs: seq<A>): seq<B> {
    seq(|xs|, i requires 0 <= i < |xs| => f(xs[i]))
  }

  lemma {:induction false} FlatMapInPieces<A, B>(f: A -> seq<B>, xs: seq<A>)
    ensures Pieces(FlatMap(f, xs), Images(f, xs))
  {
    hide Pieces;
    if xs == [] {
      NoPieces<B>();
      assert Images(f, xs) == [];
    } else {
      var front, last := xs[..|xs| - 1], xs[|xs| - 1];
      FlatMapInPieces(f, front);
      OnePieceMore(FlatMap(f, front), Images(f, front), f(last));
      assert Images(f, xs) == Images(f, front) + [f(last)];
    }
  }

  lemma FlatMapMembers<A, B(!new)>(f: A -> seq<B>, xs: seq<A>)
    ensures forall y :: y in FlatMap(f, xs) <==> exists x :: x in xs && y in f(x)
  {
    hide Pieces, FlatMap;
    FlatMapInPieces(f, xs);
    MembersOfPieces(FlatMap(f, xs), Images(f, xs));
    forall y
      ensures y in FlatMap(f, xs) <==> exists x :: x in xs && y in f(x)
    {
      if k :| 0 <= k < |xs| && y in Images(f, xs)[k] {
        assert xs[k] in xs && y in f(xs[k]);
      }
      if x :| x in xs && y in f(x) {
        var k :| 0 <= k < |xs| && xs[k] == x;
        assert y in Images(f, xs)[k];
      }
    }
  }

  lemma {:induction false} FlatMapWithout<A, B>(f: A -> seq<B>, xs: seq<A>, k: nat)
    requires k < |xs|
    ensures multiset(FlatMap(f, xs)) == multiset(FlatMap(f, xs[..k] + xs[k + 1..])) + multiset(f(xs[k]))
  {
    var front, last := xs[..|xs| - 1], xs[|xs| - 1];
    if k == |xs| - 1 {
      assert xs[..k] + xs[k + 1..] == front;
    } else {
      FlatMapWithout(f, front, k);
      var rest := front[..k] + front[k + 1..];
      assert xs[..k] + xs[k + 1..] == rest + [last];
      assert (rest + [last])[..|rest|] == rest;
    }
  }

  lemma BagWithout<A>(xs: seq<A>, k: nat)
    requires k < |xs|
    ensures multiset(xs[..k] + xs[k + 1..]) == multiset(xs) - multiset{xs[k]}
  {
    assert xs == xs[..k] + [xs[k]] + xs[k + 1..];
  }

  lemma {:induction false} FlatMapPermutation<A(!new), B>(f: A -> seq<B>, xs: seq<A>, ys: seq<A>)
    requires multiset(xs) == multiset(ys)
    ensures multiset(FlatMap(f, xs)) == multiset(FlatMap(f, ys))
    decreases |xs|
  {
    if xs == [] {
      assert |multiset(ys)| == 0;
    } else {
      var front, last := xs[..|xs| - 1], xs[|xs| - 1];
      assert xs == front + [last];
      assert last in multiset(ys);
      var k :| 0 <= k < |ys| && ys[k] == last;
      BagWithout(ys, k);
      assert multiset(front) == multiset(xs) - multiset{last};
      FlatMapPermutation(f, front, ys[..k] + ys[k + 1..]);
      FlatMapWithout(f, ys, k);
    }
  }
}
