/** The stable sort the runtime provides: equal elements keep the order they came in. */
module Sorting {
  import opened Basics

  ghost predicate TotalPreorder<T(!new)>(le: (T, T) -> bool) {
    && (forall x, y :: le(x, y) || le(y, x))
    && (forall x, y, z :: le(x, y) && le(y, z) ==> le(x, z))
  }

  ghost predicate Sorted<T>(xs: seq<T>, le: (T, T) -> bool) {
    forall i, j :: 0 <= i < j < |xs| ==> le(xs[i], xs[j])
  }

  /** `x` placed after every element it does not precede. */
  function Insert<T>(xs: seq<T>, x: T, le: (T, T) -> bool): seq<T> {
    if xs == [] || le(xs[|xs| - 1], x) then xs + [x]
    else Insert(xs[..|xs| - 1], x, le) + [xs[|xs| - 1]]
  }

  function StableSort<T>(xs: seq<T>, le: (T, T) -> bool): seq<T> {
    if xs == [] then [] else Insert(StableSort(xs[..|xs| - 1], le), xs[|xs| - 1], le)
  }

  lemma {:induction false} InsertKeeps<T>(xs: seq<T>, x: T, le: (T, T) -> bool)
    ensures multiset(Insert(xs, x, le)) == multiset(xs) + multiset{x}
  {
    if xs == [] || le(xs[|xs| - 1], x) {
    } else {
      InsertKeeps(xs[..|xs| - 1], x, le);
      assert xs == xs[..|xs| - 1] + [xs[|xs| - 1]];
    }
  }

  lemma {:induction false} InsertSorted<T(!new)>(xs: seq<T>, x: T, le: (T, T) -> bool)
    requires TotalPreorder(le) && Sorted(xs, le)
    ensures Sorted(Insert(xs, x, le), le)
  {
    if xs == [] || le(xs[|xs| - 1], x) {
    } else {
      var front, last := xs[..|xs| - 1], xs[|xs| - 1];
      InsertSorted(front, x, le);
      InsertKeeps(front, x, le);
      var s := Insert(front, x, le);
      forall i | 0 <= i < |s|
        ensures le(s[i], last)
      {
        assert s[i] in multiset(s);
        assert s[i] in front || s[i] == x;
      }
    }
  }

  lemma {:induction false} LastCounted<T>(xs: seq<T>)
    requires xs != []
    ensures multiset(xs) == multiset(xs[..|xs| - 1]) + multiset{xs[|xs| - 1]}
  {
    assert xs == xs[..|xs| - 1] + [xs[|xs| - 1]];
  }

  /** The sort only reorders, and its result is in order. */
  lemma {:induction false} SortCorrect<T(!new)>(xs: seq<T>, le: (T, T) -> bool)
    requires TotalPreorder(le)
    ensures multiset(StableSort(xs, le)) == multiset(xs)
    ensures Sorted(StableSort(xs, le), le)
  {
    if xs == [] {
    } else {
      var front, last := xs[..|xs| - 1], xs[|xs| - 1];
      var sorted := StableSort(front, le);
      assert StableSort(xs, le) == Insert(sorted, last, le);
      hide *;
      SortCorrect(front, le);
      InsertKeeps(sorted, last, le);
      InsertSorted(sorted, last, le);
      LastCounted(xs);
    }
  }

  /** The elements with `p`, in the order they come. */
  function Where<T>(xs: seq<T>, p: T -> bool): seq<T> {
    if xs == [] then []
    else
      var x := xs[|xs| - 1];
      Where(xs[..|xs| - 1], p) + (if p(x) then [x] else [])
  }

  lemma {:induction false} WhereOneMore<T>(xs: seq<T>, x: T, p: T -> bool)
    ensures Where(xs + [x], p) == Where(xs, p) + (if p(x) then [x] else [])
  {
    assert (xs + [x])[..|xs|] == xs;
  }

  lemma {:induction false} InsertedWhere<T(!new)>(xs: seq<T>, x: T, p: T -> bool, le: (T, T) -> bool)
    requires forall y, z :: p(y) && p(z) ==> le(y, z)
    ensures Where(Insert(xs, x, le), p) == Where(xs, p) + (if p(x) then [x] else [])
  {
    hide Where;
    if xs == [] || le(xs[|xs| - 1], x) {
      WhereOneMore(xs, x, p);
    } else {
      var front, last := xs[..|xs| - 1], xs[|xs| - 1];
      InsertedWhere(front, x, p, le);
      WhereOneMore(Insert(front, x, le), last, p);
      WhereOneMore(front, last, p);
      assert xs == front + [last];
    }
  }

  /** The sort is stable: elements that may come in either order keep the one they came in. */
  lemma {:induction false} SortStable<T(!new)>(xs: seq<T>, p: T -> bool, le: (T, T) -> bool)
    requires forall y, z :: p(y) && p(z) ==> le(y, z)
    ensures Where(StableSort(xs, le), p) == Where(xs, p)
  {
    if xs == [] {
    } else {
      var front, last := xs[..|xs| - 1], xs[|xs| - 1];
      SortStable(front, p, le);
      InsertedWhere(StableSort(front, le), last, p, le);
    }
  }

  // ---- Reading a sorted list to its end ----

  function LastWhere<T>(xs: seq<T>, p: T -> bool): Option<T> {
    if xs == [] then None
    else if p(xs[|xs| - 1]) then Some(xs[|xs| - 1])
    else LastWhere(xs[..|xs| - 1], p)
  }

  /** The element that comes last in order among those with `p`, the one listed last among equals. */
  function BestWhere<T>(xs: seq<T>, p: T -> bool, le: (T, T) -> bool): Option<T> {
    if xs == [] then None
    else
      var x, rest := xs[|xs| - 1], BestWhere(xs[..|xs| - 1], p, le);
      if p(x) && (rest.None? || le(rest.value, x)) then Some(x) else rest
  }

  lemma {:induction false} LastWhereListed<T>(xs: seq<T>, p: T -> bool)
    ensures LastWhere(xs, p).Some? ==> LastWhere(xs, p).value in xs && p(LastWhere(xs, p).value)
    ensures LastWhere(xs, p).None? <==> forall x :: x in xs ==> !p(x)
  {
    if xs == [] {
    } else {
      LastWhereListed(xs[..|xs| - 1], p);
      assert xs == xs[..|xs| - 1] + [xs[|xs| - 1]];
    }
  }

  /** The best has `p`, is in the list, and nothing there with `p` comes after it. */
  lemma {:induction false} BestIsBest<T(!new)>(xs: seq<T>, p: T -> bool, le: (T, T) -> bool)
    requires TotalPreorder(le)
    ensures BestWhere(xs, p, le).None? ==> forall x :: x in xs ==> !p(x)
    ensures var best := BestWhere(xs, p, le);
            best.Some? ==> best.value in xs && p(best.value) && forall x :: x in xs && p(x) ==> le(x, best.value)
  {
    if xs == [] {
    } else {
      BestIsBest(xs[..|xs| - 1], p, le);
      assert xs == xs[..|xs| - 1] + [xs[|xs| - 1]];
    }
  }

  lemma {:induction false} InsertedLast<T(!new)>(xs: seq<T>, x: T, p: T -> bool, le: (T, T) -> bool)
    requires TotalPreorder(le) && Sorted(xs, le)
    ensures var best := LastWhere(xs, p);
            LastWhere(Insert(xs, x, le), p)
            == if p(x) && (best.None? || le(best.value, x)) then Some(x) else best
  {
    var n := |xs| - 1;
    LastWhereListed(xs, p);
    if xs == [] || le(xs[n], x) {
      assert (xs + [x])[..|xs|] == xs;
    } else {
      InsertedLast(xs[..n], x, p, le);
      var s := Insert(xs[..n], x, le);
      assert (s + [xs[n]])[..|s|] == s;
    }
  }

  /** The last element with `p` in the sorted list is the best in the list as it came. */
  lemma {:induction false} SortedLastIsBest<T(!new)>(xs: seq<T>, p: T -> bool, le: (T, T) -> bool)
    requires TotalPreorder(le)
    ensures LastWhere(StableSort(xs, le), p) == BestWhere(xs, p, le)
  {
    if xs == [] {
    } else {
      var front, last := xs[..|xs| - 1], xs[|xs| - 1];
      SortedLastIsBest(front, p, le);
      SortCorrect(front, le);
      InsertedLast(StableSort(front, le), last, p, le);
    }
  }
}
