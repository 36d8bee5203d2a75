/** Keyset pagination: rows in an index order, taken a page at a time from after a cursor. */
module Keyset {
  import opened Common

  ghost predicate TotalOrder<T(!new)>(lt: (T, T) -> bool) {
    && (forall x :: !lt(x, x))
    && (forall x, y :: lt(x, y) || lt(y, x) || x == y)
    && (forall x, y, z :: lt(x, y) && lt(y, z) ==> lt(x, z))
  }

  ghost predicate Ascending<T>(s: seq<T>, lt: (T, T) -> bool) {
    forall i, j :: 0 <= i < j < |s| ==> lt(s[i], s[j])
  }

  ghost predicate IsLeast<T>(m: T, rows: set<T>, lt: (T, T) -> bool) {
    m in rows && forall x :: x in rows ==> x == m || lt(m, x)
  }

  lemma {:induction false} LeastExists<T(!new)>(rows: set<T>, lt: (T, T) -> bool)
    requires TotalOrder(lt) && rows != {}
    ensures exists m :: IsLeast(m, rows, lt)
    decreases rows
  {
    var x :| x in rows;
    if rows == {x} {
      assert IsLeast(x, rows, lt);
    } else {
      LeastExists(rows - {x}, lt);
      var rest :| IsLeast(rest, rows - {x}, lt);
      var m := if lt(x, rest) then x else rest;
      forall y | y in rows ensures y == m || lt(m, y) {
        assert y == x || y == rest || (lt(rest, y) && (lt(x, rest) ==> lt(x, y)));
      }
      assert IsLeast(m, rows, lt);
    }
  }

  ghost function Least<T(!new)>(rows: set<T>, lt: (T, T) -> bool): (m: T)
    requires TotalOrder(lt) && rows != {}
    ensures IsLeast(m, rows, lt)
  {
    LeastExists(rows, lt);
    var m :| IsLeast(m, rows, lt);
    m
  }

  /** The rows in index order. */
  ghost function Sorted<T(!new)>(rows: set<T>, lt: (T, T) -> bool): seq<T>
    requires TotalOrder(lt)
    decreases rows
  {
    if rows == {} then [] else [Least(rows, lt)] + Sorted(rows - {Least(rows, lt)}, lt)
  }

  lemma LeastInFront<T(!new)>(m: T, rest: seq<T>, lt: (T, T) -> bool)
    requires Ascending(rest, lt) && forall x :: x in Elements(rest) ==> lt(m, x)
    ensures Ascending([m] + rest, lt) && Elements([m] + rest) == {m} + Elements(rest)
  {
    assert forall i :: 0 <= i < |rest| ==> rest[i] in Elements(rest);
  }

  lemma {:induction false} SortedHolds<T(!new)>(rows: set<T>, lt: (T, T) -> bool)
    requires TotalOrder(lt)
    ensures Ascending(Sorted(rows, lt), lt) && Elements(Sorted(rows, lt)) == rows && |Sorted(rows, lt)| == |rows|
    decreases rows
  {
    if rows != {} {
      var m := Least(rows, lt);
      SortedHolds(rows - {m}, lt);
      LeastInFront(m, Sorted(rows - {m}, lt), lt);
    }
  }

  /** Ascending order and the same elements leave no choice. */
  lemma {:induction false} SortedIsUnique<T(!new)>(s: seq<T>, lt: (T, T) -> bool)
    requires TotalOrder(lt) && Ascending(s, lt)
    ensures s == Sorted(Elements(s), lt)
    decreases s
  {
    if s != [] {
      var rows := Elements(s);
      assert s[0] in rows;
      assert IsLeast(s[0], rows, lt);
      var m := Least(rows, lt);
      assert m == s[0];
      forall x ensures x in Elements(s[1..]) <==> x in rows - {m} {
        if x in rows - {m} {
          var i :| 0 <= i < |s| && s[i] == x;
          assert s[1..][i - 1] == x;
        }
      }
      assert Elements(s[1..]) == rows - {m};
      SortedIsUnique(s[1..], lt);
    }
  }

  function After<T>(rows: set<T>, cursor: Option<T>, lt: (T, T) -> bool): set<T> {
    set x | x in rows && (cursor.Some? ==> lt(cursor.value, x))
  }

  function AtMost(n: nat, m: nat): nat {
    if n < m then n else m
  }

  /** The query: the first `n` rows after the cursor, in index order. */
  ghost function Page<T(!new)>(rows: set<T>, cursor: Option<T>, n: nat, lt: (T, T) -> bool): seq<T>
    requires TotalOrder(lt)
  {
    var all := Sorted(After(rows, cursor, lt), lt);
    all[..AtMost(n, |all|)]
  }

  lemma SplitAscending<T(!new)>(s: seq<T>, n: nat, lt: (T, T) -> bool)
    requires TotalOrder(lt) && Ascending(s, lt) && 0 < n <= |s|
    ensures forall x :: x in s[n..] <==> x in s && lt(s[n - 1], x)
    ensures forall x :: x in s[..n] <==> x in s && !lt(s[n - 1], x)
  {
    forall x | x in s ensures x in s[n..] <==> lt(s[n - 1], x) {
      var i :| 0 <= i < |s| && s[i] == x;
      if i >= n {
        assert s[n..][i - n] == x;
      }
    }
    forall x | x in s ensures x in s[..n] <==> !lt(s[n - 1], x) {
      var i :| 0 <= i < |s| && s[i] == x;
      if i < n {
        assert s[..n][i] == x;
      }
    }
  }

  // Taking the first `n` of the sorted rows leaves the rows after the last one taken.
  lemma SplitSorted<T(!new)>(here: set<T>, n: nat, lt: (T, T) -> bool)
    requires TotalOrder(lt) && 0 < n <= |Sorted(here, lt)|
    ensures var all := Sorted(here, lt); var rest := set x | x in here && lt(all[n - 1], x);
      all[n..] == Sorted(rest, lt) && Elements(all[..n]) == here - rest && all[n - 1] in here - rest
  {
    SortedHolds(here, lt);
    var all := Sorted(here, lt);
    assert forall x :: x in here <==> x in Elements(all);
    SplitAscending(all, n, lt);
    SortedIsUnique(all[n..], lt);
    assert Elements(all[n..]) == set x | x in here && lt(all[n - 1], x);
    assert all[n - 1] in all;
  }

  // A later cursor only takes rows away.
  lemma AfterLater<T(!new)>(rows: set<T>, cursor: Option<T>, last: T, lt: (T, T) -> bool)
    requires TotalOrder(lt) && last in After(rows, cursor, lt)
    ensures After(rows, Some(last), lt) == set x | x in After(rows, cursor, lt) && lt(last, x)
  {
    forall x | x in After(rows, Some(last), lt) ensures x in After(rows, cursor, lt) {
      assert cursor.Some? ==> lt(cursor.value, last) && lt(last, x);
    }
  }

  /** What is left after the first `n` sorted rows is what lies after the last of them. */
  lemma RestIsAfterLast<T(!new)>(rows: set<T>, cursor: Option<T>, n: nat, lt: (T, T) -> bool)
    requires TotalOrder(lt) && 0 < n <= |Sorted(After(rows, cursor, lt), lt)|
    ensures var all := Sorted(After(rows, cursor, lt), lt); var rest := After(rows, Some(all[n - 1]), lt);
      && all == all[..n] + Sorted(rest, lt)
      && Elements(all[..n]) + rest == After(rows, cursor, lt) && Elements(all[..n]) !! rest
      && |rest| < |After(rows, cursor, lt)|
  {
    var here := After(rows, cursor, lt);
    var all := Sorted(here, lt);
    SplitSorted(here, n, lt);
    var last := all[n - 1];
    var rest := After(rows, Some(last), lt);
    AfterLater(rows, cursor, last, lt);
    assert all == all[..n] + all[n..];
    SmallerSet(rest, here - {last});
  }

  /** The rows a listing has passed once it stands at `cursor`. */
  function Seen<T>(rows: set<T>, cursor: Option<T>, lt: (T, T) -> bool): set<T> {
    rows - After(rows, cursor, lt)
  }

  lemma AscendingIsDistinct<T(!new)>(s: seq<T>, lt: (T, T) -> bool)
    requires TotalOrder(lt) && Ascending(s, lt)
    ensures |Elements(s)| == |s|
  {
    SortedIsUnique(s, lt);
    SortedHolds(Elements(s), lt);
  }

  lemma TakenFromLeft<T>(rows: set<T>, left: set<T>, taken: set<T>, rest: set<T>)
    requires left <= rows && taken + rest == left && taken !! rest
    ensures rows - rest == (rows - left) + taken && |rows - rest| == |rows - left| + |taken|
  {
    assert rows - rest == (rows - left) + taken;
  }

  // A page shorter than asked for is all there is.
  lemma ShortPage<T(!new)>(rows: set<T>, cursor: Option<T>, n: nat, lt: (T, T) -> bool)
    requires TotalOrder(lt) && |Page(rows, cursor, n, lt)| < n
    ensures Elements(Page(rows, cursor, n, lt)) == After(rows, cursor, lt)
  {
    var all := Sorted(After(rows, cursor, lt), lt);
    assert all[..|all|] == all;
    SortedHolds(After(rows, cursor, lt), lt);
  }

  lemma PageTakes<T(!new)>(rows: set<T>, cursor: Option<T>, n: nat, lt: (T, T) -> bool)
    requires TotalOrder(lt) && Page(rows, cursor, n, lt) != []
    ensures var page := Page(rows, cursor, n, lt); var rest := After(rows, Some(page[|page| - 1]), lt);
      && Elements(page) + rest == After(rows, cursor, lt) && Elements(page) !! rest
      && page[|page| - 1] in Elements(page) && |Elements(page)| == |page|
      && |rest| < |After(rows, cursor, lt)|
  {
    var all, page := Sorted(After(rows, cursor, lt), lt), Page(rows, cursor, n, lt);
    SortedHolds(After(rows, cursor, lt), lt);
    assert page == all[..|page|];
    RestIsAfterLast(rows, cursor, |page|, lt);
    AscendingIsDistinct(page, lt);
  }

  /** A page shorter than asked for shows that there is nothing after it. */
  lemma ShortPageIsLast<T(!new)>(rows: set<T>, cursor: Option<T>, n: nat, lt: (T, T) -> bool)
    requires TotalOrder(lt) && |Page(rows, cursor, n, lt)| < n
    ensures Seen(rows, cursor, lt) + Elements(Page(rows, cursor, n, lt)) == rows
  {
    ShortPage(rows, cursor, n, lt);
  }

  /** A page that is not empty adds just its own rows to those passed. */
  lemma PageAdvances<T(!new)>(rows: set<T>, cursor: Option<T>, n: nat, lt: (T, T) -> bool)
    requires TotalOrder(lt) && Page(rows, cursor, n, lt) != []
    ensures var page := Page(rows, cursor, n, lt); var next := Some(page[|page| - 1]);
      && Elements(page) <= rows && next.value in rows
      && Seen(rows, next, lt) == Seen(rows, cursor, lt) + Elements(page)
      && |Seen(rows, next, lt)| == |Seen(rows, cursor, lt)| + |page|
      && |After(rows, next, lt)| < |After(rows, cursor, lt)|
  {
    var page := Page(rows, cursor, n, lt);
    PageTakes(rows, cursor, n, lt);
    TakenFromLeft(rows, After(rows, cursor, lt), Elements(page), After(rows, Some(page[|page| - 1]), lt));
  }

  lemma LeastComesFirst<T(!new)>(m: T, rows: set<T>, lt: (T, T) -> bool)
    requires TotalOrder(lt) && IsLeast(m, rows, lt)
    ensures Sorted(rows, lt) == [m] + Sorted(rows - {m}, lt)
  {
    assert m == Least(rows, lt);
  }

  /** The query as a selection: the least remaining row, `n` times over. */
  method Select<T(!new, ==)>(rows: set<T>, cursor: Option<T>, n: nat, lt: (T, T) -> bool) returns (page: seq<T>)
    requires TotalOrder(lt)
    ensures page == Page(rows, cursor, n, lt)
  {
    var left := After(rows, cursor, lt);
    ghost var all := Sorted(left, lt);
    page := [];
    while |page| < n && left != {}
      invariant |page| <= n
      invariant page + Sorted(left, lt) == all
      decreases left
    {
      LeastExists(left, lt);
      var m :| m in left && forall x :: x in left ==> x == m || lt(m, x);
      LeastComesFirst(m, left, lt);
      assert page + ([m] + Sorted(left - {m}, lt)) == (page + [m]) + Sorted(left - {m}, lt);
      page, left := page + [m], left - {m};
    }
    assert all[..|page|] == page;
  }
}
