/**
 * The row selection of `list_jobs`: the query keeps unapplied, unignored
 * rows (unless the `all` view is asked for), orders them by `created_at`
 * newest first, cuts them at `limit`, and only then applies the visibility
 * filter.
 */
module Listing {
  import opened Wrappers
  import opened SettingsLayer
  import opened JobsDb
  import opened Filtering

  /** `ORDER BY created_at DESC`: a row with a timestamp comes before one
      without (SQLite sorts NULL lowest), later timestamps first. */
  predicate NewerOrSame(a: Job, b: Job) {
    match a.createdAt
    case None => b.createdAt.None?
    case Some(x) => b.createdAt.None? || b.createdAt.value <= x
  }

  predicate NewestFirst(rows: seq<Job>) {
    forall i, j :: 0 <= i < j < |rows| ==> NewerOrSame(rows[i], rows[j])
  }

  /** Place a row into a list already ordered newest first. */
  function InsertByDate(j: Job, sorted: seq<Job>): (r: seq<Job>)
    requires NewestFirst(sorted)
    ensures NewestFirst(r)
    ensures multiset(r) == multiset(sorted) + multiset{j}
    ensures r[0] == j || (sorted != [] && r[0] == sorted[0])
  {
    if sorted == [] || NewerOrSame(j, sorted[0]) then
      [j] + sorted
    else
      var rest := InsertByDate(j, sorted[1..]);
      assert sorted == [sorted[0]] + sorted[1..];
      assert NewerOrSame(sorted[0], rest[0]) by {
        if rest[0] != j {
          assert rest[0] == sorted[1];
        }
      }
      assert forall k :: 0 <= k < |rest| ==> NewerOrSame(sorted[0], rest[k]) by {
        forall k | 0 <= k < |rest|
          ensures NewerOrSame(sorted[0], rest[k])
        {
          if k > 0 {
            assert NewerOrSame(rest[0], rest[k]);
          }
        }
      }
      [sorted[0]] + rest
  }

  /** The rows in `ORDER BY created_at DESC` order. */
  function SortNewestFirst(rows: seq<Job>): (r: seq<Job>)
    ensures NewestFirst(r)
    ensures multiset(r) == multiset(rows)
  {
    if rows == [] then []
    else
      assert rows == [rows[0]] + rows[1..];
      InsertByDate(rows[0], SortNewestFirst(rows[1..]))
  }

  /** `WHERE applied=0 AND ignored=0`. */
  predicate Open(j: Job) {
    !j.applied && !j.ignored
  }

  /** The rows that pass the `WHERE` clause, in table order. */
  function OpenRows(rows: seq<Job>): (r: seq<Job>)
    ensures multiset(r) <= multiset(rows)
    ensures forall j :: j in r <==> j in rows && Open(j)
  {
    if rows == [] then []
    else
      assert rows == [rows[0]] + rows[1..];
      (if Open(rows[0]) then [rows[0]] else []) + OpenRows(rows[1..])
  }

  /** `LIMIT ?`: a negative limit means no limit. */
  function Take(rows: seq<Job>, limit: int): (r: seq<Job>)
    ensures r <= rows && multiset(r) <= multiset(rows)
    ensures limit >= 0 ==> |r| == if limit < |rows| then limit else |rows|
    ensures limit < 0 ==> r == rows
  {
    if limit < 0 || limit >= |rows| then rows
    else
      assert rows == rows[..limit] + rows[limit..];
      rows[..limit]
  }

  /** Every member of a sub-multiset is a member of the larger list. */
  lemma SubMultisetMembers(a: seq<Job>, b: seq<Job>)
    requires multiset(a) <= multiset(b)
    ensures forall x :: x in a ==> x in b
  {
    forall x | x in a
      ensures x in b
    {
      assert x in multiset(a);
    }
  }

  /** A list comprehension with a condition: the rows `keep` accepts, in
      their order. */
  function KeepMatching(rows: seq<Job>, keep: Job -> bool): (r: seq<Job>)
    ensures |r| <= |rows| && multiset(r) <= multiset(rows)
    ensures forall j :: j in r <==> j in rows && keep(j)
  {
    if rows == [] then []
    else
      assert rows == [rows[0]] + rows[1..];
      var rest := KeepMatching(rows[1..], keep);
      if keep(rows[0]) then [rows[0]] + rest else rest
  }

  /** The comprehension keeps the rows' order: the rows kept from two runs
      are those kept from the first followed by those kept from the
      second. */
  lemma {:induction false} KeepMatchingAppend(a: seq<Job>, b: seq<Job>, keep: Job -> bool)
    ensures KeepMatching(a + b, keep) == KeepMatching(a, keep) + KeepMatching(b, keep)
  {
    if a == [] {
      assert a + b == b;
    } else {
      assert (a + b)[0] == a[0] && (a + b)[1..] == a[1..] + b;
      KeepMatchingAppend(a[1..], b, keep);
    }
  }

  /** One row is kept exactly when the condition accepts it. */
  lemma KeepMatchingSingle(j: Job, keep: Job -> bool)
    ensures KeepMatching([j], keep) == if keep(j) then [j] else []
  {
    assert [j][1..] == [];
  }

  /** Keeping some rows keeps them newest first. */
  lemma {:induction false} KeepMatchingSorted(rows: seq<Job>, keep: Job -> bool)
    requires NewestFirst(rows)
    ensures NewestFirst(KeepMatching(rows, keep))
  {
    if rows != [] {
      var rest := KeepMatching(rows[1..], keep);
      assert NewestFirst(rows[1..]) by {
        forall i, j | 0 <= i < j < |rows[1..]|
          ensures NewerOrSame(rows[1..][i], rows[1..][j])
        {
          assert rows[1..][i] == rows[i + 1] && rows[1..][j] == rows[j + 1];
        }
      }
      KeepMatchingSorted(rows[1..], keep);
      if keep(rows[0]) {
        HeadIsNewest(rows);
        PrependSorted(rows[0], rest);
      }
    }
  }

  /** The first row of a newest-first list is at least as new as the rest. */
  lemma HeadIsNewest(rows: seq<Job>)
    requires NewestFirst(rows) && rows != []
    ensures forall x :: x in rows[1..] ==> NewerOrSame(rows[0], x)
  {
    forall x | x in rows[1..]
      ensures NewerOrSame(rows[0], x)
    {
      var m :| 0 <= m < |rows[1..]| && rows[1..][m] == x;
      assert rows[m + 1] == x;
    }
  }

  /** A row at least as new as every row of a newest-first list can go in
      front of it. */
  lemma PrependSorted(x: Job, rest: seq<Job>)
    requires NewestFirst(rest)
    requires forall y :: y in rest ==> NewerOrSame(x, y)
    ensures NewestFirst([x] + rest)
  {
    var r := [x] + rest;
    forall i, j | 0 <= i < j < |r|
      ensures NewerOrSame(r[i], r[j])
    {
      assert r[j] == rest[j - 1];
      if i > 0 {
        assert r[i] == rest[i - 1];
      }
    }
  }

  /** The rows the `WHERE` clause selects: every stored row in the `all`
      view, otherwise the open ones. */
  function Selected(stored: seq<Job>, showAll: bool): (r: seq<Job>)
    ensures multiset(r) <= multiset(stored)
    ensures forall j :: j in r <==> j in stored && (showAll || Open(j))
  {
    if showAll then stored else OpenRows(stored)
  }

  /** The SQL query of `list_jobs`: the newest `limit` selected rows, newest
      first. Every selected row the limit leaves out is no newer than any
      row it keeps. */
  function QueryRows(stored: seq<Job>, showAll: bool, limit: int): (r: seq<Job>)
    ensures multiset(r) <= multiset(Selected(stored, showAll)) && multiset(r) <= multiset(stored)
    ensures NewestFirst(r)
    ensures limit >= 0 ==> |r| == if limit < |Selected(stored, showAll)| then limit else |Selected(stored, showAll)|
    ensures limit < 0 ==> multiset(r) == multiset(Selected(stored, showAll))
    ensures !showAll ==> forall j :: j in r ==> Open(j)
    ensures forall x, y :: x in r && y in multiset(Selected(stored, showAll)) - multiset(r) ==> NewerOrSame(x, y)
  {
    var selected := Selected(stored, showAll);
    var sorted := SortNewestFirst(selected);
    var rows := Take(sorted, limit);
    assert |sorted| == |multiset(sorted)| == |multiset(selected)| == |selected|;
    assert rows == sorted[..|rows|];
    PrefixIsNewest(sorted, |rows|);
    SubMultisetMembers(rows, selected);
    rows
  }

  /** The first `n` rows of a newest-first list are at least as new as every
      row after them. */
  lemma PrefixIsNewest(sorted: seq<Job>, n: nat)
    requires NewestFirst(sorted) && n <= |sorted|
    ensures forall x, y :: x in sorted[..n] && y in multiset(sorted) - multiset(sorted[..n]) ==> NewerOrSame(x, y)
  {
    assert sorted == sorted[..n] + sorted[n..];
    assert multiset(sorted) - multiset(sorted[..n]) == multiset(sorted[n..]);
    forall x, y | x in sorted[..n] && y in multiset(sorted) - multiset(sorted[..n])
      ensures NewerOrSame(x, y)
    {
      assert y in sorted[n..];
      var i :| 0 <= i < n && sorted[..n][i] == x;
      var k :| 0 <= k < |sorted[n..]| && sorted[n..][k] == y;
      assert sorted[i] == x && sorted[n + k] == y;
    }
  }

  /** `list_jobs(show_all, limit, apply_filters)` over the stored rows, with
      the loaded settings and the current time: the rows it prints, in
      order. Without filters it uses the default settings and shows every
      queried row; in the `all` view the filter accepts every row. */
  function ListJobs(stored: seq<Job>, showAll: bool, limit: int, applyFilters: bool,
                    loaded: Settings, now: int): (r: seq<Job>)
    ensures multiset(r) <= multiset(QueryRows(stored, showAll, limit)) && multiset(r) <= multiset(stored)
    ensures NewestFirst(r)
    ensures limit >= 0 ==> |r| <= limit
    ensures !showAll ==> forall j :: j in r ==> Open(j)
    ensures forall j :: j in r <==>
      j in QueryRows(stored, showAll, limit) && (applyFilters && !showAll ==> JobMatchesFilters(j, loaded, false, now))
  {
    var filters := if applyFilters then loaded else Defaults;
    var includeAll := showAll || !applyFilters;
    var rows := QueryRows(stored, showAll, limit);
    if applyFilters then
      var kept := KeepMatching(rows, j => JobMatchesFilters(j, filters, includeAll, now));
      KeepMatchingSorted(rows, j => JobMatchesFilters(j, filters, includeAll, now));
      kept
    else rows
  }

  // ------------------------------------------------------------- lemmas

  /** When the open rows fit within the limit (or there is none), the
      default view shows every open row the filter accepts. */
  lemma DefaultViewComplete(stored: seq<Job>, limit: int, loaded: Settings, now: int, j: Job)
    requires j in stored && Open(j) && JobMatchesFilters(j, loaded, false, now)
    requires limit < 0 || |OpenRows(stored)| <= limit
    ensures j in ListJobs(stored, false, limit, true, loaded, now)
  {
    var selected := Selected(stored, false);
    var rows := QueryRows(stored, false, limit);
    if limit >= 0 {
      SubMultisetSameSize(multiset(rows), multiset(selected));
    }
    assert j in multiset(selected);
    assert j in multiset(rows);
  }

  /** An open row the filter accepts is shown whenever it is strictly newer
      than some row the query returned: the limit only cuts the oldest
      rows. */
  lemma NewerRowShown(stored: seq<Job>, limit: int, loaded: Settings, now: int, j: Job, x: Job)
    requires j in stored && Open(j) && JobMatchesFilters(j, loaded, false, now)
    requires x in QueryRows(stored, false, limit) && !NewerOrSame(x, j)
    ensures j in ListJobs(stored, false, limit, true, loaded, now)
  {
    var rows := QueryRows(stored, false, limit);
    var selected := Selected(stored, false);
    assert j in multiset(selected);
  }

  /** A sub-multiset as large as the whole is the whole. */
  lemma SubMultisetSameSize(a: multiset<Job>, b: multiset<Job>)
    requires a <= b && |a| == |b|
    ensures a == b
  {
    assert b == a + (b - a);
    assert |b - a| == 0;
  }

  /** The `all` view never filters: without a limit it shows every stored
      row, whether filters are on or off. */
  lemma AllViewShowsEverything(stored: seq<Job>, applyFilters: bool, loaded: Settings, now: int)
    ensures multiset(ListJobs(stored, true, -1, applyFilters, loaded, now)) == multiset(stored)
  {
    if applyFilters {
      KeepAll(QueryRows(stored, true, -1), j => JobMatchesFilters(j, loaded, true, now));
    }
  }

  /** A condition that accepts every row keeps the list as it is. */
  lemma {:induction false} KeepAll(rows: seq<Job>, keep: Job -> bool)
    requires forall j :: keep(j)
    ensures KeepMatching(rows, keep) == rows
  {
    if rows != [] {
      KeepAll(rows[1..], keep);
      assert rows == [rows[0]] + rows[1..];
    }
  }

  /** A job marked applied or ignored disappears from the default view. */
  lemma MarkedJobHidden(stored: seq<Job>, id: int, mark: Mark, markedAt: int,
                        limit: int, applyFilters: bool, loaded: Settings, now: int)
    requires mark != Seen
    ensures forall j :: (j in ListJobs(Updated(stored, id, mark, markedAt), false, limit, applyFilters, loaded, now)
                         ==> j.id != id)
  {
    var rows := Updated(stored, id, mark, markedAt);
    ShownRowsAreOpen(rows, limit, applyFilters, loaded, now);
    forall j | j in ListJobs(rows, false, limit, applyFilters, loaded, now)
      ensures j.id != id
    {
      var k :| 0 <= k < |rows| && rows[k] == j;
    }
  }

  /** The default view shows only stored rows that are open. */
  lemma ShownRowsAreOpen(stored: seq<Job>, limit: int, applyFilters: bool, loaded: Settings, now: int)
    ensures forall j :: j in ListJobs(stored, false, limit, applyFilters, loaded, now) ==> j in stored && Open(j)
  {
    var shown := ListJobs(stored, false, limit, applyFilters, loaded, now);
    forall j | j in shown
      ensures j in stored
    {
      assert j in multiset(shown);
    }
  }
}
