/** Tables as sequences of rows. A row has an index (its timestamp in
    milliseconds) and the values of its other columns, abstracted as strings.
    This module models the two clean-up steps the loader applies to the
    concatenated table: `sort_index()` and `drop_duplicates()`, which compares
    rows on their columns and ignores the index. */
module Tables {

  datatype Row = Row(ts: int, cols: seq<string>)

  predicate SortedByIndex(rows: seq<Row>)
  {
    forall i, j :: 0 <= i < j < |rows| ==> rows[i].ts <= rows[j].ts
  }

  /** Insert x in front of the first row whose index is not smaller. */
  function Insert(x: Row, s: seq<Row>): (r: seq<Row>)
    requires SortedByIndex(s)
    ensures SortedByIndex(r)
    ensures multiset(r) == multiset(s) + multiset{x}
  {
    if s == [] || x.ts <= s[0].ts then
      SortedCons(x, s);
      [x] + s
    else
      SortedTail(s);
      var tail := Insert(x, s[1..]);
      assert s == [s[0]] + s[1..];
      InsertBound(x, s, tail);
      SortedCons(s[0], tail);
      [s[0]] + tail
  }

  lemma SortedTail(s: seq<Row>)
    requires SortedByIndex(s) && |s| > 0
    ensures SortedByIndex(s[1..])
  {
    forall i, j | 0 <= i < j < |s| - 1 ensures s[1..][i].ts <= s[1..][j].ts {
      assert s[1..][i] == s[i + 1] && s[1..][j] == s[j + 1];
    }
  }

  /** A row no later than every row of a sorted table can go in front. */
  lemma SortedCons(h: Row, s: seq<Row>)
    requires SortedByIndex(s) && forall k :: 0 <= k < |s| ==> h.ts <= s[k].ts
    ensures SortedByIndex([h] + s)
  {
    var r := [h] + s;
    forall i, j | 0 <= i < j < |r| ensures r[i].ts <= r[j].ts {
      assert r[j] == s[j - 1];
      if i > 0 {
        assert r[i] == s[i - 1];
      }
    }
  }

  /** Every row of tail, made of x and the rows after s[0], sorts after s[0]. */
  lemma InsertBound(x: Row, s: seq<Row>, tail: seq<Row>)
    requires SortedByIndex(s) && |s| > 0 && s[0].ts < x.ts
    requires multiset(tail) == multiset(s[1..]) + multiset{x}
    ensures forall k :: 0 <= k < |tail| ==> s[0].ts <= tail[k].ts
  {
    forall k | 0 <= k < |tail| ensures s[0].ts <= tail[k].ts {
      assert tail[k] in multiset(tail);
      if tail[k] != x {
        assert tail[k] in multiset(s[1..]);
        var j :| 0 <= j < |s[1..]| && s[1..][j] == tail[k];
        assert s[j + 1] == tail[k];
      }
    }
  }

  /** `sort_index()`: the rows ordered by index (by insertion, which keeps
      rows with equal indices in their original order). */
  function SortByIndex(s: seq<Row>): (r: seq<Row>)
    ensures SortedByIndex(r)
    ensures multiset(r) == multiset(s)
  {
    if s == [] then []
    else
      assert s == [s[0]] + s[1..];
      Insert(s[0], SortByIndex(s[1..]))
  }

  /** Row i is the first row with its column values. */
  predicate IsFirstOf(s: seq<Row>, i: int)
    requires 0 <= i < |s|
  {
    forall j :: 0 <= j < i ==> s[j].cols != s[i].cols
  }

  /** `drop_duplicates()`: keep each row whose column values did not occur in
      an earlier row, in order. */
  function DropDuplicates(s: seq<Row>): (r: seq<Row>)
    ensures forall y :: y in r ==> y in s
  {
    if s == [] then []
    else
      var init := s[..|s| - 1];
      DropDuplicates(init) + (if IsFirstOf(s, |s| - 1) then [s[|s| - 1]] else [])
  }

  /** The set of column tuples in a table. */
  function ColsOf(s: seq<Row>): set<seq<string>>
  {
    set i | 0 <= i < |s| :: s[i].cols
  }

  /** No two rows agree on all their columns. */
  predicate DistinctCols(rows: seq<Row>)
  {
    forall i, j :: 0 <= i < j < |rows| ==> rows[i].cols != rows[j].cols
  }

  /** After dropping duplicates, no two rows agree on all their columns. */
  lemma {:induction false} DropDuplicatesDistinct(s: seq<Row>)
    ensures DistinctCols(DropDuplicates(s))
  {
    if s != [] {
      var init := s[..|s| - 1];
      var last := s[|s| - 1];
      DropDuplicatesDistinct(init);
      var head := DropDuplicates(init);
      var r := DropDuplicates(s);
      if IsFirstOf(s, |s| - 1) {
        assert r == head + [last];
        forall i | 0 <= i < |head| ensures head[i].cols != last.cols {
          assert head[i] in head;
          var j :| 0 <= j < |init| && init[j] == head[i];
          assert s[j] == init[j];
        }
        forall i, j | 0 <= i < j < |r| ensures r[i].cols != r[j].cols {
          assert r[i] == head[i];
          if j < |head| { assert r[j] == head[j]; } else { assert r[j] == last; }
        }
      } else {
        assert r == head;
      }
    }
  }

  lemma ColsOfConcat(a: seq<Row>, b: seq<Row>)
    ensures ColsOf(a + b) == ColsOf(a) + ColsOf(b)
  {
    var ab := a + b;
    forall c | c in ColsOf(ab) ensures c in ColsOf(a) + ColsOf(b) {
      var i :| 0 <= i < |ab| && ab[i].cols == c;
      if i < |a| { assert ab[i] == a[i]; } else { assert ab[i] == b[i - |a|]; }
    }
    forall c | c in ColsOf(a) ensures c in ColsOf(ab) {
      var i :| 0 <= i < |a| && a[i].cols == c;
      assert ab[i] == a[i];
    }
    forall c | c in ColsOf(b) ensures c in ColsOf(ab) {
      var i :| 0 <= i < |b| && b[i].cols == c;
      assert ab[|a| + i] == b[i];
    }
  }

  /** Dropping duplicates loses no column tuple. */
  lemma {:induction false} DropDuplicatesCovers(s: seq<Row>)
    ensures ColsOf(DropDuplicates(s)) == ColsOf(s)
  {
    if s != [] {
      var init := s[..|s| - 1];
      var last := s[|s| - 1];
      DropDuplicatesCovers(init);
      var head := DropDuplicates(init);
      assert s == init + [last];
      ColsOfConcat(init, [last]);
      assert ColsOf([last]) == {last.cols} by {
        assert [last][0] == last;
      }
      if IsFirstOf(s, |s| - 1) {
        ColsOfConcat(head, [last]);
      } else {
        var j :| 0 <= j < |s| - 1 && s[j].cols == last.cols;
        assert init[j] == s[j];
        assert last.cols in ColsOf(init);
        assert DropDuplicates(s) == head;
      }
    }
  }

  /** Whether row `i` comes first does not depend on the rows after it. */
  lemma FirstOfPrefix(s: seq<Row>, n: nat)
    requires n <= |s|
    ensures forall i :: 0 <= i < n ==> s[..n][i] == s[i] && (IsFirstOf(s[..n], i) <==> IsFirstOf(s, i))
  {
  }

  /** A row is kept exactly when it is the first row with its column values. */
  lemma {:induction false} DropDuplicatesKeepsFirst(s: seq<Row>, y: Row)
    ensures y in DropDuplicates(s) <==> exists i :: 0 <= i < |s| && s[i] == y && IsFirstOf(s, i)
  {
    if s != [] {
      var n := |s| - 1;
      var init := s[..n];
      DropDuplicatesKeepsFirst(init, y);
      var head := DropDuplicates(init);
      var tail := if IsFirstOf(s, n) then [s[n]] else [];
      assert DropDuplicates(s) == head + tail;
      FirstOfPrefix(s, n);
      if exists i :: 0 <= i < |s| && s[i] == y && IsFirstOf(s, i) {
        var i :| 0 <= i < |s| && s[i] == y && IsFirstOf(s, i);
        if i < n {
          assert init[i] == y && IsFirstOf(init, i);
        } else {
          assert y in tail;
        }
      }
      if y in tail {
        assert s[n] == y && IsFirstOf(s, n);
      }
    }
  }

  /** Dropping duplicates keeps a sorted table sorted. */
  lemma {:induction false} DropDuplicatesSorted(s: seq<Row>)
    requires SortedByIndex(s)
    ensures SortedByIndex(DropDuplicates(s))
  {
    if s != [] {
      var init := s[..|s| - 1];
      var last := s[|s| - 1];
      DropDuplicatesSorted(init);
      var head := DropDuplicates(init);
      forall i | 0 <= i < |head| ensures head[i].ts <= last.ts {
        assert head[i] in head;
        var j :| 0 <= j < |init| && init[j] == head[i];
        assert s[j] == init[j];
      }
    }
  }

  /** The loader's clean-up: sort by index, then drop duplicated rows. */
  function Clean(rows: seq<Row>): seq<Row>
  {
    DropDuplicates(SortByIndex(rows))
  }

  lemma ColsOfHalf(a: seq<Row>, b: seq<Row>)
    requires multiset(a) == multiset(b)
    ensures ColsOf(a) <= ColsOf(b)
  {
    forall c | c in ColsOf(a) ensures c in ColsOf(b) {
      var i :| 0 <= i < |a| && a[i].cols == c;
      assert a[i] in multiset(b);
      var k :| 0 <= k < |b| && b[k] == a[i];
    }
  }

  /** Reordering the rows keeps the same set of column tuples. */
  lemma ColsOfPermutation(a: seq<Row>, b: seq<Row>)
    requires multiset(a) == multiset(b)
    ensures ColsOf(a) == ColsOf(b)
  {
    ColsOfHalf(a, b);
    ColsOfHalf(b, a);
  }

  /** The cleaned table is sorted by index, has no two rows with equal
      column values, has exactly the column tuples of its input, and every
      row of it is a row of the input. */
  lemma CleanSpec(rows: seq<Row>)
    ensures var r := Clean(rows);
      && SortedByIndex(r)
      && DistinctCols(r)
      && ColsOf(r) == ColsOf(rows)
      && (forall y :: y in r ==> y in rows)
  {
    var sorted := SortByIndex(rows);
    DropDuplicatesSorted(sorted);
    DropDuplicatesDistinct(sorted);
    DropDuplicatesCovers(sorted);
    ColsOfPermutation(sorted, rows);
    forall y | y in Clean(rows) ensures y in rows {
      assert y in multiset(sorted);
    }
  }
}
