/**
 * The canonical order of the table: priority descending, then importance
 * descending, then creation datetime ascending. The table's sort on several
 * keys is stable, so rows whose three keys all tie keep their relative order;
 * SortRows is the stable insertion sort that yields that same order.
 */
module Sorting {
  import opened Timestamps
  import opened Tasks
  import opened Table

  /**
   * x may stand before y in the canonical order. Priority decides first; the
   * other keys only break its ties.
   */
  predicate Before(x: Task, y: Task)
    ensures Before(x, y) ==> x.priority >= y.priority
    ensures x.priority > y.priority ==> Before(x, y)
  {
    || x.priority > y.priority
    || (x.priority == y.priority &&
        (|| x.importance > y.importance
         || (x.importance == y.importance && LexLe(x.datetime, y.datetime))))
  }

  predicate Sorted(rows: seq<Row>)
  {
    forall i, j :: 0 <= i < j < |rows| ==> Before(rows[i].task, rows[j].task)
  }

  lemma BeforeReflexive(x: Task)
    ensures Before(x, x)
  {
    LexLeReflexive(x.datetime);
  }

  lemma BeforeTotal(x: Task, y: Task)
    ensures Before(x, y) || Before(y, x)
  {
    LexLeTotal(x.datetime, y.datetime);
  }

  lemma BeforeTransitive(x: Task, y: Task, z: Task)
    requires Before(x, y) && Before(y, z)
    ensures Before(x, z)
  {
    if x.priority == y.priority == z.priority && x.importance == y.importance == z.importance {
      LexLeTransitive(x.datetime, y.datetime, z.datetime);
    }
  }

  /** Two tasks that may each stand before the other agree on all three keys. */
  lemma BeforeAntisymmetric(x: Task, y: Task)
    requires Before(x, y) && Before(y, x)
    ensures x.priority == y.priority && x.importance == y.importance && x.datetime == y.datetime
  {
    LexLeAntisymmetric(x.datetime, y.datetime);
  }

  /** Inserts x ahead of the first row it may stand before. */
  function Insert(x: Row, s: seq<Row>): (r: seq<Row>)
    ensures |r| == |s| + 1
    ensures multiset(r) == multiset(s) + multiset{x}
  {
    if s == [] || Before(x.task, s[0].task) then [x] + s
    else
      assert s == [s[0]] + s[1..];
      [s[0]] + Insert(x, s[1..])
  }

  function SortRows(s: seq<Row>): (r: seq<Row>)
    ensures |r| == |s|
    ensures multiset(r) == multiset(s)
  {
    if s == [] then []
    else
      assert s == [s[0]] + s[1..];
      Insert(s[0], SortRows(s[1..]))
  }

  lemma {:induction false} InsertStrip(x: Row, s: seq<Row>)
    ensures multiset(Strip(Insert(x, s))) == multiset(Strip(s)) + multiset{x.task}
  {
    if s == [] || Before(x.task, s[0].task) {
      assert Strip([x] + s) == [x.task] + Strip(s);
    } else {
      InsertStrip(x, s[1..]);
      var t := Insert(x, s[1..]);
      assert Strip([s[0]] + t) == [s[0].task] + Strip(t);
      assert Strip(s) == [s[0].task] + Strip(s[1..]);
    }
  }

  /** The sort keeps the tasks: the saved file's rows are a permutation of the table's. */
  lemma {:induction false} SortRowsStrip(s: seq<Row>)
    ensures multiset(Strip(SortRows(s))) == multiset(Strip(s))
  {
    if s != [] {
      SortRowsStrip(s[1..]);
      InsertStrip(s[0], SortRows(s[1..]));
      assert Strip(s) == [s[0].task] + Strip(s[1..]);
    }
  }

  lemma {:induction false} InsertSorted(x: Row, s: seq<Row>)
    requires Sorted(s)
    ensures Sorted(Insert(x, s))
  {
    if s == [] || Before(x.task, s[0].task) {
      forall k | 0 <= k < |s| ensures Before(x.task, s[k].task) {
        if k > 0 {
          BeforeTransitive(x.task, s[0].task, s[k].task);
        }
      }
      var r := [x] + s;
      forall i, j | 0 <= i < j < |r| ensures Before(r[i].task, r[j].task) {
        if i == 0 {
          assert r[j] == s[j - 1];
        } else {
          assert r[i] == s[i - 1] && r[j] == s[j - 1];
        }
      }
    } else {
      BeforeTotal(x.task, s[0].task);
      InsertSorted(x, s[1..]);
      var t := Insert(x, s[1..]);
      forall y | y in t ensures Before(s[0].task, y.task) {
        assert y in multiset(t);
        if y != x {
          var j :| 0 <= j < |s[1..]| && s[1..][j] == y;
          assert s[j + 1] == y;
        }
      }
      forall i, j | 0 <= i < j < |[s[0]] + t| ensures Before(([s[0]] + t)[i].task, ([s[0]] + t)[j].task) {
        if i == 0 {
          assert ([s[0]] + t)[j] == t[j - 1];
          assert t[j - 1] in t;
        }
      }
    }
  }

  /** The sort yields the canonical order. */
  lemma {:induction false} SortRowsSorted(s: seq<Row>)
    ensures Sorted(SortRows(s))
  {
    if s != [] {
      SortRowsSorted(s[1..]);
      InsertSorted(s[0], SortRows(s[1..]));
    }
  }

  /** Sorting a table already in canonical order leaves it exactly as it was. */
  lemma {:induction false} SortRowsIdempotent(s: seq<Row>)
    requires Sorted(s)
    ensures SortRows(s) == s
  {
    if s != [] {
      SortRowsIdempotent(s[1..]);
      assert s == [s[0]] + s[1..];
    }
  }

  /** The sort moves index labels with their rows, so it keeps them a range index. */
  lemma {:induction false} SortRowsRangeIndex(s: seq<Row>)
    requires RangeIndex(s)
    ensures RangeIndex(SortRows(s))
  {
    var r := SortRows(s);
    forall k | 0 <= k < |r| ensures r[k].index < |r| {
      assert r[k] in multiset(s);
    }
    forall i, j | 0 <= i < j < |r| ensures r[i].index != r[j].index {
      if r[i] == r[j] {
        MultiplicityTwo(r, i, j);
        var p, q := SamePair(s, r[i]);
        assert false;
      } else {
        assert r[i] in multiset(s) && r[j] in multiset(s);
        var p :| 0 <= p < |s| && s[p] == r[i];
        var q :| 0 <= q < |s| && s[q] == r[j];
        assert p != q;
        if p > q {
          assert s[q].index != s[p].index;
        }
      }
    }
  }

  /** An element at two positions occurs at least twice. */
  lemma {:induction false} MultiplicityTwo(r: seq<Row>, i: nat, j: nat)
    requires i < j < |r| && r[i] == r[j]
    ensures multiset(r)[r[i]] >= 2
  {
    assert r == r[..i] + [r[i]] + r[i + 1..j] + [r[j]] + r[j + 1..];
  }

  /** An element occurring at least twice stands at two distinct positions. */
  lemma {:induction false} SamePair(s: seq<Row>, y: Row) returns (p: nat, q: nat)
    requires multiset(s)[y] >= 2
    ensures p < q < |s| && s[p] == y && s[q] == y
  {
    assert y in s;
    var k :| 0 <= k < |s| && s[k] == y;
    assert s == s[..k] + [y] + s[k + 1..];
    assert multiset(s[..k] + s[k + 1..])[y] >= 1;
    if y in s[..k] {
      var m :| 0 <= m < k && s[..k][m] == y;
      p, q := m, k;
    } else {
      assert y in s[k + 1..];
      var m :| 0 <= m < |s[k + 1..]| && s[k + 1..][m] == y;
      p, q := k, k + 1 + m;
    }
  }
}
