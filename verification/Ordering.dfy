// Stable sorting by a key, largest first: `sort_by_key` with `Reverse` and `ORDER BY ... DESC`.
module Ordering {
  function Insert<T>(rows: seq<T>, row: T, key: T -> int): seq<T> {
    if rows == [] || key(rows[|rows| - 1]) >= key(row) then rows + [row]
    else Insert(rows[..|rows| - 1], row, key) + [rows[|rows| - 1]]
  }

  function Sort<T>(rows: seq<T>, key: T -> int): seq<T> {
    if rows == [] then [] else Insert(Sort(rows[..|rows| - 1], key), rows[|rows| - 1], key)
  }

  predicate Descending<T>(rows: seq<T>, key: T -> int) {
    forall i, j :: 0 <= i < j < |rows| ==> key(rows[i]) >= key(rows[j])
  }

  lemma {:induction false} InsertKeepsAll<T>(rows: seq<T>, row: T, key: T -> int)
    ensures multiset(Insert(rows, row, key)) == multiset(rows) + multiset{row}
  {
    if rows == [] || key(rows[|rows| - 1]) >= key(row) {
    } else {
      var init, last := rows[..|rows| - 1], rows[|rows| - 1];
      InsertKeepsAll(init, row, key);
      assert rows == init + [last];
    }
  }

  lemma {:induction false} InsertKeepsOrder<T>(rows: seq<T>, row: T, key: T -> int)
    requires Descending(rows, key)
    ensures Descending(Insert(rows, row, key), key)
  {
    if rows == [] || key(rows[|rows| - 1]) >= key(row) {
    } else {
      var init, last := rows[..|rows| - 1], rows[|rows| - 1];
      InsertKeepsOrder(init, row, key);
      InsertKeepsAll(init, row, key);
      var mid := Insert(init, row, key);
      forall i | 0 <= i < |mid| ensures key(mid[i]) >= key(last) {
        FromEither(init, row, mid, mid[i]);
      }
    }
  }

  lemma FromEither<T>(init: seq<T>, row: T, mid: seq<T>, x: T)
    requires multiset(mid) == multiset(init) + multiset{row}
    requires x in mid
    ensures x in init || x == row
  {
    assert x in multiset(mid);
  }

  lemma EmptyIsDescending<T>(key: T -> int)
    ensures Descending([], key)
  {
  }

  // Sorting rearranges the rows into descending order.
  lemma {:induction false} SortIsSorted<T>(rows: seq<T>, key: T -> int)
    ensures Descending(Sort(rows, key), key)
    ensures multiset(Sort(rows, key)) == multiset(rows)
  {
    hide Insert, Descending;
    if rows == [] {
      EmptyIsDescending(key);
    } else {
      var init, last := rows[..|rows| - 1], rows[|rows| - 1];
      SortIsSorted(init, key);
      InsertKeepsOrder(Sort(init, key), last, key);
      InsertKeepsAll(Sort(init, key), last, key);
      assert rows == init + [last];
    }
  }

  // Rows without repetition are the set of their members.
  lemma {:induction false} DistinctMultiset<T>(rows: seq<T>)
    requires forall i, j :: 0 <= i < j < |rows| ==> rows[i] != rows[j]
    ensures multiset(rows) == multiset(set row | row in rows)
  {
    if rows == [] {
    } else {
      var init, last := rows[..|rows| - 1], rows[|rows| - 1];
      DistinctMultiset(init);
      assert rows == init + [last];
      assert last !in init;
      assert (set row | row in rows) == (set row | row in init) + {last};
    }
  }
}
