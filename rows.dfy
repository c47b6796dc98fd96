// The three query shapes the services send to the store, stated over a table
// held as a sequence of rows: `select ... where p ... .get()` (the first row
// satisfying p), `select ... where p` / `delete ... where p` (keep the rows
// satisfying, or not satisfying, p) and `update ... set ... where p`.
module Rows {
  import opened Common

  /** `.get()`: the index of the first row satisfying `p`, if any. */
  function FirstIndex<T>(rows: seq<T>, p: T -> bool): (r: Option<nat>)
    ensures r.Some? ==> r.value < |rows| && p(rows[r.value])
    ensures r.Some? ==> forall j :: 0 <= j < r.value ==> !p(rows[j])
    ensures r.None? <==> forall j :: 0 <= j < |rows| ==> !p(rows[j])
  {
    if |rows| == 0 then None
    else if p(rows[0]) then Some(0)
    else
      match FirstIndex(rows[1..], p)
      case None => None
      case Some(k) => Some(k + 1)
  }

  /** The rows satisfying `p`, in table order. */
  function Filter<T(!new)>(rows: seq<T>, p: T -> bool): (r: seq<T>)
    ensures |r| <= |rows|
    ensures forall x :: x in r <==> x in rows && p(x)
  {
    if |rows| == 0 then []
    else if p(rows[0]) then [rows[0]] + Filter(rows[1..], p)
    else Filter(rows[1..], p)
  }

  /** Every row satisfying `p` replaced by `f` of it; the others as they were. */
  function UpdateWhere<T>(rows: seq<T>, p: T -> bool, f: T -> T): (r: seq<T>)
    ensures |r| == |rows|
    ensures forall i :: 0 <= i < |rows| ==> r[i] == if p(rows[i]) then f(rows[i]) else rows[i]
  {
    seq(|rows|, i requires 0 <= i < |rows| => if p(rows[i]) then f(rows[i]) else rows[i])
  }

  /** A primary-key or unique constraint on `key`. */
  predicate KeysUnique<T, K(==)>(rows: seq<T>, key: T -> K)
  {
    forall i, j :: 0 <= i < |rows| && 0 <= j < |rows| && i != j ==> key(rows[i]) != key(rows[j])
  }

  /** A deletion never breaks a key constraint. */
  lemma {:induction false} FilterKeepsKeysUnique<T(!new), K>(rows: seq<T>, p: T -> bool, key: T -> K)
    requires KeysUnique(rows, key)
    ensures KeysUnique(Filter(rows, p), key)
  {
    if |rows| > 0 {
      var tail := rows[1..];
      assert KeysUnique(tail, key) by {
        forall i, j | 0 <= i < |tail| && 0 <= j < |tail| && i != j
          ensures key(tail[i]) != key(tail[j])
        {
          assert tail[i] == rows[i + 1] && tail[j] == rows[j + 1];
        }
      }
      FilterKeepsKeysUnique(tail, p, key);
      if p(rows[0]) {
        var rest := Filter(tail, p);
        forall x | x in rest ensures key(x) != key(rows[0]) {
          assert x in tail;
          var k :| 0 <= k < |tail| && tail[k] == x;
          assert tail[k] == rows[k + 1];
        }
        var r := [rows[0]] + rest;
        forall i, j | 0 <= i < |r| && 0 <= j < |r| && i != j
          ensures key(r[i]) != key(r[j])
        {
          if i == 0 {
            assert r[j] == rest[j - 1] && r[j] in rest;
          } else if j == 0 {
            assert r[i] == rest[i - 1] && r[i] in rest;
          } else {
            assert r[i] == rest[i - 1] && r[j] == rest[j - 1];
          }
        }
      }
    }
  }

  /** Deleting with a predicate no row satisfies leaves the table as it was. */
  lemma {:induction false} FilterNoneMatch<T(!new)>(rows: seq<T>, p: T -> bool)
    requires forall x :: x in rows ==> p(x)
    ensures Filter(rows, p) == rows
  {
    if |rows| > 0 {
      assert rows[0] in rows;
      forall x | x in rows[1..] ensures p(x) { assert x in rows; }
      FilterNoneMatch(rows[1..], p);
      assert [rows[0]] + rows[1..] == rows;
    }
  }

  /** Filtering distributes over appending a row. */
  lemma {:induction false} FilterAppend<T(!new)>(rows: seq<T>, x: T, p: T -> bool)
    ensures Filter(rows + [x], p) == Filter(rows, p) + (if p(x) then [x] else [])
  {
    if |rows| == 0 {
      assert rows + [x] == [x];
      assert [x][1..] == [];
    } else {
      assert (rows + [x])[0] == rows[0];
      assert (rows + [x])[1..] == rows[1..] + [x];
      FilterAppend(rows[1..], x, p);
    }
  }
}
