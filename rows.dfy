/**
 * Row selection over a reference table, as the script does it with numpy
 * boolean masks: `table[mask]` keeps the rows the mask marks, in order, and
 * `.item()` on the selection succeeds only when exactly one row is kept.
 */
module Rows {

  /** `table[mask]`: the rows satisfying `p`, in table order. */
  function Filter<T>(rows: seq<T>, p: T -> bool): (kept: seq<T>)
    ensures |kept| <= |rows|
    ensures forall x :: x in kept ==> x in rows && p(x)
    ensures forall k :: 0 <= k < |rows| && p(rows[k]) ==> rows[k] in kept
    ensures kept == [] <==> forall k :: 0 <= k < |rows| ==> !p(rows[k])
  {
    if rows == [] then []
    else
      var rest := Filter(rows[1..], p);
      assert forall k :: 1 <= k < |rows| ==> rows[k] == rows[1..][k - 1];
      (if p(rows[0]) then [rows[0]] else []) + rest
  }

  /** Row `k` is the one and only row satisfying `p`. */
  predicate OnlyMatch<T>(rows: seq<T>, p: T -> bool, k: int) {
    0 <= k < |rows| && p(rows[k]) && forall j :: 0 <= j < |rows| && j != k ==> !p(rows[j])
  }

  /** The selection of a non-empty table: its first row if it matches, then the selection of the rest. */
  lemma FilterCons<T>(rows: seq<T>, p: T -> bool)
    requires rows != []
    ensures Filter(rows, p) == (if p(rows[0]) then [rows[0]] else []) + Filter(rows[1..], p)
  {
  }

  /**
   * `.item()` on a selection succeeds exactly when one row matches, and then
   * yields that row.
   */
  lemma {:induction false} FilterOne<T>(rows: seq<T>, p: T -> bool)
    ensures |Filter(rows, p)| == 1 <==> exists k :: OnlyMatch(rows, p, k)
    ensures forall k :: OnlyMatch(rows, p, k) ==> Filter(rows, p) == [rows[k]]
  {
    if rows != [] {
      var tail := rows[1..];
      FilterOne(tail, p);
      FilterCons(rows, p);
      forall k | 1 <= k < |rows| ensures rows[k] == tail[k - 1] { }
      if p(rows[0]) {
        if Filter(tail, p) == [] {
          assert OnlyMatch(rows, p, 0);
        }
        forall k | OnlyMatch(rows, p, k) ensures k == 0 { }
      } else {
        forall k | OnlyMatch(rows, p, k) ensures OnlyMatch(tail, p, k - 1) {
          assert k != 0;
          forall j | 0 <= j < |tail| && j != k - 1 ensures !p(tail[j]) {
            assert tail[j] == rows[j + 1];
          }
        }
        forall k | OnlyMatch(tail, p, k) ensures OnlyMatch(rows, p, k + 1) { }
      }
    }
  }

  /** `chain(*[f(row) for row in rows])`: the items of every row, in row order. */
  function Chain<T, U(!new)>(rows: seq<T>, f: T -> seq<U>): (all: seq<U>)
    ensures forall x :: x in all <==> exists k :: 0 <= k < |rows| && x in f(rows[k])
  {
    if rows == [] then []
    else
      var tail := rows[1..];
      var rest := Chain(tail, f);
      assert forall x :: x in rest ==> exists k :: 0 <= k < |rows| && x in f(rows[k]) by {
        forall x | x in rest ensures exists k :: 0 <= k < |rows| && x in f(rows[k]) {
          var j :| 0 <= j < |tail| && x in f(tail[j]);
          assert tail[j] == rows[j + 1];
        }
      }
      assert forall x, k :: 1 <= k < |rows| && x in f(rows[k]) ==> x in rest by {
        forall x, k | 1 <= k < |rows| && x in f(rows[k]) ensures x in rest {
          assert tail[k - 1] == rows[k];
        }
      }
      f(rows[0]) + rest
  }
}
