/**
 * The two query shapes the Django ORM is used for throughout the application:
 * `Model.objects.filter(...)` (a sub-list of a table, kept in table order) and
 * `.exists()` on such a filter.
 */
module Queries {
  import opened Wrappers

  /** The rows of `table` that satisfy `p`, in table order. */
  function Filter<T(!new)>(table: seq<T>, p: T -> bool): (rows: seq<T>)
    ensures |rows| <= |table|
    ensures forall x :: x in rows <==> x in table && p(x)
    ensures multiset(rows) <= multiset(table)
  {
    if table == [] then []
    else
      assert table == [table[0]] + table[1..];
      if p(table[0]) then [table[0]] + Filter(table[1..], p)
      else Filter(table[1..], p)
  }

  /** `filter(...).exists()`: some row of `table` satisfies `p`. */
  function Exists<T>(table: seq<T>, p: T -> bool): (found: bool)
    ensures found <==> exists i :: 0 <= i < |table| && p(table[i])
  {
    if table == [] then false
    else p(table[0]) || Exists(table[1..], p)
  }

  /** The position of the first row of `table` that satisfies `p` (`.get(...)`, `.first()`). */
  function FirstIndex<T>(table: seq<T>, p: T -> bool): (i: Option<nat>)
    ensures i.Some? ==> i.value < |table| && p(table[i.value])
    ensures i.Some? ==> forall j :: 0 <= j < i.value ==> !p(table[j])
    ensures i.None? <==> forall j :: 0 <= j < |table| ==> !p(table[j])
  {
    if table == [] then None
    else if p(table[0]) then Some(0)
    else match FirstIndex(table[1..], p)
      case None => None
      case Some(k) => Some(k + 1)
  }

  /**
   * `row.save()`: the row with the same primary key (`samePk`) is overwritten,
   * and when there is none the row is inserted at the end of the table.
   */
  function SaveRow<T(!new)>(table: seq<T>, row: T, samePk: T -> bool): (r: seq<T>)
    requires samePk(row)
    ensures row in r
    ensures forall x :: x in r ==> x == row || x in table
    ensures forall x :: x in table && !samePk(x) ==> x in r
    ensures |r| == if Exists(table, samePk) then |table| else |table| + 1
    ensures forall i :: 0 <= i < |table| ==> r[i] == table[i] || (samePk(table[i]) && r[i] == row)
    ensures |r| == |table| + 1 ==> r[|table|] == row
  {
    match FirstIndex(table, samePk)
    case Some(k) =>
      assert forall x :: x in table && !samePk(x) ==> x in table[k := row] by {
        forall x | x in table && !samePk(x) ensures x in table[k := row] {
          var j :| 0 <= j < |table| && table[j] == x;
          assert table[k := row][j] == x;
        }
      }
      assert table[k := row][k] == row;
      table[k := row]
    case None => table + [row]
  }
}
