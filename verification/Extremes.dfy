/** The largest and smallest element of a finite set of integers, as the ownership
    rule takes them over a job's provenance rows. */
module Extremes {
  import opened Sorting

  function Greatest(s: set<int>): (m: int)
    requires s != {}
    ensures m in s && forall x :: x in s ==> x <= m
  {
    First(s, (x: int, y: int) => x > y)
  }

  function Least(s: set<int>): (m: int)
    requires s != {}
    ensures m in s && forall x :: x in s ==> m <= x
  {
    First(s, (x: int, y: int) => x < y)
  }

  function Min(a: int, b: int): int { if a < b then a else b }

  function Max(a: int, b: int): int { if a < b then b else a }
}
