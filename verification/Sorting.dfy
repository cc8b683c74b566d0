/** `ORDER BY` over a finite set: the one ascending listing of its elements under a
    strict total order. The catalogue listing, the retention page and the skill
    extractor all read their rows through it. */
module Sorting {

  ghost predicate StrictTotal<T(!new)>(less: (T, T) -> bool) {
    && (forall x :: !less(x, x))
    && (forall x, y, z :: less(x, y) && less(y, z) ==> less(x, z))
    && (forall x, y :: x == y || less(x, y) || less(y, x))
  }

  ghost predicate Ascending<T(!new)>(xs: seq<T>, less: (T, T) -> bool) {
    forall i, j :: 0 <= i < j < |xs| ==> less(xs[i], xs[j])
  }

  ghost predicate IsFirst<T(!new)>(x: T, s: set<T>, less: (T, T) -> bool) {
    x in s && forall y :: y in s && y != x ==> less(x, y)
  }

  lemma FirstExists<T(!new)>(s: set<T>, less: (T, T) -> bool)
    requires StrictTotal(less) && s != {}
    ensures exists x :: IsFirst(x, s, less)
  {
    var one :| one in s;
    var rest := s - {one};
    assert forall y :: y in s ==> y == one || y in rest;
    if rest == {} {
      assert IsFirst(one, s, less);
    } else {
      FirstExists(rest, less);
      var x :| IsFirst(x, rest, less);
      var first := if less(one, x) then one else x;
      assert IsFirst(first, s, less);
    }
  }

  function First<T(!new, ==)>(s: set<T>, less: (T, T) -> bool): (x: T)
    requires StrictTotal(less) && s != {}
    ensures IsFirst(x, s, less)
  {
    FirstExists(s, less);
    assert exists x :: x in s && forall y :: y in s && y != x ==> less(x, y) by {
      var x :| IsFirst(x, s, less);
      assert x in s && forall y :: y in s && y != x ==> less(x, y);
    }
    var x :| x in s && forall y :: y in s && y != x ==> less(x, y);
    x
  }

  /** The elements of `s` in ascending order: each once, and nothing else. */
  function Sorted<T(!new, ==)>(s: set<T>, less: (T, T) -> bool): (xs: seq<T>)
    requires StrictTotal(less)
    ensures Ascending(xs, less)
    ensures |xs| == |s|
    ensures forall x :: x in xs <==> x in s
    decreases |s|
  {
    if s == {} then []
    else
      var x := First(s, less);
      var rest := Sorted(s - {x}, less);
      assert forall y :: y in rest ==> less(x, y);
      [x] + rest
  }

  /** An ascending sequence is determined by the elements it holds. */
  lemma {:induction false} AscendingIsUnique<T(!new)>(xs: seq<T>, ys: seq<T>, less: (T, T) -> bool)
    requires StrictTotal(less)
    requires Ascending(xs, less) && Ascending(ys, less)
    requires forall x :: x in xs <==> x in ys
    ensures xs == ys
  {
    if xs == [] {
      assert forall k :: 0 <= k < |ys| ==> ys[k] in xs;
    } else {
      assert xs[0] in ys;
      assert ys[0] in xs;
      assert forall k :: 0 < k < |xs| ==> less(xs[0], xs[k]);
      assert forall k :: 0 < k < |ys| ==> less(ys[0], ys[k]);
      assert xs[0] == ys[0];
      forall x ensures x in xs[1..] <==> x in ys[1..] {
        if x in xs[1..] {
          var k :| 1 <= k < |xs| && xs[k] == x;
          assert less(xs[0], x) && x != xs[0];
          assert x in ys;
          var l :| 0 <= l < |ys| && ys[l] == x;
          assert l != 0 && ys[1..][l - 1] == x;
        }
        if x in ys[1..] {
          var k :| 1 <= k < |ys| && ys[k] == x;
          assert less(ys[0], x) && x != ys[0];
          assert x in xs;
          var l :| 0 <= l < |xs| && xs[l] == x;
          assert l != 0 && xs[1..][l - 1] == x;
        }
      }
      AscendingIsUnique(xs[1..], ys[1..], less);
    }
  }

  /** Whatever a prefix of an ascending sequence leaves out comes after all of it. */
  lemma PrefixComesFirst<T(!new)>(xs: seq<T>, less: (T, T) -> bool, size: nat, x: T)
    requires Ascending(xs, less) && size <= |xs|
    requires x in xs && x !in xs[..size]
    ensures forall p :: p in xs[..size] ==> less(p, x)
  {
    var at :| 0 <= at < |xs| && xs[at] == x;
    assert size <= at;
    forall p | p in xs[..size] ensures less(p, x) {
      var i :| 0 <= i < size && xs[i] == p;
    }
  }

  /** Numbers, the smaller first. */
  predicate Ascends(a: nat, b: nat) { a < b }
}
