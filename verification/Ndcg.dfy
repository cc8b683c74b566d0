/** Normalized discounted cumulative gain over a ranked list of relevance grades. */
module Ndcg {

  /** The discount by position: positive, and smaller further down. */
  type Discount = nat -> real

  ghost predicate Discounts(d: Discount) {
    && (forall i: nat :: d(i) > 0.0)
    && (forall i: nat, j: nat :: i < j ==> d(i) > d(j))
  }

  /** How many of a list a cutoff keeps; it counts from the end when negative. */
  function Kept(length: nat, cutoff: int): (k: nat)
    ensures k <= length
  {
    if cutoff >= 0 then (if cutoff <= length then cutoff else length)
    else if length + cutoff >= 0 then length + cutoff
    else 0
  }

  /** The places a cutoff keeps: those before it, counted from the front, or from the end when
      it is negative. */
  lemma KeptAreTheFirst(length: nat, cutoff: int, i: nat)
    requires i < length
    ensures i < Kept(length, cutoff) <==> if cutoff < 0 then i - length < cutoff else i < cutoff
  {
  }

  /** A list up to a cutoff. */
  function Slice<T>(xs: seq<T>, cutoff: int): (cut: seq<T>)
    ensures cut <= xs
  {
    xs[..Kept(|xs|, cutoff)]
  }

  /** What one grade is worth at a position. */
  function Worth(d: Discount, grade: int, position: nat): real {
    grade as real * d(position)
  }

  /** The discounted sum of grades that start at position `from`. */
  function GainFrom(d: Discount, grades: seq<int>, from: nat): real {
    if grades == [] then 0.0
    else Worth(d, grades[0], from) + GainFrom(d, grades[1..], from + 1)
  }

  function DiscountedGain(d: Discount, grades: seq<int>): real {
    GainFrom(d, grades, 0)
  }

  predicate Descending(grades: seq<int>) {
    forall i, j :: 0 <= i < j < |grades| ==> grades[i] >= grades[j]
  }

  function Insert(x: int, sorted: seq<int>): (more: seq<int>)
    ensures multiset(more) == multiset(sorted) + multiset{x}
    ensures |more| == |sorted| + 1
  {
    if sorted == [] || x >= sorted[0] then
      [x] + sorted
    else
      assert sorted == [sorted[0]] + sorted[1..];
      [sorted[0]] + Insert(x, sorted[1..])
  }

  /** The grades from best to worst. */
  function Ideal(grades: seq<int>): (sorted: seq<int>)
    ensures multiset(sorted) == multiset(grades)
    ensures |sorted| == |grades|
  {
    if grades == [] then []
    else
      assert grades == [grades[0]] + grades[1..];
      Insert(grades[0], Ideal(grades[1..]))
  }

  /** 0 when the best possible gain is. */
  function Ndcg(d: Discount, grades: seq<int>, cutoff: int): real {
    var best := DiscountedGain(d, Slice(Ideal(grades), cutoff));
    if best != 0.0 then DiscountedGain(d, Slice(grades, cutoff)) / best else 0.0
  }

  // ---------- The ideal order is the sorted one ----------

  lemma {:induction false} InsertKeepsDescending(x: int, sorted: seq<int>)
    requires Descending(sorted)
    ensures Descending(Insert(x, sorted))
    ensures forall y :: y in Insert(x, sorted) ==> y == x || y in sorted
  {
    if sorted != [] && x < sorted[0] {
      InsertKeepsDescending(x, sorted[1..]);
      var rest := Insert(x, sorted[1..]);
      assert forall i :: 0 <= i < |rest| ==> rest[i] in rest;
      assert forall y :: y in sorted[1..] ==> y in sorted && y <= sorted[0];
    }
  }

  lemma {:induction false} IdealIsDescending(grades: seq<int>)
    ensures Descending(Ideal(grades))
  {
    if grades != [] {
      IdealIsDescending(grades[1..]);
      InsertKeepsDescending(grades[0], Ideal(grades[1..]));
    }
  }

  /** Grades already in relevance order are their own ideal. */
  lemma {:induction false} DescendingIsIdeal(grades: seq<int>)
    requires Descending(grades)
    ensures Ideal(grades) == grades
  {
    if grades != [] {
      DescendingIsIdeal(grades[1..]);
      assert [grades[0]] + grades[1..] == grades;
    }
  }

  // ---------- The truncated rearrangement inequality ----------

  /** The gain of the first `k` grades, at positions from `from`. */
  function GainOf(d: Discount, grades: seq<int>, from: nat, k: nat): real {
    if grades == [] || k == 0 then 0.0
    else Worth(d, grades[0], from) + GainOf(d, grades[1..], from + 1, k - 1)
  }

  lemma GainOfFirst(d: Discount, x: int, rest: seq<int>, from: nat, k: nat)
    requires k > 0
    ensures GainOf(d, [x] + rest, from, k) == Worth(d, x, from) + GainOf(d, rest, from + 1, k - 1)
  {
    assert ([x] + rest)[1..] == rest;
  }

  /** Of two neighbours in the wrong order, the larger is worth more first. */
  lemma SwapGains(d: Discount, x: int, z: int, at: nat)
    requires Discounts(d) && x < z
    ensures Worth(d, x, at) + Worth(d, z, at + 1) < Worth(d, z, at) + Worth(d, x, at + 1)
  {
    var near, far := d(at), d(at + 1);
    assert near > far;
    assert (z - x) as real * (near - far) > 0.0;
    assert (z - x) as real * (near - far)
        == z as real * near + x as real * far - x as real * near - z as real * far;
  }

  lemma LargerGains(d: Discount, x: int, z: int, at: nat)
    requires Discounts(d) && x < z
    ensures Worth(d, x, at) < Worth(d, z, at)
  {
    assert (z - x) as real * d(at) > 0.0;
  }

  /** Moving a grade down to its place gains, wherever the cut falls, unless it was there. */
  lemma {:induction false} InsertGains(d: Discount, x: int, sorted: seq<int>, from: nat, k: nat)
    requires Discounts(d)
    ensures GainOf(d, [x] + sorted, from, k) <= GainOf(d, Insert(x, sorted), from, k)
    ensures k > 0 && Insert(x, sorted) != [x] + sorted ==>
              GainOf(d, [x] + sorted, from, k) < GainOf(d, Insert(x, sorted), from, k)
  {
    if sorted != [] && x < sorted[0] && k > 0 {
      hide GainOf, Worth;
      var z, rest := sorted[0], sorted[1..];
      InsertGains(d, x, rest, from + 1, k - 1);
      assert [z] + rest == sorted;
      GainOfFirst(d, z, Insert(x, rest), from, k);
      GainOfFirst(d, x, sorted, from, k);
      if k == 1 {
        LargerGains(d, x, z, from);
        NoGain(d, sorted, from + 1);
        NoGain(d, Insert(x, rest), from + 1);
      } else {
        GainOfFirst(d, z, rest, from + 1, k - 1);
        GainOfFirst(d, x, rest, from + 1, k - 1);
        SwapGains(d, x, z, from);
      }
    }
  }

  lemma NoGain(d: Discount, grades: seq<int>, from: nat)
    ensures GainOf(d, grades, from, 0) == 0.0
  {
  }

  /** No order of the same grades gains more within a cut than the ideal one, and one
      that gains as much is the ideal one up to the cut. */
  lemma {:induction false} IdealGainsMost(d: Discount, grades: seq<int>, from: nat, k: nat)
    requires Discounts(d) && k <= |grades|
    ensures GainOf(d, grades, from, k) <= GainOf(d, Ideal(grades), from, k)
    ensures GainOf(d, grades, from, k) == GainOf(d, Ideal(grades), from, k) ==>
              grades[..k] == Ideal(grades)[..k]
  {
    hide GainOf, Worth, Insert, Ideal;
    if k == 0 {
      NoGain(d, grades, from);
      NoGain(d, Ideal(grades), from);
    } else {
      var first, tail := grades[0], grades[1..];
      IdealGainsMost(d, tail, from + 1, k - 1);
      FirstGains(d, first, tail, from, k);
      assert grades == [first] + tail;
    }
  }

  /** One more grade in front: its place among the ideal of the rest gains most. */
  lemma FirstGains(d: Discount, first: int, tail: seq<int>, from: nat, k: nat)
    requires Discounts(d) && 1 <= k <= |tail| + 1
    requires GainOf(d, tail, from + 1, k - 1) <= GainOf(d, Ideal(tail), from + 1, k - 1)
    requires GainOf(d, tail, from + 1, k - 1) == GainOf(d, Ideal(tail), from + 1, k - 1) ==>
               tail[..k - 1] == Ideal(tail)[..k - 1]
    ensures GainOf(d, [first] + tail, from, k) <= GainOf(d, Ideal([first] + tail), from, k)
    ensures GainOf(d, [first] + tail, from, k) == GainOf(d, Ideal([first] + tail), from, k) ==>
              ([first] + tail)[..k] == Ideal([first] + tail)[..k]
  {
    hide GainOf, Worth, Insert, Ideal, Discounts;
    var rest := Ideal(tail);
    IdealOfFirst(first, tail);
    GainOfFirst(d, first, rest, from, k);
    GainOfFirst(d, first, tail, from, k);
    InsertGains(d, first, rest, from, k);
    SamePrefix(first, tail, rest, k);
  }

  lemma IdealOfFirst(first: int, tail: seq<int>)
    ensures Ideal([first] + tail) == Insert(first, Ideal(tail))
  {
    assert ([first] + tail)[1..] == tail;
  }

  lemma SamePrefix(first: int, a: seq<int>, b: seq<int>, k: nat)
    requires 1 <= k <= |a| + 1 && |a| == |b|
    ensures a[..k - 1] == b[..k - 1] ==> ([first] + a)[..k] == ([first] + b)[..k]
  {
    assert ([first] + a)[..k] == [first] + a[..k - 1];
    assert ([first] + b)[..k] == [first] + b[..k - 1];
  }

  /** Cutting then summing is summing up to the cut. */
  lemma {:induction false} GainOfPrefix(d: Discount, grades: seq<int>, from: nat, k: nat)
    requires k <= |grades|
    ensures GainFrom(d, grades[..k], from) == GainOf(d, grades, from, k)
  {
    if k > 0 {
      assert grades[..k][1..] == grades[1..][..k - 1];
      GainOfPrefix(d, grades[1..], from + 1, k - 1);
    }
  }

  lemma WorthIsNonNegative(d: Discount, g: int, at: nat)
    requires Discounts(d) && g >= 0
    ensures Worth(d, g, at) >= 0.0 && (g > 0 ==> Worth(d, g, at) > 0.0)
  {
  }

  lemma {:induction false} GainIsNonNegative(d: Discount, grades: seq<int>, from: nat, k: nat)
    requires Discounts(d) && forall g :: g in grades ==> g >= 0
    ensures GainOf(d, grades, from, k) >= 0.0
    ensures k <= |grades| ==>
              (GainOf(d, grades, from, k) > 0.0 <==> exists i :: 0 <= i < k && grades[i] > 0)
  {
    if grades != [] && k > 0 {
      hide Worth;
      assert forall g :: g in grades[1..] ==> g in grades;
      GainIsNonNegative(d, grades[1..], from + 1, k - 1);
      assert grades[0] in grades;
      WorthIsNonNegative(d, grades[0], from);
      if k <= |grades| {
        if i :| 0 <= i < k && grades[i] > 0 {
          if i > 0 { assert grades[1..][i - 1] > 0; }
        }
        if GainOf(d, grades, from, k) > 0.0 && grades[0] == 0 {
          NothingWorth(d, from);
          var i :| 0 <= i < k - 1 && grades[1..][i] > 0;
          assert grades[i + 1] > 0;
        }
      }
    }
  }

  lemma NothingWorth(d: Discount, at: nat)
    ensures Worth(d, 0, at) == 0.0
  {
  }

  lemma SameGrades(grades: seq<int>)
    ensures forall g :: g in Ideal(grades) <==> g in grades
  {
    forall g ensures g in Ideal(grades) <==> g in grades {
      assert g in multiset(Ideal(grades)) <==> g in multiset(grades);
    }
  }

  lemma Quotient(gain: real, best: real)
    requires 0.0 <= gain <= best && best > 0.0
    ensures 0.0 <= gain / best <= 1.0
    ensures gain / best == 1.0 <==> gain == best
  {
  }

  /** The first `k` are in falling order and nothing after them is better. */
  predicate BestFirst(grades: seq<int>, k: nat) {
    forall i, j :: 0 <= i < k && i < j < |grades| ==> grades[i] >= grades[j]
  }

  lemma InsertedFirst(x: int, sorted: seq<int>)
    requires forall y :: y in sorted ==> x >= y
    ensures Insert(x, sorted) == [x] + sorted
  {
    if sorted != [] { assert sorted[0] in sorted; }
  }

  /** The best first is what the ideal order begins with. */
  lemma {:induction false} BestFirstBeginsIdeally(grades: seq<int>, k: nat)
    requires k <= |grades| && BestFirst(grades, k)
    ensures grades[..k] == Ideal(grades)[..k]
  {
    if k > 0 {
      hide Insert, Ideal;
      var first, tail := grades[0], grades[1..];
      BestFirstBeginsIdeally(tail, k - 1);
      SameGrades(tail);
      InsertedFirst(first, Ideal(tail));
      assert grades == [first] + tail;
      IdealOfFirst(first, tail);
      SamePrefix(first, tail, Ideal(tail), k);
    }
  }

  /** And only the best first is. */
  lemma BeginsIdeallyIsBestFirst(grades: seq<int>, k: nat)
    requires k <= |grades| && grades[..k] == Ideal(grades)[..k]
    ensures BestFirst(grades, k)
  {
    hide Insert, Ideal;
    var ideal := Ideal(grades);
    IdealIsDescending(grades);
    forall i, j | 0 <= i < k && i < j < |grades| ensures grades[i] >= grades[j] {
      assert grades[i] == grades[..k][i] == ideal[..k][i] == ideal[i];
      if j < k {
        assert grades[j] == grades[..k][j] == ideal[..k][j] == ideal[j];
      } else {
        var l := LaterInBoth(grades, ideal, k, j);
        assert ideal[i] >= ideal[l];
      }
    }
  }

  lemma SameRest(a: seq<int>, b: seq<int>, k: nat)
    requires multiset(a) == multiset(b) && k <= |a| == |b| && a[..k] == b[..k]
    ensures multiset(a[k..]) == multiset(b[k..])
  {
    SplitMultiset(a, k);
    SplitMultiset(b, k);
  }

  lemma SplitMultiset(a: seq<int>, k: nat)
    requires k <= |a|
    ensures multiset(a[k..]) == multiset(a) - multiset(a[..k])
  {
    assert a == a[..k] + a[k..];
  }

  /** What follows a common beginning of two orders of the same grades is the same grades. */
  lemma LaterInBoth(a: seq<int>, b: seq<int>, k: nat, j: nat) returns (l: nat)
    requires multiset(a) == multiset(b) && k <= j < |a| == |b| && a[..k] == b[..k]
    ensures k <= l < |b| && b[l] == a[j]
  {
    SameRest(a, b, k);
    assert a[k..][j - k] == a[j];
    assert a[j] in multiset(b[k..]);
    var at :| 0 <= at < |b[k..]| && b[k..][at] == a[j];
    l := k + at;
  }

  /** The score lies between 0 and 1 for any ranking of non-negative grades and any
      cutoff; and it is 1 exactly when something relevant was within reach and the
      ranking shows the best grades in the best order. */
  lemma ScoreIsARatio(d: Discount, grades: seq<int>, cutoff: int)
    requires Discounts(d) && forall g :: g in grades ==> g >= 0
    ensures 0.0 <= Ndcg(d, grades, cutoff) <= 1.0
    ensures Ndcg(d, grades, cutoff) == 1.0 <==>
              && BestFirst(grades, |Slice(grades, cutoff)|)
              && exists g :: g in Slice(grades, cutoff) && g > 0
  {
    hide GainOf, GainFrom, Insert, BestFirst;
    var k := Kept(|grades|, cutoff);
    var ideal := Ideal(grades);
    GainOfPrefix(d, grades, 0, k);
    GainOfPrefix(d, ideal, 0, k);
    IdealGainsMost(d, grades, 0, k);
    if grades[..k] == ideal[..k] { BeginsIdeallyIsBestFirst(grades, k); }
    if BestFirst(grades, k) { BestFirstBeginsIdeally(grades, k); }
    GainIsNonNegative(d, grades, 0, k);
    SameGrades(grades);
    GainIsNonNegative(d, ideal, 0, k);
    var gain, best := GainOf(d, grades, 0, k), GainOf(d, ideal, 0, k);
    if best > 0.0 { Quotient(gain, best); }
    if g :| g in grades[..k] && g > 0 {
      var i :| 0 <= i < k && grades[..k][i] == g;
      assert grades[i] > 0;
    }
    if i :| 0 <= i < k && ideal[i] > 0 {
      assert ideal[..k][i] in ideal[..k];
    }
  }

  /** In particular a ranking already in relevance order scores 1 when some grade within
      the cutoff is positive. */
  lemma RelevanceOrderScoresOne(d: Discount, grades: seq<int>, cutoff: int)
    requires Discounts(d) && forall g :: g in grades ==> g >= 0
    requires Descending(grades)
    requires exists g :: g in Slice(grades, cutoff) && g > 0
    ensures Ndcg(d, grades, cutoff) == 1.0
  {
    hide Ndcg, Ideal, Slice;
    DescendingIsIdeal(grades);
    ScoreIsARatio(d, grades, cutoff);
  }
}
