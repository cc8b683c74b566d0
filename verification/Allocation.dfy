/** How many postings a sample takes of each stratum: the shares rounded down, and the rest
    one by one to the largest fractions cut off. */
module Allocation {

  /** Stratum sizes in a fixed order; a stratum's exact share is `size * members / total`. */
  function Total(strata: seq<nat>): nat {
    if strata == [] then 0 else Total(strata[..|strata| - 1]) + strata[|strata| - 1]
  }

  /** The whole part of the share, but at least one. */
  function Floor(members: nat, size: nat, total: nat): nat
    requires total > 0
  {
    if members * size / total >= 1 then members * size / total else 1
  }

  /** The remainder left by the whole part, as a multiple of `1 / total`. */
  function Remainder(members: nat, size: nat, total: nat): nat
    requires total > 0
  {
    members * size % total
  }

  // ---------- Sums ----------

  lemma {:induction false} TotalWithOneMore(xs: seq<nat>, i: nat, x: nat)
    requires i < |xs|
    ensures Total(xs[i := x]) == Total(xs) - xs[i] + x
  {
    var last := |xs| - 1;
    if i == last {
      assert xs[i := x][..last] == xs[..last];
    } else {
      assert xs[i := x][..last] == xs[..last][i := x];
      TotalWithOneMore(xs[..last], i, x);
    }
  }

  lemma {:induction false} TotalIsMonotone(xs: seq<nat>, ys: seq<nat>)
    requires |xs| == |ys| && forall i :: 0 <= i < |xs| ==> xs[i] <= ys[i]
    ensures Total(xs) <= Total(ys)
    ensures Total(xs) == Total(ys) ==> xs == ys
  {
    if xs == [] {
      assert ys == [];
    } else {
      var last := |xs| - 1;
      var before, after := xs[..last], ys[..last];
      TotalIsMonotone(before, after);
      assert xs == before + [xs[last]] && ys == after + [ys[last]];
      assert Total(xs) == Total(before) + xs[last] && Total(ys) == Total(after) + ys[last];
    }
  }

  function Ones(n: nat): (ones: seq<nat>)
    ensures |ones| == n && forall i :: 0 <= i < n ==> ones[i] == 1
  {
    seq(n, i => 1)
  }

  lemma {:induction false} TotalOfOnes(n: nat)
    ensures Total(Ones(n)) == n
  {
    if n > 0 {
      TotalOfOnes(n - 1);
      assert Ones(n)[..n - 1] == Ones(n - 1);
    }
  }

  // ---------- The quotas ----------

  /** Between one and the stratum's size, everywhere. */
  predicate Bounded(floors: seq<nat>, strata: seq<nat>) {
    |floors| == |strata| && forall i :: 0 <= i < |strata| ==> 1 <= floors[i] <= strata[i]
  }

  lemma AtLeastOneEach(floors: seq<nat>, strata: seq<nat>)
    requires Bounded(floors, strata)
    ensures |strata| <= Total(floors) <= Total(strata)
    ensures (forall i :: 0 <= i < |floors| ==> floors[i] == 1) ==> Total(floors) == |strata|
  {
    TotalOfOnes(|floors|);
    TotalIsMonotone(Ones(|floors|), floors);
    TotalIsMonotone(floors, strata);
    if forall i :: 0 <= i < |floors| ==> floors[i] == 1 { assert floors == Ones(|floors|); }
  }

  lemma FloorIsWithin(members: nat, size: nat, total: nat)
    requires members >= 1 && size <= total && total > 0
    ensures 1 <= Floor(members, size, total) <= members
  {
    var gap := total - size;
    assert members * total == members * size + members * gap;
    assert members * size <= members * total;
    DivisionKeepsOrder(members * size, members, total);
  }

  lemma DivisionKeepsOrder(a: nat, b: nat, c: nat)
    requires c > 0 && a <= b * c
    ensures a / c <= b
  {
    var q := a / c;
    assert q * c <= a;
    assert (q - b) * c <= 0;
    assert q - b >= 1 ==> (q - b) * c >= c;
  }

  lemma FactorCancels(size: int, placed: int, room: int, total: nat)
    requires total > 0 && total * size - placed * total <= room * total
    ensures size - placed <= room
  {
    assert (size - placed - room) * total <= 0;
    assert size - placed - room >= 1 ==> (size - placed - room) * total >= total;
  }

  // ---------- Ordering by remainder ----------

  predicate IsPermutation(order: seq<nat>, n: nat) {
    && |order| == n
    && (forall i :: 0 <= i < n ==> order[i] < n)
    && (forall i :: 0 <= i < n ==> i in order)
  }

  /** Largest remainder first, ties in the strata's own order. */
  predicate ByRemainder(order: seq<nat>, remainders: seq<nat>) {
    forall i, j :: 0 <= i < j < |order| && order[i] < |remainders| && order[j] < |remainders| ==>
      remainders[order[i]] > remainders[order[j]]
      || (remainders[order[i]] == remainders[order[j]] && order[i] < order[j])
  }

  method SortByRemainder(remainders: seq<nat>) returns (order: seq<nat>)
    ensures IsPermutation(order, |remainders|)
    ensures ByRemainder(order, remainders)
  {
    hide Inserted, ByRemainder;
    order := [];
    EmptyIsInOrder(remainders);
    for n := 0 to |remainders|
      invariant IsPermutation(order, n)
      invariant ByRemainder(order, remainders)
    {
      var at := 0;
      while at < n && remainders[order[at]] >= remainders[n]
        invariant 0 <= at <= n
        invariant forall i :: 0 <= i < at ==> remainders[order[i]] >= remainders[n]
      {
        at := at + 1;
      }
      InsertedPermutes(order, n, at);
      InsertedIsInOrder(order, remainders, n, at);
      order := Inserted(order, n, at);
    }
  }

  lemma EmptyIsInOrder(remainders: seq<nat>)
    ensures ByRemainder([], remainders)
  {
  }

  function Inserted(order: seq<nat>, n: nat, at: nat): (longer: seq<nat>)
    requires at <= |order|
    ensures |longer| == |order| + 1 && longer[at] == n
    ensures forall i :: 0 <= i < at ==> longer[i] == order[i]
    ensures forall i :: at < i < |longer| ==> longer[i] == order[i - 1]
  {
    order[..at] + [n] + order[at..]
  }

  lemma InsertedPermutes(order: seq<nat>, n: nat, at: nat)
    requires at <= n && IsPermutation(order, n)
    ensures IsPermutation(Inserted(order, n, at), n + 1)
  {
    var longer := Inserted(order, n, at);
    hide Inserted;
    forall i | 0 <= i < n + 1 ensures i in longer {
      if i == n {
        assert longer[at] == n;
      } else {
        assert i in order;
        var j :| 0 <= j < |order| && order[j] == i;
        assert longer[if j < at then j else j + 1] == i;
      }
    }
  }

  lemma InsertedIsInOrder(order: seq<nat>, remainders: seq<nat>, n: nat, at: nat)
    requires n < |remainders| && at <= n && IsPermutation(order, n) && ByRemainder(order, remainders)
    requires forall i :: 0 <= i < at ==> remainders[order[i]] >= remainders[n]
    requires at < n ==> remainders[order[at]] < remainders[n]
    ensures ByRemainder(Inserted(order, n, at), remainders)
  {
    var longer := Inserted(order, n, at);
    hide Inserted;
    assert forall i :: at < i < n ==> remainders[order[i]] <= remainders[order[at]];
  }

  // ---------- Rounding down first ----------

  function Floors(strata: seq<nat>, size: nat): (floors: seq<nat>)
    requires forall i :: 0 <= i < |strata| ==> strata[i] >= 1
    ensures |floors| == |strata|
  {
    AllAtLeastOne(strata);
    var total := Total(strata);
    seq(|strata|, i requires 0 <= i < |strata| => Floor(strata[i], size, total))
  }

  function Remainders(strata: seq<nat>, size: nat): (remainders: seq<nat>)
    requires forall i :: 0 <= i < |strata| ==> strata[i] >= 1
    ensures |remainders| == |strata|
  {
    AllAtLeastOne(strata);
    var total := Total(strata);
    seq(|strata|, i requires 0 <= i < |strata| => Remainder(strata[i], size, total))
  }

  lemma AllAtLeastOne(strata: seq<nat>)
    requires forall i :: 0 <= i < |strata| ==> strata[i] >= 1
    ensures Total(strata) >= |strata|
  {
    TotalOfOnes(|strata|);
    TotalIsMonotone(Ones(|strata|), strata);
  }

  lemma FloorsAreBounded(strata: seq<nat>, size: nat)
    requires forall i :: 0 <= i < |strata| ==> strata[i] >= 1
    requires size <= Total(strata)
    ensures Bounded(Floors(strata, size), strata)
  {
    AllAtLeastOne(strata);
    forall i | 0 <= i < |strata| ensures 1 <= Floors(strata, size)[i] <= strata[i] {
      FloorIsWithin(strata[i], size, Total(strata));
    }
  }

  /** The strata among the first `n` that could still give one more. */
  function WithRoom(floors: seq<nat>, strata: seq<nat>, n: nat): set<nat>
    requires |floors| == |strata| && n <= |strata|
  {
    set i: nat | i < n && floors[i] < strata[i]
  }

  /** Where there is no room the share is not short of the quota; elsewhere by less than one. */
  lemma ShortByLessThanOne(members: nat, size: nat, total: nat)
    requires members >= 1 && size <= total && total > 0
    ensures members * size - Floor(members, size, total) * total
         <= if Floor(members, size, total) < members then total else 0
  {
    var share := members * size;
    ShareIsWithin(members, size, total);
    WholeAndRest(share, total);
    if share / total >= members { AtLeastTheSame(members, share / total, total); }
  }

  lemma ShareIsWithin(members: nat, size: nat, total: nat)
    requires size <= total
    ensures members * size <= members * total
  {
    assert members * (total - size) >= 0;
  }

  lemma WholeAndRest(a: nat, c: nat)
    requires c > 0
    ensures a / c * c + a % c == a && 0 <= a % c < c
    ensures a / c == 0 ==> a < c
  {
  }

  lemma AtLeastTheSame(few: nat, many: nat, each: nat)
    requires few <= many
    ensures few * each <= many * each
  {
    assert (many - few) * each >= 0;
  }

  /** What rounding down leaves over, in units of `1 / total`, is covered by one posting per stratum with room. */
  lemma {:induction false} RoomCoversTheRest(strata: seq<nat>, floors: seq<nat>, size: nat, total: nat, n: nat)
    requires |floors| == |strata| && n <= |strata| && size <= total && total > 0
    requires forall i :: 0 <= i < |strata| ==> strata[i] >= 1 && floors[i] == Floor(strata[i], size, total)
    ensures Total(strata[..n]) * size - Total(floors[..n]) * total <= |WithRoom(floors, strata, n)| * total
  {
    hide WithRoom, Floor;
    if n > 0 {
      var m := n - 1;
      RoomCoversTheRest(strata, floors, size, total, m);
      ShortByLessThanOne(strata[m], size, total);
      assert strata[..n][..m] == strata[..m] && floors[..n][..m] == floors[..m];
      var more := if floors[m] < strata[m] then 1 else 0;
      OneMoreWithRoom(floors, strata, m);
      Distribute(Total(strata[..m]), strata[m], size);
      Distribute(Total(floors[..m]), floors[m], total);
      Distribute(|WithRoom(floors, strata, m)|, more, total);
    }
  }

  lemma OneMoreWithRoom(floors: seq<nat>, strata: seq<nat>, m: nat)
    requires |floors| == |strata| && m < |strata|
    ensures |WithRoom(floors, strata, m + 1)|
         == |WithRoom(floors, strata, m)| + if floors[m] < strata[m] then 1 else 0
  {
    var before, now := WithRoom(floors, strata, m), WithRoom(floors, strata, m + 1);
    assert now == if floors[m] < strata[m] then before + {m} else before;
  }

  lemma Distribute(a: int, b: int, c: int)
    ensures (a + b) * c == a * c + b * c
  {
  }

  /** One pass over the strata is enough to place everything rounding down left over. */
  lemma OnePassIsEnough(strata: seq<nat>, size: nat)
    requires forall i :: 0 <= i < |strata| ==> strata[i] >= 1
    requires size <= Total(strata)
    ensures size - Total(Floors(strata, size)) <= |WithRoom(Floors(strata, size), strata, |strata|)|
  {
    hide Total, WithRoom, Floor;
    var floors, total, n := Floors(strata, size), Total(strata), |strata|;
    if n == 0 {
      assert strata == floors == [];
    } else {
      AllAtLeastOne(strata);
      RoomCoversTheRest(strata, floors, size, total, n);
      assert strata[..n] == strata && floors[..n] == floors;
      FactorCancels(size, Total(floors), |WithRoom(floors, strata, n)|, total);
    }
  }

  // ---------- Taking back ----------

  function Share(strata: seq<nat>, size: nat, i: nat): nat
    requires i < |strata|
  {
    strata[i] * size
  }

  /** Of two equal quotas, the smaller share gives way first, and the earlier stratum of
      equal shares. */
  predicate GivesWay(strata: seq<nat>, size: nat, i: nat, k: nat)
    requires i < |strata| && k < |strata|
  {
    Share(strata, size, i) < Share(strata, size, k) || (Share(strata, size, i) == Share(strata, size, k) && i < k)
  }

  /** Only strata at the top are cut: whatever was cut is within one of every other quota, and
      gave way before each that is still one above it. */
  predicate CutFromTheTop(quotas: seq<nat>, floors: seq<nat>, strata: seq<nat>, size: nat) {
    && |quotas| == |floors| == |strata|
    && (forall i :: 0 <= i < |floors| ==> quotas[i] <= floors[i])
    && (forall i, k :: 0 <= i < |floors| && 0 <= k < |floors| && quotas[i] < floors[i] ==>
          quotas[k] <= quotas[i] + 1)
    && (forall i, k ::
          (0 <= i < |floors| && 0 <= k < |floors| && quotas[i] < floors[i] && quotas[k] == quotas[i] + 1) ==>
          GivesWay(strata, size, i, k))
  }

  /** The stratum that gives way next. */
  predicate IsNext(quotas: seq<nat>, strata: seq<nat>, size: nat, at: nat) {
    && at < |quotas| == |strata|
    && forall i :: 0 <= i < |quotas| && i != at ==>
         quotas[i] < quotas[at] || (quotas[i] == quotas[at] && GivesWay(strata, size, at, i))
  }

  method Largest(quotas: seq<nat>, strata: seq<nat>, size: nat) returns (at: nat)
    requires |quotas| == |strata| > 0
    ensures IsNext(quotas, strata, size, at)
  {
    hide Share;
    at := 0;
    for n := 1 to |quotas|
      invariant at < n
      invariant forall i :: 0 <= i < n && i != at ==>
        quotas[i] < quotas[at] || (quotas[i] == quotas[at] && GivesWay(strata, size, at, i))
    {
      if quotas[n] > quotas[at]
         || (quotas[n] == quotas[at] && Share(strata, size, n) < Share(strata, size, at)) {
        at := n;
      }
    }
  }

  lemma CutOnce(quotas: seq<nat>, floors: seq<nat>, strata: seq<nat>, size: nat, at: nat)
    requires CutFromTheTop(quotas, floors, strata, size) && IsNext(quotas, strata, size, at) && quotas[at] >= 1
    ensures CutFromTheTop(quotas[at := quotas[at] - 1], floors, strata, size)
  {
    hide GivesWay;
  }

  method TakeBack(floors: seq<nat>, strata: seq<nat>, size: nat) returns (quotas: seq<nat>)
    requires Bounded(floors, strata)
    ensures Bounded(quotas, strata)
    ensures CutFromTheTop(quotas, floors, strata, size)
    ensures Total(floors) <= size ==> quotas == floors
    ensures Total(floors) > size ==> Total(quotas) == if size > |strata| then size else |strata|
  {
    quotas := floors;
    while Total(quotas) > size
      invariant Bounded(quotas, strata)
      invariant CutFromTheTop(quotas, floors, strata, size)
      invariant Total(floors) <= size ==> quotas == floors
      invariant Total(floors) > size ==> Total(quotas) >= size
      decreases Total(quotas)
    {
      hide CutFromTheTop, GivesWay;
      AtLeastOneEach(quotas, strata);
      var at := Largest(quotas, strata, size);
      if quotas[at] == 1 {
        return;
      }
      TotalWithOneMore(quotas, at, quotas[at] - 1);
      CutOnce(quotas, floors, strata, size, at);
      quotas := quotas[at := quotas[at] - 1];
    }
    AtLeastOneEach(quotas, strata);
  }

  // ---------- Handing out ----------

  /** No stratum with room is passed over for one with a smaller remainder. */
  predicate LargestRemaindersFirst(quotas: seq<nat>, floors: seq<nat>, strata: seq<nat>, remainders: seq<nat>) {
    && |quotas| == |floors| == |strata| == |remainders|
    && (forall i :: 0 <= i < |floors| ==>
          quotas[i] == floors[i] || (quotas[i] == floors[i] + 1 && floors[i] < strata[i]))
    && (forall i, k ::
          (0 <= i < |floors| && 0 <= k < |floors| && quotas[i] == floors[i] < strata[i] && quotas[k] > floors[k]) ==>
          remainders[k] > remainders[i] || (remainders[k] == remainders[i] && k < i))
  }

  /** The strata visited first have been topped up where there was room, the rest not yet. */
  predicate ToppedUp(quotas: seq<nat>, floors: seq<nat>, strata: seq<nat>, order: seq<nat>, index: nat) {
    && |quotas| == |floors| == |strata| == |order|
    && (forall j :: 0 <= j < |order| ==> order[j] < |order|)
    && (forall j :: 0 <= j < index && j < |order| ==>
          quotas[order[j]] == floors[order[j]] + if floors[order[j]] < strata[order[j]] then 1 else 0)
    && (forall j :: index <= j < |order| ==> quotas[order[j]] == floors[order[j]])
  }

  lemma ToppedUpIsLargestFirst(
    quotas: seq<nat>, floors: seq<nat>, strata: seq<nat>, remainders: seq<nat>, order: seq<nat>, index: nat)
    requires ToppedUp(quotas, floors, strata, order, index) && |remainders| == |strata|
    requires IsPermutation(order, |remainders|) && ByRemainder(order, remainders)
    ensures LargestRemaindersFirst(quotas, floors, strata, remainders)
  {
    forall i | 0 <= i < |floors|
      ensures quotas[i] == floors[i] || (quotas[i] == floors[i] + 1 && floors[i] < strata[i])
    {
      assert i in order;
    }
    forall i, k | 0 <= i < |floors| && 0 <= k < |floors| && quotas[i] == floors[i] < strata[i] && quotas[k] > floors[k]
      ensures remainders[k] > remainders[i] || (remainders[k] == remainders[i] && k < i)
    {
      assert i in order && k in order;
      var late :| 0 <= late < |order| && order[late] == i;
      var early :| 0 <= early < |order| && order[early] == k;
      assert early < index <= late;
    }
  }

  lemma TopUpTheNext(
    quotas: seq<nat>, floors: seq<nat>, strata: seq<nat>, remainders: seq<nat>, order: seq<nat>, index: nat)
    requires ToppedUp(quotas, floors, strata, order, index) && index < |order| == |remainders|
    requires ByRemainder(order, remainders)
    requires Bounded(quotas, strata)
    ensures var name := order[index];
      var more := if quotas[name] < strata[name] then quotas[name := quotas[name] + 1] else quotas;
      && ToppedUp(more, floors, strata, order, index + 1)
      && Bounded(more, strata)
      && Total(more) == Total(quotas) + if floors[name] < strata[name] then 1 else 0
  {
    hide Total;
    var name := order[index];
    TotalWithOneMore(quotas, name, quotas[name] + 1);
    assert forall j :: 0 <= j < |order| && j != index ==> order[j] != name;
  }

  method HandOut(floors: seq<nat>, strata: seq<nat>, remainders: seq<nat>, size: nat) returns (quotas: seq<nat>)
    requires Bounded(floors, strata) && |remainders| == |strata|
    requires Total(floors) <= size && size - Total(floors) <= |WithRoom(floors, strata, |strata|)|
    ensures Bounded(quotas, strata)
    ensures Total(quotas) == size
    ensures LargestRemaindersFirst(quotas, floors, strata, remainders)
  {
    hide Total, WithRoom, ByRemainder, IsPermutation, ToppedUp, LargestRemaindersFirst;
    var order := SortByRemainder(remainders);
    quotas := floors;
    var index := 0;
    ghost var waiting := WithRoom(floors, strata, |strata|);
    NoneVisited(floors, strata, remainders, order);
    while Total(quotas) < size
      invariant index <= |order| == |strata|
      invariant ToppedUp(quotas, floors, strata, order, index)
      invariant Bounded(quotas, strata)
      invariant Total(quotas) <= size
      invariant size - Total(quotas) <= |waiting|
      invariant waiting == Waiting(floors, strata, order, index)
      decreases |order| - index
    {
      SomeoneWaits(floors, strata, order, index);
      TopUpTheNext(quotas, floors, strata, remainders, order, index);
      TheNextLeaves(floors, strata, remainders, order, index);
      var name := order[index % |order|];
      if quotas[name] < strata[name] {
        quotas := quotas[name := quotas[name] + 1];
      }
      index := index + 1;
      waiting := Waiting(floors, strata, order, index);
    }
    ToppedUpIsLargestFirst(quotas, floors, strata, remainders, order, index);
  }

  /** The strata with room from the `index`-th visit on. */
  ghost function Waiting(floors: seq<nat>, strata: seq<nat>, order: seq<nat>, index: nat): set<nat>
    requires |floors| == |strata|
  {
    set i: nat | i < |strata| && floors[i] < strata[i] && forall j :: 0 <= j < index && j < |order| ==> order[j] != i
  }

  lemma NoneVisited(floors: seq<nat>, strata: seq<nat>, remainders: seq<nat>, order: seq<nat>)
    requires |floors| == |strata| == |remainders| && IsPermutation(order, |remainders|)
    ensures |order| == |strata| && ToppedUp(floors, floors, strata, order, 0)
    ensures WithRoom(floors, strata, |strata|) == Waiting(floors, strata, order, 0)
  {
  }

  lemma SomeoneWaits(floors: seq<nat>, strata: seq<nat>, order: seq<nat>, index: nat)
    requires |floors| == |strata| && IsPermutation(order, |strata|) && index <= |order|
    requires |Waiting(floors, strata, order, index)| > 0
    ensures index < |order| && index % |order| == index && order[index] < |strata|
  {
    var i :| i in Waiting(floors, strata, order, index);
    assert i in order;
  }

  lemma TheNextLeaves(floors: seq<nat>, strata: seq<nat>, remainders: seq<nat>, order: seq<nat>, index: nat)
    requires |floors| == |strata| == |remainders|
    requires IsPermutation(order, |remainders|) && ByRemainder(order, remainders)
    requires index < |order|
    ensures |Waiting(floors, strata, order, index + 1)|
         == |Waiting(floors, strata, order, index)| - if floors[order[index]] < strata[order[index]] then 1 else 0
  {
    var name := order[index];
    assert Waiting(floors, strata, order, index + 1) == Waiting(floors, strata, order, index) - {name};
    assert forall j :: 0 <= j < index ==> order[j] != name;
  }

  // ---------- The whole allocation ----------

  /**
   * Every stratum gets between one posting and all it has, and the parts sum to the sample,
   * or to one each where the sample is smaller than that. Either the whole parts fit, and the
   * largest remainders get one more each, or they do not, and the largest quotas give way.
   */
  method Allocate(strata: seq<nat>, size: nat) returns (quotas: seq<nat>)
    requires forall i :: 0 <= i < |strata| ==> strata[i] >= 1
    requires size <= Total(strata)
    ensures Bounded(quotas, strata)
    ensures Total(quotas) == if size > |strata| then size else |strata|
    ensures Total(Floors(strata, size)) <= size ==>
      LargestRemaindersFirst(quotas, Floors(strata, size), strata, Remainders(strata, size))
    ensures Total(Floors(strata, size)) > size ==> CutFromTheTop(quotas, Floors(strata, size), strata, size)
  {
    hide Total, WithRoom, Floors, Remainders, Bounded, LargestRemaindersFirst, CutFromTheTop;
    var floors, remainders := Floors(strata, size), Remainders(strata, size);
    FloorsAreBounded(strata, size);
    AtLeastOneEach(floors, strata);
    OnePassIsEnough(strata, size);
    quotas := TakeBack(floors, strata, size);
    if Total(quotas) < size {
      quotas := HandOut(quotas, strata, remainders, size);
    } else if Total(floors) == size {
      NothingHandedOut(floors, strata, remainders);
    }
  }

  lemma NothingHandedOut(floors: seq<nat>, strata: seq<nat>, remainders: seq<nat>)
    requires |floors| == |strata| == |remainders|
    ensures LargestRemaindersFirst(floors, floors, strata, remainders)
  {
  }

  // ---------- What the two conditions fix ----------

  /** There is only one way to hand out a given number of postings by largest remainder. */
  lemma HandingOutIsUnique(
    one: seq<nat>, other: seq<nat>, floors: seq<nat>, strata: seq<nat>, remainders: seq<nat>)
    requires LargestRemaindersFirst(one, floors, strata, remainders)
    requires LargestRemaindersFirst(other, floors, strata, remainders)
    requires Total(one) == Total(other)
    ensures one == other
  {
    if i, k :| 0 <= i < |one| && one[i] > other[i] && 0 <= k < |one| && other[k] > one[k] {
      assert false;
    } else if forall i :: 0 <= i < |one| ==> one[i] <= other[i] {
      TotalIsMonotone(one, other);
    } else {
      TotalIsMonotone(other, one);
    }
  }

  /** And only one way to take a given number back from the top. */
  lemma TakingBackIsUnique(one: seq<nat>, other: seq<nat>, floors: seq<nat>, strata: seq<nat>, size: nat)
    requires CutFromTheTop(one, floors, strata, size) && CutFromTheTop(other, floors, strata, size)
    requires Total(one) == Total(other)
    ensures one == other
  {
    hide Share;
    if i, k :| 0 <= i < |one| && one[i] < other[i] && 0 <= k < |one| && one[k] > other[k] {
      assert false;
    } else if forall i :: 0 <= i < |one| ==> one[i] <= other[i] {
      TotalIsMonotone(one, other);
    } else {
      TotalIsMonotone(other, one);
    }
  }

  /** A sample larger than the pool: no stratum has room, and the parts meet it only if every share is whole. */
  lemma TooLargeASampleHasNoRoom(strata: seq<nat>, size: nat)
    requires forall i :: 0 <= i < |strata| ==> strata[i] >= 1
    requires size > Total(strata)
    ensures forall i :: 0 <= i < |strata| ==> Floors(strata, size)[i] >= strata[i]
    ensures strata != [] ==>
      (Total(Floors(strata, size)) >= size
       <==> forall i :: 0 <= i < |strata| ==> Remainders(strata, size)[i] == 0)
  {
    hide Total, Floor, Remainder;
    AllAtLeastOne(strata);
    if strata != [] {
      var floors, remainders, total, n := Floors(strata, size), Remainders(strata, size), Total(strata), |strata|;
      forall i | 0 <= i < n
        ensures floors[i] >= strata[i] && strata[i] * size == floors[i] * total + remainders[i]
      {
        WholePartCoversAll(strata[i], size, total);
      }
      SharesAddUp(strata, floors, remainders, size, total);
      ReachesTheSizeIff(Total(floors), size, total, Total(remainders));
      NothingRemainsIff(remainders);
    }
  }

  lemma ReachesTheSizeIff(placed: nat, size: nat, total: nat, rest: nat)
    requires total > 0 && total * size == placed * total + rest
    ensures placed >= size <==> rest == 0
  {
    if placed > size { MoreOfTheSame(size, placed, total); }
    if placed < size { MoreOfTheSame(placed, size, total); }
  }

  lemma NothingRemainsIff(remainders: seq<nat>)
    ensures Total(remainders) == 0 <==> forall i :: 0 <= i < |remainders| ==> remainders[i] == 0
  {
    var zeros := Zeros(|remainders|);
    TotalOfZeros(|remainders|);
    TotalIsMonotone(zeros, remainders);
    if forall i :: 0 <= i < |remainders| ==> remainders[i] == 0 { assert remainders == zeros; }
  }

  lemma MoreOfTheSame(few: nat, many: nat, each: nat)
    requires few < many && each > 0
    ensures few * each < many * each
  {
    assert many * each == few * each + (many - few) * each;
    assert (many - few - 1) * each >= 0;
  }

  lemma WholePartCoversAll(members: nat, size: nat, total: nat)
    requires members >= 1 && size > total > 0
    ensures Floor(members, size, total) >= members
    ensures members * size == Floor(members, size, total) * total + Remainder(members, size, total)
  {
    assert members * size == members * total + members * (size - total);
    DivisionReaches(members * size, members, total);
  }

  lemma DivisionReaches(a: nat, b: nat, c: nat)
    requires c > 0 && a >= b * c
    ensures a / c >= b && a / c * c + a % c == a
  {
    var q := a / c;
    assert q * c + a % c == a;
    assert q < b ==> (b - q - 1) * c >= 0;
  }

  lemma {:induction false} SharesAddUp(
    strata: seq<nat>, floors: seq<nat>, remainders: seq<nat>, size: nat, total: nat)
    requires |floors| == |remainders| == |strata|
    requires forall i :: 0 <= i < |strata| ==> strata[i] * size == floors[i] * total + remainders[i]
    ensures Total(strata) * size == Total(floors) * total + Total(remainders)
  {
    if strata != [] {
      var m := |strata| - 1;
      SharesAddUp(strata[..m], floors[..m], remainders[..m], size, total);
      Distribute(Total(strata[..m]), strata[m], size);
      Distribute(Total(floors[..m]), floors[m], total);
    }
  }

  function Zeros(n: nat): (zeros: seq<nat>)
    ensures |zeros| == n && forall i :: 0 <= i < n ==> zeros[i] == 0
  {
    seq(n, i => 0)
  }

  lemma {:induction false} TotalOfZeros(n: nat)
    ensures Total(Zeros(n)) == 0
  {
    if n > 0 {
      TotalOfZeros(n - 1);
      assert Zeros(n)[..n - 1] == Zeros(n - 1);
    }
  }
}
