/** The bounded attempt throttle: fixed windows per key, the oldest key dropped. */
module Throttle {
  import opened Sets
  import opened Wrappers

  type Key = string

  datatype Limit = Limit(attempts: nat, window: real)

  predicate Acceptable(limit: Limit) {
    limit.attempts >= 1 && limit.window > 0.0
  }

  datatype Window = Window(started: real, attempts: nat)

  function Ceil(x: real): (n: int)
    ensures x <= n as real < x + 1.0
  {
    -((-x).Floor)
  }

  // ---------- One key's window ----------

  /** The whole seconds still to wait, or nothing; an ended window is forgotten. */
  function Check(limit: Limit, w: Option<Window>, now: real): (Option<Window>, Option<int>) {
    if w.None? then (None, None)
    else
      var remaining := limit.window - (now - w.value.started);
      if remaining <= 0.0 then (None, None)
      else if w.value.attempts < limit.attempts then (w, None)
      else (w, Some(if Ceil(remaining) > 1 then Ceil(remaining) else 1))
  }

  function Count(limit: Limit, w: Option<Window>, now: real): Window {
    if w.None? || now - w.value.started >= limit.window then Window(now, 1)
    else Window(w.value.started, w.value.attempts + 1)
  }

  /** Waiting the returned seconds always clears the refusal. */
  lemma WaitingClears(limit: Limit, w: Option<Window>, now: real, later: real)
    requires Check(limit, w, now).1.Some?
    requires later >= now + Check(limit, w, now).1.value as real
    ensures Check(limit, Check(limit, w, now).0, later).1.None?
    ensures Check(limit, w, now).1.value >= 1
  {
  }

  // ---------- The two tables ----------

  /** Keys in the order they were last recorded, oldest first. */
  datatype Table = Table(windows: map<Key, Window>, order: seq<Key>)

  function Get(windows: map<Key, Window>, key: Key): Option<Window> {
    if key in windows then Some(windows[key]) else None
  }

  function Without(order: seq<Key>, key: Key): (rest: seq<Key>)
    ensures key !in rest
    ensures forall k :: k in rest <==> k in order && k != key
    ensures |rest| <= |order|
    ensures key !in order ==> rest == order
    ensures key in order ==> |rest| < |order|
  {
    if order == [] then []
    else (if order[0] == key then [] else [order[0]]) + Without(order[1..], key)
  }

  function Checked(limit: Limit, t: Table, key: Key, now: real): Table {
    if Check(limit, Get(t.windows, key), now).0.None? then Table(t.windows - {key}, Without(t.order, key)) else t
  }

  /** Drop the oldest keys until `capacity` remain. */
  function Evicted(t: Table, capacity: nat): Table
    decreases |t.order|
  {
    if |t.order| <= capacity then t
    else Evicted(Table(t.windows - {t.order[0]}, t.order[1..]), capacity)
  }

  function Recorded(limit: Limit, capacity: nat, t: Table, key: Key, now: real): Table {
    Evicted(
      Table(t.windows[key := Count(limit, Get(t.windows, key), now)], Without(t.order, key) + [key]),
      capacity)
  }

  predicate Distinct(order: seq<Key>) {
    order != [] ==> order[0] !in order[1..] && Distinct(order[1..])
  }

  ghost predicate Tidy(t: Table, capacity: nat) {
    && Distinct(t.order)
    && (forall k :: k in t.order <==> k in t.windows)
    && |t.order| <= capacity
  }

  lemma {:induction false} WithoutIsDistinct(order: seq<Key>, key: Key)
    requires Distinct(order)
    ensures Distinct(Without(order, key))
    ensures key in order ==> |Without(order, key)| == |order| - 1
  {
    if order != [] {
      WithoutIsDistinct(order[1..], key);
      var rest := Without(order[1..], key);
      if order[0] == key { assert Without(order, key) == rest == order[1..]; }
      else { assert ([order[0]] + rest)[1..] == rest; }
    }
  }

  lemma {:induction false} DistinctWithLast(order: seq<Key>, key: Key)
    requires Distinct(order) && key !in order
    ensures Distinct(order + [key])
  {
    if order != [] {
      DistinctWithLast(order[1..], key);
      assert (order + [key])[1..] == order[1..] + [key];
    }
  }

  lemma DistinctTail(order: seq<Key>)
    requires Distinct(order) && order != []
    ensures Distinct(order[1..]) && order[0] !in order[1..]
    ensures forall k :: k in order <==> k == order[0] || k in order[1..]
  {
  }

  class AttemptThrottle {
    const limit: Limit
    const capacity: nat
    var windows: map<Key, Window>
    var order: seq<Key>

    ghost predicate Valid()
      reads this
    {
      Acceptable(limit) && capacity >= 1 && Tidy(View(), capacity)
    }

    function View(): Table
      reads this
    {
      Table(windows, order)
    }

    constructor (limit: Limit, capacity: nat)
      requires Acceptable(limit) && capacity >= 1
      ensures Valid() && View() == Table(map[], []) && this.limit == limit && this.capacity == capacity
    {
      this.limit, this.capacity := limit, capacity;
      windows, order := map[], [];
    }

    method RetryAfter(key: Key, now: real) returns (wait: Option<int>)
      requires Valid()
      modifies this
      ensures Valid() && View() == Checked(limit, old(View()), key, now)
      ensures wait == Check(limit, Get(old(windows), key), now).1
    {
      if key !in windows {
        assert windows - {key} == windows;
        return None;
      }
      var started, attempts := windows[key].started, windows[key].attempts;
      var remaining := limit.window - (now - started);
      if remaining <= 0.0 {
        WithoutIsDistinct(order, key);
        windows, order := windows - {key}, Without(order, key);
        return None;
      }
      if attempts < limit.attempts { return None; }
      wait := Some(if Ceil(remaining) > 1 then Ceil(remaining) else 1);
    }

    method Record(key: Key, now: real)
      requires Valid()
      modifies this
      ensures Valid() && View() == Recorded(limit, capacity, old(View()), key, now)
    {
      hide Distinct, Without;
      WithoutIsDistinct(order, key);
      DistinctWithLast(Without(order, key), key);
      if key !in windows || now - windows[key].started >= limit.window {
        windows := windows[key := Window(now, 1)];
      } else {
        windows := windows[key := Window(windows[key].started, windows[key].attempts + 1)];
      }
      order := Without(order, key) + [key];
      ghost var filled := View();
      while |order| > capacity
        invariant Distinct(order) && forall k :: k in order <==> k in windows
        invariant Evicted(View(), capacity) == Evicted(filled, capacity)
        decreases |order|
      {
        DistinctTail(order);
        windows, order := windows - {order[0]}, order[1..];
      }
    }
  }

  // ---------- Against the unbounded windows ----------

  datatype Event = Checking(key: Key, now: real) | Recording(key: Key, now: real)

  /** Where every key's window would be with nothing ever dropped. */
  function Free(limit: Limit, log: seq<Event>): map<Key, Window> {
    if log == [] then map[]
    else
      var before, e := Free(limit, log[..|log| - 1]), log[|log| - 1];
      match e
      case Checking(key, now) =>
        if Check(limit, Get(before, key), now).0.None? then before - {key} else before
      case Recording(key, now) => before[key := Count(limit, Get(before, key), now)]
  }

  function Bounded(limit: Limit, capacity: nat, log: seq<Event>): Table {
    if log == [] then Table(map[], [])
    else
      var before, e := Bounded(limit, capacity, log[..|log| - 1]), log[|log| - 1];
      match e
      case Checking(key, now) => Checked(limit, before, key, now)
      case Recording(key, now) => Recorded(limit, capacity, before, key, now)
  }

  predicate RecordedIn(log: seq<Event>, key: Key) {
    exists i :: 0 <= i < |log| && log[i].Recording? && log[i].key == key
  }

  /** The other keys recorded since this one last was. */
  function Since(log: seq<Event>, key: Key): set<Key> {
    if log == [] then {}
    else
      var e := log[|log| - 1];
      if e.Recording? && e.key == key then {}
      else Since(log[..|log| - 1], key) + if e.Recording? then {e.key} else {}
  }

  /** At no point had `capacity` distinct other keys been recorded after this one. */
  predicate NeverCrowded(log: seq<Event>, capacity: nat, key: Key) {
    forall n :: 0 <= n <= |log| && RecordedIn(log[..n], key) ==> |Since(log[..n], key)| < capacity
  }

  /** The keys behind a key in the order have all been recorded since it. */
  predicate OrderedByRecency(log: seq<Event>, order: seq<Key>) {
    order != [] ==>
      && RecordedIn(log, order[0])
      && (forall k :: k in order[1..] ==> k in Since(log, order[0]))
      && OrderedByRecency(log, order[1..])
  }

  ghost predicate Agrees(limit: Limit, capacity: nat, log: seq<Event>) {
    && Tidy(Bounded(limit, capacity, log), capacity)
    && OrderedByRecency(log, Bounded(limit, capacity, log).order)
    && forall k :: NeverCrowded(log, capacity, k) ==>
         Get(Bounded(limit, capacity, log).windows, k) == Get(Free(limit, log), k)
  }

  lemma CrowdingLasts(log: seq<Event>, capacity: nat, key: Key)
    requires log != [] && NeverCrowded(log, capacity, key)
    ensures NeverCrowded(log[..|log| - 1], capacity, key)
  {
    var before := log[..|log| - 1];
    forall n | 0 <= n <= |before| && RecordedIn(before[..n], key) ensures |Since(before[..n], key)| < capacity {
      assert before[..n] == log[..n];
    }
  }

  lemma SinceOneMore(log: seq<Event>, e: Event, key: Key)
    ensures Since(log + [e], key)
         == if e.Recording? && e.key == key then {} else Since(log, key) + if e.Recording? then {e.key} else {}
    ensures RecordedIn(log + [e], key) <==> RecordedIn(log, key) || (e.Recording? && e.key == key)
  {
    var more := log + [e];
    assert more[..|log|] == log;
    assert forall i :: 0 <= i < |log| ==> more[i] == log[i];
    if RecordedIn(log, key) {
      var i :| 0 <= i < |log| && log[i].Recording? && log[i].key == key;
      assert more[i] == log[i];
    }
    if e.Recording? && e.key == key { assert more[|log|] == e; }
  }

  /** Dropping a key from the order leaves the rest in order. */
  lemma {:induction false} OrderWithout(log: seq<Event>, order: seq<Key>, key: Key)
    requires OrderedByRecency(log, order)
    ensures OrderedByRecency(log, Without(order, key))
  {
    if order != [] {
      hide Since, RecordedIn;
      OrderWithout(log, order[1..], key);
      var rest := Without(order[1..], key);
      assert ([order[0]] + rest)[1..] == rest;
      assert Without(order, key) == if order[0] == key then rest else [order[0]] + rest;
    }
  }

  /** A check moves nobody. */
  lemma {:induction false} OrderAfterCheck(log: seq<Event>, order: seq<Key>, e: Event)
    requires OrderedByRecency(log, order) && e.Checking?
    ensures OrderedByRecency(log + [e], order)
  {
    if order != [] {
      hide Since, RecordedIn;
      SinceOneMore(log, e, order[0]);
      OrderAfterCheck(log, order[1..], e);
    }
  }

  /** A record moves its key behind everyone. */
  lemma {:induction false} OrderAfterRecord(log: seq<Event>, rest: seq<Key>, e: Event)
    requires OrderedByRecency(log, rest) && e.Recording? && e.key !in rest
    ensures OrderedByRecency(log + [e], rest + [e.key])
  {
    hide Since, RecordedIn;
    if rest == [] {
      SinceOneMore(log, e, e.key);
    } else {
      SinceOneMore(log, e, rest[0]);
      OrderAfterRecord(log, rest[1..], e);
      assert (rest + [e.key])[1..] == rest[1..] + [e.key];
    }
  }

  lemma {:induction false} Members(order: seq<Key>)
    requires Distinct(order)
    ensures |set k | k in order| == |order|
  {
    if order != [] {
      Members(order[1..]);
      assert order[0] !in order[1..];
      assert (set k | k in order) == {order[0]} + set k | k in order[1..];
    }
  }

  /** The front of an over-full order has been crowded out. */
  lemma FrontIsCrowded(log: seq<Event>, order: seq<Key>, capacity: nat)
    requires OrderedByRecency(log, order) && Distinct(order) && |order| > capacity
    ensures !NeverCrowded(log, capacity, order[0])
  {
    hide Since, RecordedIn;
    assert Distinct(order[1..]);
    Members(order[1..]);
    var behind := set k | k in order[1..];
    assert behind <= Since(log, order[0]);
    SubsetIsNoLarger(behind, Since(log, order[0]));
    assert log[..|log|] == log;
  }

  /** Eviction drops only crowded keys. */
  lemma {:induction false} EvictionDropsTheCrowded(log: seq<Event>, t: Table, capacity: nat)
    requires OrderedByRecency(log, t.order) && Distinct(t.order)
    requires forall k :: k in t.order <==> k in t.windows
    ensures Tidy(Evicted(t, capacity), capacity)
    ensures OrderedByRecency(log, Evicted(t, capacity).order)
    ensures forall k :: NeverCrowded(log, capacity, k) ==> Get(Evicted(t, capacity).windows, k) == Get(t.windows, k)
    decreases |t.order|
  {
    if |t.order| > capacity {
      hide Since, RecordedIn, NeverCrowded;
      FrontIsCrowded(log, t.order, capacity);
      EvictionDropsTheCrowded(log, Table(t.windows - {t.order[0]}, t.order[1..]), capacity);
    }
  }

  lemma CheckAgrees(limit: Limit, capacity: nat, log: seq<Event>, e: Event)
    requires Agrees(limit, capacity, log) && e.Checking?
    ensures Agrees(limit, capacity, log + [e])
  {
    hide Since, RecordedIn, NeverCrowded, Check;
    var more := log + [e];
    assert more[..|log|] == log;
    var t := Bounded(limit, capacity, log);
    WithoutIsDistinct(t.order, e.key);
    OrderWithout(log, t.order, e.key);
    OrderAfterCheck(log, Bounded(limit, capacity, more).order, e);
    forall k | NeverCrowded(more, capacity, k)
      ensures Get(Bounded(limit, capacity, more).windows, k) == Get(Free(limit, more), k)
    {
      CrowdingLasts(more, capacity, k);
      CheckOfNothing(limit, e.now);
    }
  }

  lemma CheckOfNothing(limit: Limit, now: real)
    ensures Check(limit, None, now).0.None?
  {
  }

  lemma RecordAgrees(limit: Limit, capacity: nat, log: seq<Event>, e: Event)
    requires Agrees(limit, capacity, log) && e.Recording?
    ensures Agrees(limit, capacity, log + [e])
  {
    hide Since, RecordedIn, NeverCrowded, Check, Evicted, Count;
    var more := log + [e];
    assert more[..|log|] == log;
    var t := Bounded(limit, capacity, log);
    var window := Count(limit, Get(t.windows, e.key), e.now);
    var filled := Table(t.windows[e.key := window], Without(t.order, e.key) + [e.key]);
    WithoutIsDistinct(t.order, e.key);
    DistinctWithLast(Without(t.order, e.key), e.key);
    OrderWithout(log, t.order, e.key);
    OrderAfterRecord(log, Without(t.order, e.key), e);
    EvictionDropsTheCrowded(more, filled, capacity);
    forall k | NeverCrowded(more, capacity, k)
      ensures Get(Bounded(limit, capacity, more).windows, k) == Get(Free(limit, more), k)
    {
      CrowdingLasts(more, capacity, k);
    }
  }

  /** A key's bounded window, and so the answer it gets, is the unbounded one as long
      as it was never crowded out. */
  lemma {:induction false} BoundedAgreesWithFree(limit: Limit, capacity: nat, log: seq<Event>)
    ensures Agrees(limit, capacity, log)
    decreases |log|
  {
    if log != [] {
      hide Agrees;
      var last := |log| - 1;
      BoundedAgreesWithFree(limit, capacity, log[..last]);
      assert log == log[..last] + [log[last]];
      if log[last].Checking? { CheckAgrees(limit, capacity, log[..last], log[last]); }
      else { RecordAgrees(limit, capacity, log[..last], log[last]); }
    }
  }

  lemma AnswersAgree(limit: Limit, capacity: nat, log: seq<Event>, key: Key, now: real)
    requires NeverCrowded(log, capacity, key)
    ensures Check(limit, Get(Bounded(limit, capacity, log).windows, key), now)
         == Check(limit, Get(Free(limit, log), key), now)
  {
    BoundedAgreesWithFree(limit, capacity, log);
  }

  // ---------- How many attempts one key gets ----------

  /** One admitted attempt, and the start of the window it was counted in. */
  datatype Admission = Admission(at: real, started: real)

  datatype Service = Service(window: Option<Window>, admitted: seq<Admission>)

  /** A key's attempts, each checked and, if let through, recorded before the next. */
  function Serve(limit: Limit, times: seq<real>): Service {
    if times == [] then Service(None, [])
    else
      var now := times[|times| - 1];
      var before := Serve(limit, times[..|times| - 1]);
      var (window, wait) := Check(limit, before.window, now);
      if wait.Some? then before.(window := window)
      else
        var counted := Count(limit, window, now);
        Service(Some(counted), before.admitted + [Admission(now, counted.started)])
  }

  predicate Rising(times: seq<real>) {
    forall i, j :: 0 <= i < j < |times| ==> times[i] <= times[j]
  }

  /** Each admission falls in its window, windows do not overlap, and none holds more
      than the limit. */
  predicate Windowed(limit: Limit, admitted: seq<Admission>) {
    && (forall i :: 0 <= i < |admitted| ==>
          admitted[i].started <= admitted[i].at < admitted[i].started + limit.window)
    && (forall i, j :: 0 <= i < j < |admitted| ==>
          admitted[i].started == admitted[j].started
          || admitted[i].started + limit.window <= admitted[j].started)
    && (forall i, j :: 0 <= i && i + limit.attempts <= j < |admitted| ==>
          admitted[i].started + limit.window <= admitted[j].started)
  }

  /** Where the service stands at `now`: the current window holds the last admissions,
      and everything before it, or everything when there is none, has ended. */
  predicate Standing(limit: Limit, s: Service, now: real) {
    match s.window
    case None => forall i :: 0 <= i < |s.admitted| ==> s.admitted[i].started + limit.window <= now
    case Some(w) =>
      && 1 <= w.attempts <= limit.attempts && w.attempts <= |s.admitted| && w.started <= now
      && (forall i :: 0 <= i < |s.admitted| - w.attempts ==>
            s.admitted[i].started + limit.window <= w.started)
      && (forall i :: |s.admitted| - w.attempts <= i < |s.admitted| ==> s.admitted[i].started == w.started)
  }

  /** A fresh window, every earlier one having ended. */
  lemma FreshWindow(limit: Limit, admitted: seq<Admission>, now: real)
    requires Acceptable(limit) && Windowed(limit, admitted)
    requires forall i :: 0 <= i < |admitted| ==> admitted[i].started + limit.window <= now
    ensures var more := admitted + [Admission(now, now)];
            Windowed(limit, more) && Standing(limit, Service(Some(Window(now, 1)), more), now)
  {
    hide Windowed;
    WindowedWithLast(limit, admitted, Admission(now, now));
  }

  /** One more in the current window, which still has room. */
  lemma SameWindow(limit: Limit, s: Service, earlier: real, now: real)
    requires Acceptable(limit) && Windowed(limit, s.admitted) && Standing(limit, s, earlier) && earlier <= now
    requires s.window.Some? && s.window.value.attempts < limit.attempts
    requires now - s.window.value.started < limit.window
    ensures var w := s.window.value;
            var more := s.admitted + [Admission(now, w.started)];
            Windowed(limit, more) && Standing(limit, Service(Some(Window(w.started, w.attempts + 1)), more), now)
  {
    var w := s.window.value;
    var n, held := |s.admitted|, |s.admitted| - w.attempts;
    var more := s.admitted + [Admission(now, w.started)];
    assert more[n] == Admission(now, w.started);
    assert forall i :: 0 <= i < n ==> more[i] == s.admitted[i];
    forall i | 0 <= i < held ensures more[i].started + limit.window <= w.started {
      assert more[i] == s.admitted[i];
    }
    forall i | held <= i < n ensures more[i].started == w.started {
      assert more[i] == s.admitted[i];
    }
    assert n - limit.attempts < held;
    WindowedWithLast(limit, s.admitted, Admission(now, w.started));
  }

  /** A last admission in its own window, after the earlier ones' windows or in the
      last of them, and no more than the limit after the first of it. */
  lemma WindowedWithLast(limit: Limit, admitted: seq<Admission>, last: Admission)
    requires Windowed(limit, admitted)
    requires last.started <= last.at < last.started + limit.window
    requires forall i :: 0 <= i < |admitted| ==>
               admitted[i].started == last.started || admitted[i].started + limit.window <= last.started
    requires forall i :: 0 <= i && i + limit.attempts <= |admitted| && i < |admitted| ==>
               admitted[i].started + limit.window <= last.started
    requires limit.attempts >= 1
    ensures Windowed(limit, admitted + [last])
  {
    var more, n := admitted + [last], |admitted|;
    assert forall i :: 0 <= i < n ==> more[i] == admitted[i];
    forall i, j | 0 <= i && i + limit.attempts <= j < |more|
      ensures more[i].started + limit.window <= more[j].started
    {
      if j == n { assert more[i] == admitted[i]; }
    }
  }

  /** When the current window is over, so is everything in it. */
  lemma WindowOver(limit: Limit, s: Service, earlier: real, now: real)
    requires Acceptable(limit) && Standing(limit, s, earlier) && earlier <= now
    requires s.window.Some? ==> now - s.window.value.started >= limit.window
    ensures forall i :: 0 <= i < |s.admitted| ==> s.admitted[i].started + limit.window <= now
  {
  }

  lemma OneMoreAttempt(limit: Limit, s: Service, earlier: real, now: real)
    requires Acceptable(limit) && Windowed(limit, s.admitted) && Standing(limit, s, earlier) && earlier <= now
    ensures var (window, wait) := Check(limit, s.window, now);
            if wait.Some? then Standing(limit, s.(window := window), now)
            else
              var counted := Count(limit, window, now);
              var after := Service(Some(counted), s.admitted + [Admission(now, counted.started)]);
              Windowed(limit, after.admitted) && Standing(limit, after, now)
  {
    var (window, wait) := Check(limit, s.window, now);
    if wait.None? {
      hide Windowed, Standing;
      if window.Some? {
        SameWindow(limit, s, earlier, now);
      } else {
        WindowOver(limit, s, earlier, now);
        FreshWindow(limit, s.admitted, now);
      }
    } else {
      hide Windowed;
    }
  }

  lemma {:induction false} ServiceIsWindowed(limit: Limit, times: seq<real>)
    requires Acceptable(limit) && Rising(times)
    ensures Windowed(limit, Serve(limit, times).admitted)
    ensures times != [] ==> Standing(limit, Serve(limit, times), times[|times| - 1])
  {
    if times != [] {
      hide Windowed, Standing, Check, Count;
      var last := |times| - 1;
      ServiceIsWindowed(limit, times[..last]);
      var before := Serve(limit, times[..last]);
      if last == 0 {
        assert before == Service(None, []);
        NothingServed(limit, times[last]);
        OneMoreAttempt(limit, before, times[last], times[last]);
      } else {
        OneMoreAttempt(limit, before, times[last - 1], times[last]);
      }
    } else {
      NothingServed(limit, 0.0);
    }
  }

  lemma NothingServed(limit: Limit, now: real)
    ensures Windowed(limit, []) && Standing(limit, Service(None, []), now)
  {
  }

  /** At most `attempts` of a key's attempts are admitted in any one of its windows, and
      any run of more than twice that many spans more than one window length: no
      interval of that length holds more than twice the limit. */
  lemma AtMostTwiceInAnyInterval(limit: Limit, times: seq<real>, i: nat, j: nat)
    requires Acceptable(limit) && Rising(times)
    requires i <= j < |Serve(limit, times).admitted|
    ensures var admitted := Serve(limit, times).admitted;
            && (j - i >= limit.attempts ==> admitted[i].started != admitted[j].started)
            && (j - i >= 2 * limit.attempts ==> admitted[j].at - admitted[i].at > limit.window)
  {
    ServiceIsWindowed(limit, times);
    var admitted := Serve(limit, times).admitted;
    if j - i >= 2 * limit.attempts {
      var middle := i + limit.attempts;
      assert admitted[i].started + limit.window <= admitted[middle].started;
      assert admitted[middle].started + limit.window <= admitted[j].started;
    }
  }

  /** An attempt is refused exactly when the limit has been let through in a window that is
      still open, and told the fewest whole seconds, but at least one, that reach its end. */
  lemma RefusedIff(limit: Limit, times: seq<real>, now: real)
    requires Acceptable(limit) && Rising(times) && (times != [] ==> times[|times| - 1] <= now)
    ensures var served, n := Serve(limit, times), |Serve(limit, times).admitted|;
      var wait := Check(limit, served.window, now).1;
      && (wait.Some? <==>
            && n >= limit.attempts && now < served.admitted[n - 1].started + limit.window
            && served.admitted[n - limit.attempts].started == served.admitted[n - 1].started)
      && (wait.Some? ==>
            && var remaining := served.admitted[n - 1].started + limit.window - now;
            && wait.value as real >= remaining && wait.value >= 1
            && (wait.value > 1 ==> (wait.value - 1) as real < remaining))
  {
    hide Windowed;
    ServiceIsWindowed(limit, times);
    var served := Serve(limit, times);
    if times != [] { StandingLater(limit, served, times[|times| - 1], now); }
    RefusedByStanding(limit, served, now);
  }

  /** An open window stays the last one; one that is over may be forgotten. */
  lemma StandingLater(limit: Limit, s: Service, earlier: real, now: real)
    requires Standing(limit, s, earlier) && earlier <= now
    ensures Standing(limit, s, now)
  {
  }

  lemma RefusedByStanding(limit: Limit, s: Service, now: real)
    requires Acceptable(limit) && Standing(limit, s, now)
    ensures var n, wait := |s.admitted|, Check(limit, s.window, now).1;
      && (wait.Some? <==>
            && n >= limit.attempts && now < s.admitted[n - 1].started + limit.window
            && s.admitted[n - limit.attempts].started == s.admitted[n - 1].started)
      && (wait.Some? ==>
            && var remaining := s.admitted[n - 1].started + limit.window - now;
            && wait.value as real >= remaining && wait.value >= 1
            && (wait.value > 1 ==> (wait.value - 1) as real < remaining))
  {
    var n := |s.admitted|;
    if s.window.Some? && n > 0 {
      var w := s.window.value;
      assert s.admitted[n - 1].started == w.started;
      if n >= limit.attempts {
        assert s.admitted[n - limit.attempts].started == w.started <==> w.attempts == limit.attempts;
      }
    }
  }

  /** Every window begins with the first attempt it counts. */
  predicate BeginsWithItsFirst(admitted: seq<Admission>) {
    && (admitted != [] ==> admitted[0].at == admitted[0].started)
    && forall i :: 0 < i < |admitted| && admitted[i - 1].started != admitted[i].started ==>
         admitted[i].at == admitted[i].started
  }

  lemma {:induction false} WindowsBeginWithAnAttempt(limit: Limit, times: seq<real>)
    requires Acceptable(limit) && Rising(times)
    ensures BeginsWithItsFirst(Serve(limit, times).admitted)
  {
    if times != [] {
      hide Windowed, Check;
      var last := |times| - 1;
      WindowsBeginWithAnAttempt(limit, times[..last]);
      ServiceIsWindowed(limit, times[..last]);
      if Check(limit, Serve(limit, times[..last]).window, times[last]).1.None? {
        BeginsWithOneMore(limit, Serve(limit, times[..last]), times[last]);
      }
      if last == 0 { NothingServed(limit, times[last]); }
    }
  }

  lemma BeginsWithOneMore(limit: Limit, s: Service, now: real)
    requires BeginsWithItsFirst(s.admitted) && Check(limit, s.window, now).1.None?
    requires s.window.Some? ==> |s.admitted| > 0 && s.admitted[|s.admitted| - 1].started == s.window.value.started
    ensures var counted := Count(limit, Check(limit, s.window, now).0, now);
            BeginsWithItsFirst(s.admitted + [Admission(now, counted.started)])
  {
    CountedIn(limit, s.window, now);
    hide Check, Count;
    OneMoreBegins(s.admitted, Admission(now, Count(limit, Check(limit, s.window, now).0, now).started));
  }

  /** An attempt is counted in a window of its own or in the one that stands. */
  lemma CountedIn(limit: Limit, window: Option<Window>, now: real)
    ensures var counted := Count(limit, Check(limit, window, now).0, now);
            counted.started == now || (window.Some? && counted.started == window.value.started)
  {
  }

  lemma OneMoreBegins(admitted: seq<Admission>, last: Admission)
    requires BeginsWithItsFirst(admitted)
    requires last.at == last.started || (|admitted| > 0 && admitted[|admitted| - 1].started == last.started)
    ensures BeginsWithItsFirst(admitted + [last])
  {
    var n, more := |admitted|, admitted + [last];
    forall i | 0 < i < |more| && more[i - 1].started != more[i].started
      ensures more[i].at == more[i].started
    {
      assert more[i - 1] == admitted[i - 1];
      if i < n { assert more[i] == admitted[i]; }
    }
  }

  // ---------- Attempts by many keys ----------

  datatype Attempt = Attempt(key: Key, now: real)

  /** The throttle under attempts that each check and then record at once: the table,
      the log of what was done to it, and the attempts let through. */
  datatype Play = Play(table: Table, log: seq<Event>, admitted: seq<Attempt>)

  function Played(limit: Limit, capacity: nat, attempts: seq<Attempt>): Play {
    if attempts == [] then Play(Table(map[], []), [], [])
    else
      var a := attempts[|attempts| - 1];
      var before := Played(limit, capacity, attempts[..|attempts| - 1]);
      var wait := Check(limit, Get(before.table.windows, a.key), a.now).1;
      var checked := Checked(limit, before.table, a.key, a.now);
      if wait.Some? then Play(checked, before.log + [Checking(a.key, a.now)], before.admitted)
      else
        Play(
          Recorded(limit, capacity, checked, a.key, a.now),
          before.log + [Checking(a.key, a.now)] + [Recording(a.key, a.now)],
          before.admitted + [a])
  }

  function TimesOf(attempts: seq<Attempt>, key: Key): seq<real> {
    if attempts == [] then []
    else
      var a := attempts[|attempts| - 1];
      TimesOf(attempts[..|attempts| - 1], key) + if a.key == key then [a.now] else []
  }

  function Ats(admitted: seq<Admission>): seq<real> {
    if admitted == [] then []
    else Ats(admitted[..|admitted| - 1]) + [admitted[|admitted| - 1].at]
  }

  lemma {:induction false} PlayKeepsItsLog(limit: Limit, capacity: nat, attempts: seq<Attempt>)
    ensures Played(limit, capacity, attempts).table == Bounded(limit, capacity, Played(limit, capacity, attempts).log)
  {
    if attempts != [] {
      hide Check, Checked, Recorded;
      var a := attempts[|attempts| - 1];
      PlayKeepsItsLog(limit, capacity, attempts[..|attempts| - 1]);
      var log := Played(limit, capacity, attempts[..|attempts| - 1]).log;
      var once := log + [Checking(a.key, a.now)];
      assert once[..|log|] == log;
      assert (once + [Recording(a.key, a.now)])[..|once|] == once;
    }
  }

  lemma FreeOneMore(limit: Limit, log: seq<Event>, e: Event, key: Key)
    ensures Get(Free(limit, log + [e]), key)
         == if e.key != key then Get(Free(limit, log), key)
            else if e.Checking? then Check(limit, Get(Free(limit, log), key), e.now).0
            else Some(Count(limit, Get(Free(limit, log), key), e.now))
  {
    assert (log + [e])[..|log|] == log;
  }

  lemma CrowdingLastsLonger(log: seq<Event>, more: seq<Event>, capacity: nat, key: Key)
    requires NeverCrowded(log + more, capacity, key)
    ensures NeverCrowded(log, capacity, key)
  {
    hide Since, RecordedIn;
    forall n | 0 <= n <= |log| && RecordedIn(log[..n], key) ensures |Since(log[..n], key)| < capacity {
      assert (log + more)[..n] == log[..n];
    }
  }

  /** One more attempt by anybody: what it does to the log and to who is let through. */
  lemma PlayedOneMore(limit: Limit, capacity: nat, attempts: seq<Attempt>, a: Attempt)
    ensures var before := Played(limit, capacity, attempts);
            var play := Played(limit, capacity, attempts + [a]);
            if Check(limit, Get(before.table.windows, a.key), a.now).1.Some? then
              play.log == before.log + [Checking(a.key, a.now)] && play.admitted == before.admitted
            else
              play.log == before.log + [Checking(a.key, a.now), Recording(a.key, a.now)]
              && play.admitted == before.admitted + [a]
  {
    hide Check, Checked, Recorded;
    assert (attempts + [a])[..|attempts|] == attempts;
  }

  lemma FreeTwoMore(limit: Limit, log: seq<Event>, a: Attempt, key: Key)
    ensures Get(Free(limit, log + [Checking(a.key, a.now), Recording(a.key, a.now)]), key)
         == if a.key != key then Get(Free(limit, log), key)
            else Some(Count(limit, Check(limit, Get(Free(limit, log), key), a.now).0, a.now))
  {
    hide Check, Count, Free;
    FreeOneMore(limit, log, Checking(a.key, a.now), key);
    FreeOneMore(limit, log + [Checking(a.key, a.now)], Recording(a.key, a.now), key);
    assert log + [Checking(a.key, a.now)] + [Recording(a.key, a.now)]
        == log + [Checking(a.key, a.now), Recording(a.key, a.now)];
  }

  /** For a key never crowded out, the other keys might as well not exist: its window
      and its admitted attempts are those of its own attempts served alone. */
  lemma {:induction false} OthersDoNotMatter(limit: Limit, capacity: nat, attempts: seq<Attempt>, key: Key)
    requires NeverCrowded(Played(limit, capacity, attempts).log, capacity, key)
    ensures var alone := Serve(limit, TimesOf(attempts, key));
            var play := Played(limit, capacity, attempts);
            && Get(Free(limit, play.log), key) == alone.window
            && TimesOf(play.admitted, key) == Ats(alone.admitted)
  {
    if attempts == [] {
      assert Free(limit, []) == map[];
    } else {
      hide Check, Count, Played, NeverCrowded, Free, Serve, Ats, Bounded;
      var last := |attempts| - 1;
      var earlier, a := attempts[..last], attempts[last];
      assert earlier + [a] == attempts;
      var before := Played(limit, capacity, earlier);
      var play := Played(limit, capacity, attempts);
      PlayedOneMore(limit, capacity, earlier, a);
      CrowdingLastsLonger(before.log, play.log[|before.log|..], capacity, key) by {
        assert play.log == before.log + play.log[|before.log|..];
      }
      OthersDoNotMatter(limit, capacity, earlier, key);
      FreeOneMore(limit, before.log, Checking(a.key, a.now), key);
      FreeTwoMore(limit, before.log, a, key);
      AdmittedOneMore(before.admitted, a, key);
      if a.key == key {
        PlayKeepsItsLog(limit, capacity, earlier);
        AnswersAgree(limit, capacity, before.log, key, a.now);
        ServedOneMore(limit, TimesOf(earlier, key), a.now);
      } else {
        assert TimesOf(attempts, key) == TimesOf(earlier, key);
      }
    }
  }

  lemma ServedOneMore(limit: Limit, times: seq<real>, now: real)
    ensures var before := Serve(limit, times);
            var after := Serve(limit, times + [now]);
            var (window, wait) := Check(limit, before.window, now);
            if wait.Some? then after == before.(window := window) && Ats(after.admitted) == Ats(before.admitted)
            else
              && after.window == Some(Count(limit, window, now))
              && Ats(after.admitted) == Ats(before.admitted) + [now]
  {
    hide Check, Count;
    assert (times + [now])[..|times|] == times;
    var before := Serve(limit, times);
    var added := Serve(limit, times + [now]).admitted;
    if added != before.admitted { assert added[..|added| - 1] == before.admitted; }
  }

  lemma AdmittedOneMore(admitted: seq<Attempt>, a: Attempt, key: Key)
    ensures TimesOf(admitted + [a], key) == TimesOf(admitted, key) + if a.key == key then [a.now] else []
  {
    assert (admitted + [a])[..|admitted|] == admitted;
  }

  lemma {:induction false} AtOf(admitted: seq<Admission>)
    ensures |Ats(admitted)| == |admitted|
    ensures forall i :: 0 <= i < |admitted| ==> Ats(admitted)[i] == admitted[i].at
  {
    if admitted != [] { AtOf(admitted[..|admitted| - 1]); }
  }

  lemma {:induction false} TimesRise(attempts: seq<Attempt>, key: Key)
    requires forall i, j :: 0 <= i < j < |attempts| ==> attempts[i].now <= attempts[j].now
    ensures Rising(TimesOf(attempts, key))
    ensures forall t :: t in TimesOf(attempts, key) ==>
              exists i :: 0 <= i < |attempts| && attempts[i].now == t
  {
    if attempts != [] {
      var last := |attempts| - 1;
      TimesRise(attempts[..last], key);
      var before := TimesOf(attempts[..last], key);
      forall t | t in before
        ensures t <= attempts[last].now && exists i :: 0 <= i < |attempts| && attempts[i].now == t
      {
        var i :| 0 <= i < |attempts[..last]| && attempts[..last][i].now == t;
        assert attempts[i].now == t;
      }
      assert forall k :: 0 <= k < |before| ==> before[k] in before;
      assert attempts[last].now == attempts[last].now;
    }
  }

  /** With every key attempting at will under a forward clock, a key never crowded out
      is let through at most twice its limit in any interval of one window length. */
  lemma UnevictedKeysAreBounded(
    limit: Limit, capacity: nat, attempts: seq<Attempt>, key: Key, i: nat, j: nat)
    requires Acceptable(limit)
    requires forall a, b :: 0 <= a < b < |attempts| ==> attempts[a].now <= attempts[b].now
    requires NeverCrowded(Played(limit, capacity, attempts).log, capacity, key)
    requires i <= j < |TimesOf(Played(limit, capacity, attempts).admitted, key)|
    ensures var let := TimesOf(Played(limit, capacity, attempts).admitted, key);
            let[j] - let[i] <= limit.window ==> j - i + 1 <= 2 * limit.attempts
  {
    hide Played, Serve, NeverCrowded, Check;
    OthersDoNotMatter(limit, capacity, attempts, key);
    TimesRise(attempts, key);
    var alone := Serve(limit, TimesOf(attempts, key));
    AtOf(alone.admitted);
    AtMostTwiceInAnyInterval(limit, TimesOf(attempts, key), i, j);
  }
}
