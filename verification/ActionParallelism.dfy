/** The concurrency distribution of `app/buck2_action_parallelism/src/lib.rs`: a sweep over start
    and end events that agrees with counting, microsecond by microsecond, the actions running. */
module ActionParallelism {
  import opened Options

  datatype Interval = Interval(start: int, end: int)

  datatype Event = Event(time: int, delta: int)

  /** One entry of the ordered map from concurrency level to time spent at it. */
  datatype Entry = Entry(level: nat, dur: int)

  datatype Distribution = Distribution(percentiles: seq<(nat, nat)>, average: real, executed: nat, total: int)

  // ----- Intervals -----

  predicate FitsI64(n: int) {
    -0x8000_0000_0000_0000 <= n < 0x8000_0000_0000_0000
  }

  /** Division that rounds towards zero. */
  function Truncate(n: int, d: int): int
    requires d > 0
  {
    if n >= 0 then n / d else -(-n / d)
  }

  function ToMicros(seconds: int, nanos: int): Option<int> {
    var whole := seconds * 1_000_000;
    if !FitsI64(whole) || !FitsI64(whole + Truncate(nanos, 1_000)) then None
    else Some(whole + Truncate(nanos, 1_000))
  }

  /** The conversion to microseconds stays within 64 bits. */
  predicate Converts(seconds: int, nanos: int) {
    FitsI64(seconds * 1_000_000) && FitsI64(seconds * 1_000_000 + Truncate(nanos, 1_000))
  }

  function AtLeastZero(n: int): int {
    if n > 0 then n else 0
  }

  /** The window of an executed action: it begins at the start time in microseconds and lasts for the
      execution time, a negative one counting as zero, so every window the computation sees is well
      formed. There is none exactly when some value leaves 64 bits. */
  function Window(startSeconds: int, startNanos: int, execSeconds: int, execNanos: int): (o: Option<Interval>)
    ensures o.Some? <==>
              && Converts(startSeconds, startNanos) && Converts(execSeconds, execNanos)
              && FitsI64(startSeconds * 1_000_000 + Truncate(startNanos, 1_000)
                         + AtLeastZero(execSeconds * 1_000_000 + Truncate(execNanos, 1_000)))
    ensures o.Some? ==> o.value.start <= o.value.end && FitsI64(o.value.start) && FitsI64(o.value.end)
    ensures o.Some? && 0 <= startNanos ==>
              o.value.start * 1_000 <= startSeconds * 1_000_000_000 + startNanos < (o.value.start + 1) * 1_000
    ensures o.Some? && 0 <= execSeconds && 0 <= execNanos ==>
              (o.value.end - o.value.start) * 1_000 <= execSeconds * 1_000_000_000 + execNanos
                                                  < (o.value.end - o.value.start + 1) * 1_000
    ensures o.Some? && execSeconds <= 0 && execNanos <= 0 ==> o.value.end == o.value.start
  {
    var start, exec := ToMicros(startSeconds, startNanos), ToMicros(execSeconds, execNanos);
    if start.None? || exec.None? then None
    else
      var end := start.value + if exec.value > 0 then exec.value else 0;
      if FitsI64(end) then Some(Interval(start.value, end)) else None
  }

  // ----- What is measured -----

  /** Durations are clamped at zero where intervals are extracted. */
  ghost predicate Valid(ivs: seq<Interval>) {
    forall i :: 0 <= i < |ivs| ==> ivs[i].start <= ivs[i].end
  }

  /** How many actions run during microsecond `t`. */
  function RunningAt(ivs: seq<Interval>, t: int): nat {
    if ivs == [] then 0
    else RunningAt(ivs[1..], t) + if ivs[0].start <= t < ivs[0].end then 1 else 0
  }

  /** Microseconds in `[lo, hi)` during which between `a` and `b` actions run. */
  function TimeWith(ivs: seq<Interval>, a: int, b: int, lo: int, hi: int): nat
    decreases hi - lo
  {
    if hi <= lo then 0
    else TimeWith(ivs, a, b, lo, hi - 1) + if a <= RunningAt(ivs, hi - 1) <= b then 1 else 0
  }

  ghost predicate Within(ivs: seq<Interval>, lo: int, hi: int) {
    lo <= hi && forall i :: 0 <= i < |ivs| ==> lo <= ivs[i].start <= ivs[i].end <= hi
  }

  function Lengths(ivs: seq<Interval>): int {
    if ivs == [] then 0 else ivs[0].end - ivs[0].start + Lengths(ivs[1..])
  }

  ghost function Moments(ivs: seq<Interval>, a: int, b: int, lo: int, hi: int): set<int> {
    set t | lo <= t < hi && a <= RunningAt(ivs, t) <= b
  }

  /** `TimeWith` is the number of such microseconds. */
  lemma {:induction false} TimeWithCounts(ivs: seq<Interval>, a: int, b: int, lo: int, hi: int)
    ensures TimeWith(ivs, a, b, lo, hi) == |Moments(ivs, a, b, lo, hi)|
    decreases hi - lo
  {
    if hi <= lo {
      assert Moments(ivs, a, b, lo, hi) == {};
    } else {
      TimeWithCounts(ivs, a, b, lo, hi - 1);
      var last := if a <= RunningAt(ivs, hi - 1) <= b then {hi - 1} else {};
      assert Moments(ivs, a, b, lo, hi) == Moments(ivs, a, b, lo, hi - 1) + last;
    }
  }

  // ----- Events -----

  /** Count after every event up to and including time `t`. */
  function Net(es: seq<Event>, t: int): int {
    if es == [] then 0 else (if es[0].time <= t then es[0].delta else 0) + Net(es[1..], t)
  }

  function Sum(es: seq<Event>): int {
    if es == [] then 0 else es[0].delta + Sum(es[1..])
  }

  function Endpoints(ivs: seq<Interval>): seq<Event> {
    if ivs == [] then []
    else [Event(ivs[0].start, 1), Event(ivs[0].end, -1)] + Endpoints(ivs[1..])
  }

  lemma {:induction false} NetIsRunning(ivs: seq<Interval>, t: int)
    requires Valid(ivs)
    ensures Net(Endpoints(ivs), t) == RunningAt(ivs, t)
  {
    if ivs != [] {
      NetIsRunning(ivs[1..], t);
      var es := Endpoints(ivs);
      assert es[1..][1..] == Endpoints(ivs[1..]);
    }
  }

  lemma {:induction false} NetJoins(a: seq<Event>, b: seq<Event>, t: int)
    ensures Net(a + b, t) == Net(a, t) + Net(b, t)
  {
    if a == [] {
      assert a + b == b;
    } else {
      assert (a + b)[1..] == a[1..] + b;
      NetJoins(a[1..], b, t);
    }
  }

  lemma {:induction false} NetAfterAll(es: seq<Event>, t: int)
    requires forall i :: 0 <= i < |es| ==> es[i].time <= t
    ensures Net(es, t) == Sum(es)
  {
    if es != [] {
      NetAfterAll(es[1..], t);
    }
  }

  lemma {:induction false} NetBeforeAll(es: seq<Event>, t: int)
    requires forall i :: 0 <= i < |es| ==> t < es[i].time
    ensures Net(es, t) == 0
  {
    if es != [] {
      NetBeforeAll(es[1..], t);
    }
  }

  // ----- Sorting the events -----

  /** By time, ends before starts. */
  predicate Before(a: Event, b: Event) {
    a.time < b.time || (a.time == b.time && a.delta <= b.delta)
  }

  ghost predicate Sorted(es: seq<Event>) {
    forall i, j :: 0 <= i < j < |es| ==> Before(es[i], es[j])
  }

  /** `e` put in its place among sorted events. */
  function Insert(e: Event, es: seq<Event>): (r: seq<Event>)
    requires Sorted(es)
    ensures Sorted(r) && multiset(r) == multiset(es) + multiset{e}
    ensures forall t :: Net(r, t) == Net([e] + es, t)
  {
    if es == [] || Before(e, es[0]) then
      InsertFirst(e, es);
      [e] + es
    else
      var r := [es[0]] + Insert(e, es[1..]);
      InsertLater(e, es, Insert(e, es[1..]));
      r
  }

  lemma InsertFirst(e: Event, es: seq<Event>)
    requires Sorted(es) && (es == [] || Before(e, es[0]))
    ensures Sorted([e] + es)
  {
  }

  lemma InsertLater(e: Event, es: seq<Event>, r: seq<Event>)
    requires Sorted(es) && es != [] && !Before(e, es[0]) && Sorted(r)
    requires multiset(r) == multiset(es[1..]) + multiset{e}
    requires forall t :: Net(r, t) == Net([e] + es[1..], t)
    ensures Sorted([es[0]] + r)
    ensures multiset([es[0]] + r) == multiset(es) + multiset{e}
    ensures forall t :: Net([es[0]] + r, t) == Net([e] + es, t)
  {
    InsertSorted(e, es, r);
    hide Sorted;
    assert es == [es[0]] + es[1..];
    forall t ensures Net([es[0]] + r, t) == Net([e] + es, t) {
      assert ([es[0]] + r)[1..] == r && ([e] + es)[1..] == es && ([e] + es[1..])[1..] == es[1..];
    }
  }

  lemma InsertSorted(e: Event, es: seq<Event>, r: seq<Event>)
    requires Sorted(es) && es != [] && !Before(e, es[0]) && Sorted(r)
    requires multiset(r) == multiset(es[1..]) + multiset{e}
    ensures Sorted([es[0]] + r)
  {
    hide Net;
    forall i | 0 <= i < |r| ensures Before(es[0], r[i]) {
      assert r[i] in multiset(r);
      assert r[i] == e || r[i] in es[1..];
    }
  }

  function Sort(es: seq<Event>): (r: seq<Event>)
    ensures Sorted(r) && multiset(r) == multiset(es)
    ensures forall t :: Net(r, t) == Net(es, t)
  {
    if es == [] then []
    else
      SortStep(es);
      Insert(es[0], Sort(es[1..]))
  }

  lemma SortStep(es: seq<Event>)
    requires es != []
    ensures es == [es[0]] + es[1..]
    ensures forall s, t :: Net(s, t) == Net(es[1..], t) ==> Net([es[0]] + s, t) == Net(es, t)
  {
    forall s, t | Net(s, t) == Net(es[1..], t) ensures Net([es[0]] + s, t) == Net(es, t) {
      assert ([es[0]] + s)[1..] == s;
    }
  }

  /** The first `n` events in order are those up to any moment before the next one. */
  lemma NetOfPrefix(es: seq<Event>, n: nat, t: int)
    requires Sorted(es) && 0 < n < |es| && es[n - 1].time <= t < es[n].time
    ensures Net(es, t) == Sum(es[..n])
  {
    assert es == es[..n] + es[n..];
    NetJoins(es[..n], es[n..], t);
    NetAfterAll(es[..n], t);
    NetBeforeAll(es[n..], t);
  }

  // ----- Time by net count -----

  /** Microseconds in `[lo, hi)` at which the net count lies between `a` and `b`. */
  ghost function Between(es: seq<Event>, a: int, b: int, lo: int, hi: int): nat
    decreases hi - lo
  {
    if hi <= lo then 0
    else Between(es, a, b, lo, hi - 1) + if a <= Net(es, hi - 1) <= b then 1 else 0
  }

  /** Sum of the positive net counts over `[lo, hi)`. */
  ghost function Area(es: seq<Event>, lo: int, hi: int): nat
    decreases hi - lo
  {
    if hi <= lo then 0
    else Area(es, lo, hi - 1) + if Net(es, hi - 1) > 0 then Net(es, hi - 1) else 0
  }

  /** Over a stretch at a constant count `c`, time accrues to `c` alone. */
  lemma {:induction false} ConstantStretch(es: seq<Event>, c: int, lo: int, mid: int, hi: int)
    requires lo <= mid <= hi && forall t :: mid <= t < hi ==> Net(es, t) == c
    ensures forall a, b :: Between(es, a, b, lo, hi) == Between(es, a, b, lo, mid) + if a <= c <= b then hi - mid else 0
    ensures Area(es, lo, hi) == Area(es, lo, mid) + (if c > 0 then c else 0) * (hi - mid)
  {
    forall a, b
      ensures Between(es, a, b, lo, hi) == Between(es, a, b, lo, mid) + if a <= c <= b then hi - mid else 0
    {
      StretchBetween(es, c, a, b, lo, mid, hi);
    }
    StretchArea(es, c, lo, mid, hi);
  }

  lemma {:induction false} StretchBetween(es: seq<Event>, c: int, a: int, b: int, lo: int, mid: int, hi: int)
    requires lo <= mid <= hi && forall t :: mid <= t < hi ==> Net(es, t) == c
    ensures Between(es, a, b, lo, hi) == Between(es, a, b, lo, mid) + if a <= c <= b then hi - mid else 0
    decreases hi - mid
  {
    hide Net;
    if mid < hi {
      StretchBetween(es, c, a, b, lo, mid, hi - 1);
      assert Net(es, hi - 1) == c;
    }
  }

  lemma {:induction false} StretchArea(es: seq<Event>, c: int, lo: int, mid: int, hi: int)
    requires lo <= mid <= hi && forall t :: mid <= t < hi ==> Net(es, t) == c
    ensures Area(es, lo, hi) == Area(es, lo, mid) + (if c > 0 then c else 0) * (hi - mid)
    decreases hi - mid
  {
    hide Net;
    if mid < hi {
      StretchArea(es, c, lo, mid, hi - 1);
      assert Net(es, hi - 1) == c;
      var k := if c > 0 then c else 0;
      assert k * (hi - mid) == k * (hi - 1 - mid) + k;
    }
  }

  // ----- The ordered map of durations -----

  ghost predicate Ordered(ds: seq<Entry>) {
    && (forall i, j :: 0 <= i < j < |ds| ==> ds[i].level < ds[j].level)
    && (forall i :: 0 <= i < |ds| ==> 0 < ds[i].level && 0 < ds[i].dur)
  }

  /** Time at levels from `a` to `b`. */
  function DurIn(ds: seq<Entry>, a: int, b: int): int {
    if ds == [] then 0 else (if a <= ds[0].level <= b then ds[0].dur else 0) + DurIn(ds[1..], a, b)
  }

  function Total(ds: seq<Entry>): int {
    if ds == [] then 0 else ds[0].dur + Total(ds[1..])
  }

  function Weighted(ds: seq<Entry>): int {
    if ds == [] then 0 else ds[0].level * ds[0].dur + Weighted(ds[1..])
  }

  /** `*durations.entry(level).or_insert(0) += dt` */
  function AddTo(ds: seq<Entry>, level: nat, dt: int): (r: seq<Entry>)
    requires Ordered(ds) && level > 0 && dt > 0
    ensures Ordered(r) && r != []
    ensures r[0].level == if ds == [] || level < ds[0].level then level else ds[0].level
  {
    if ds == [] || level < ds[0].level then [Entry(level, dt)] + ds
    else if level == ds[0].level then [Entry(level, ds[0].dur + dt)] + ds[1..]
    else [ds[0]] + AddTo(ds[1..], level, dt)
  }

  lemma {:induction false} AddToAdds(ds: seq<Entry>, level: nat, dt: int)
    requires Ordered(ds) && level > 0 && dt > 0
    ensures forall a, b :: DurIn(AddTo(ds, level, dt), a, b) == DurIn(ds, a, b) + if a <= level <= b then dt else 0
    ensures Weighted(AddTo(ds, level, dt)) == Weighted(ds) + level * dt
  {
    hide Ordered;
    var r := AddTo(ds, level, dt);
    if ds == [] || level < ds[0].level {
      assert r[1..] == ds;
    } else if level == ds[0].level {
      assert r[1..] == ds[1..];
      assert level * (ds[0].dur + dt) == level * ds[0].dur + level * dt;
    } else {
      OrderedRest(ds);
      AddToAdds(ds[1..], level, dt);
      assert r[1..] == AddTo(ds[1..], level, dt);
      forall a, b ensures DurIn(r, a, b) == DurIn(ds, a, b) + if a <= level <= b then dt else 0 {
        assert DurIn(r[1..], a, b) == DurIn(ds[1..], a, b) + if a <= level <= b then dt else 0;
      }
    }
  }

  lemma OrderedRest(ds: seq<Entry>)
    requires Ordered(ds) && ds != []
    ensures Ordered(ds[1..])
  {
  }

  // ----- The sweep -----

  /** Ties in time do not matter: the events only have to be in order of time. */
  method Sweep(es: seq<Event>) returns (ds: seq<Entry>)
    requires Sorted(es) && es != []
    ensures Ordered(ds)
    ensures forall a, b :: a >= 1 ==> DurIn(ds, a, b) == Between(es, a, b, es[0].time, es[|es| - 1].time)
    ensures Weighted(ds) == Area(es, es[0].time, es[|es| - 1].time)
  {
    ds := [];
    var current := 0;
    var last := es[0].time;
    var seen := false;
    var i := 0;
    while i < |es|
      invariant 0 <= i <= |es| && seen == (i > 0)
      invariant last == (if i == 0 then es[0].time else es[i - 1].time)
      invariant current == Sum(es[..i])
      invariant Ordered(ds)
      invariant forall a, b :: a >= 1 ==> DurIn(ds, a, b) == Between(es, a, b, es[0].time, last)
      invariant Weighted(ds) == Area(es, es[0].time, last)
    {
      var time, delta := es[i].time, es[i].delta;
      if seen {
        forall t | last <= t < time ensures Net(es, t) == current {
          NetOfPrefix(es, i, t);
        }
        ConstantStretch(es, current, es[0].time, last, time);
      }
      if current > 0 && seen {
        var dt := time - last;
        if dt > 0 {
          AddToAdds(ds, current, dt);
          ds := AddTo(ds, current, dt);
        }
      }
      SumExtends(es, i);
      current := current + delta;
      last := time;
      seen := true;
      i := i + 1;
    }
  }

  lemma SumExtends(es: seq<Event>, i: nat)
    requires i < |es|
    ensures Sum(es[..i + 1]) == Sum(es[..i]) + es[i].delta
  {
    assert es[..i + 1] == es[..i] + [es[i]];
    SumJoins(es[..i], [es[i]]);
  }

  lemma {:induction false} SumJoins(a: seq<Event>, b: seq<Event>)
    ensures Sum(a + b) == Sum(a) + Sum(b)
  {
    if a == [] {
      assert a + b == b;
    } else {
      assert (a + b)[1..] == a[1..] + b;
      SumJoins(a[1..], b);
    }
  }

  // ----- The sweep measures the intervals -----

  lemma {:induction false} BetweenIsTimeWith(ivs: seq<Interval>, es: seq<Event>, a: int, b: int, lo: int, hi: int)
    requires forall t :: Net(es, t) == RunningAt(ivs, t)
    ensures Between(es, a, b, lo, hi) == TimeWith(ivs, a, b, lo, hi)
    decreases hi - lo
  {
    if lo < hi {
      BetweenIsTimeWith(ivs, es, a, b, lo, hi - 1);
      assert Net(es, hi - 1) == RunningAt(ivs, hi - 1);
    }
  }

  lemma {:induction false} IdleOutside(ivs: seq<Interval>, lo: int, hi: int, t: int)
    requires Within(ivs, lo, hi) && !(lo <= t < hi)
    ensures RunningAt(ivs, t) == 0
  {
    if ivs != [] {
      IdleOutside(ivs[1..], lo, hi, t);
    }
  }

  /** Nothing runs outside the intervals, so the range looked at does not matter. */
  lemma {:induction false} Wider(ivs: seq<Interval>, a: int, b: int, lo: int, hi: int, lo2: int, hi2: int)
    requires Within(ivs, lo, hi) && lo2 <= lo && hi <= hi2 && a >= 1
    ensures TimeWith(ivs, a, b, lo2, hi2) == TimeWith(ivs, a, b, lo, hi)
    decreases hi2 - lo2
  {
    if hi < hi2 {
      IdleOutside(ivs, lo, hi, hi2 - 1);
      Wider(ivs, a, b, lo, hi, lo2, hi2 - 1);
    } else if lo2 < lo {
      WiderBelow(ivs, a, b, lo, hi, lo2, hi);
    }
  }

  lemma {:induction false} WiderBelow(ivs: seq<Interval>, a: int, b: int, lo: int, hi: int, lo2: int, end: int)
    requires Within(ivs, lo, hi) && lo2 <= lo && lo2 <= end <= hi && a >= 1
    ensures TimeWith(ivs, a, b, lo2, end) == TimeWith(ivs, a, b, lo, end)
    decreases end - lo2
  {
    if lo2 < end {
      WiderBelow(ivs, a, b, lo, hi, lo2, end - 1);
      if end <= lo {
        IdleOutside(ivs, lo, hi, end - 1);
      }
    }
  }

  /** Two ranges that hold every interval measure the same. */
  lemma SameMeasure(ivs: seq<Interval>, a: int, b: int, lo: int, hi: int, lo2: int, hi2: int)
    requires Within(ivs, lo, hi) && Within(ivs, lo2, hi2) && a >= 1
    ensures TimeWith(ivs, a, b, lo2, hi2) == TimeWith(ivs, a, b, lo, hi)
  {
    var l, h := if lo < lo2 then lo else lo2, if hi > hi2 then hi else hi2;
    Wider(ivs, a, b, lo, hi, l, h);
    Wider(ivs, a, b, lo2, hi2, l, h);
  }

  function Overlap(iv: Interval, lo: int, hi: int): int {
    var l, h := if iv.start > lo then iv.start else lo, if iv.end < hi then iv.end else hi;
    if l < h then h - l else 0
  }

  function Overlaps(ivs: seq<Interval>, lo: int, hi: int): int {
    if ivs == [] then 0 else Overlap(ivs[0], lo, hi) + Overlaps(ivs[1..], lo, hi)
  }

  lemma {:induction false} OverlapsGrow(ivs: seq<Interval>, lo: int, hi: int)
    requires lo < hi
    ensures Overlaps(ivs, lo, hi) == Overlaps(ivs, lo, hi - 1) + RunningAt(ivs, hi - 1)
  {
    if ivs != [] {
      OverlapsGrow(ivs[1..], lo, hi);
    }
  }

  lemma {:induction false} NoOverlap(ivs: seq<Interval>, lo: int, hi: int)
    requires hi <= lo
    ensures Overlaps(ivs, lo, hi) == 0
  {
    if ivs != [] {
      NoOverlap(ivs[1..], lo, hi);
    }
  }

  lemma {:induction false} AreaIsOverlaps(ivs: seq<Interval>, es: seq<Event>, lo: int, hi: int)
    requires forall t :: Net(es, t) == RunningAt(ivs, t)
    ensures Area(es, lo, hi) == Overlaps(ivs, lo, hi)
    decreases hi - lo
  {
    if lo < hi {
      AreaIsOverlaps(ivs, es, lo, hi - 1);
      OverlapsGrow(ivs, lo, hi);
      assert Net(es, hi - 1) == RunningAt(ivs, hi - 1);
    } else {
      NoOverlap(ivs, lo, hi);
    }
  }

  lemma {:induction false} OverlapsAreLengths(ivs: seq<Interval>, lo: int, hi: int)
    requires Within(ivs, lo, hi)
    ensures Overlaps(ivs, lo, hi) == Lengths(ivs)
  {
    if ivs != [] {
      OverlapsAreLengths(ivs[1..], lo, hi);
    }
  }

  lemma {:induction false} EndpointsOf(ivs: seq<Interval>, i: nat)
    requires i < |ivs|
    ensures Event(ivs[i].start, 1) in Endpoints(ivs) && Event(ivs[i].end, -1) in Endpoints(ivs)
  {
    if i > 0 {
      EndpointsOf(ivs[1..], i - 1);
    }
  }

  lemma SortedSpan(es: seq<Event>, e: Event)
    requires Sorted(es) && e in multiset(es)
    ensures es != [] && es[0].time <= e.time <= es[|es| - 1].time
  {
    var i :| 0 <= i < |es| && es[i] == e;
    assert i > 0 ==> Before(es[0], es[i]);
    assert i < |es| - 1 ==> Before(es[i], es[|es| - 1]);
  }

  /** All intervals lie between the first and the last event. */
  lemma EventsSpan(ivs: seq<Interval>, es: seq<Event>)
    requires Valid(ivs) && ivs != [] && Sorted(es) && multiset(es) == multiset(Endpoints(ivs))
    ensures es != [] && Within(ivs, es[0].time, es[|es| - 1].time)
  {
    hide Sorted, Endpoints;
    EndpointsOf(ivs, 0);
    SortedSpan(es, Event(ivs[0].start, 1));
    forall i | 0 <= i < |ivs| ensures es[0].time <= ivs[i].start <= ivs[i].end <= es[|es| - 1].time {
      EndpointsOf(ivs, i);
      SortedSpan(es, Event(ivs[i].start, 1));
      SortedSpan(es, Event(ivs[i].end, -1));
    }
  }

  /** The durations are exactly the time spent at each range of levels, and their weighted sum is
      the sum of the lengths of the intervals. */
  ghost predicate Measures(ds: seq<Entry>, ivs: seq<Interval>) {
    && Ordered(ds) && Weighted(ds) == Lengths(ivs)
    && forall a, b, lo, hi :: a >= 1 && Within(ivs, lo, hi) ==> DurIn(ds, a, b) == TimeWith(ivs, a, b, lo, hi)
  }

  method Durations(ivs: seq<Interval>) returns (ds: seq<Entry>)
    requires ivs != []
    ensures Ordered(ds)
    ensures Valid(ivs) ==> Measures(ds, ivs)
  {
    hide Ordered, Sorted, Valid, Within;
    var es := Sort(Endpoints(ivs));
    assert multiset(es) == multiset(Endpoints(ivs)) && |Endpoints(ivs)| > 0;
    assert |es| == |multiset(es)| == |multiset(Endpoints(ivs))|;
    ds := Sweep(es);
    if Valid(ivs) {
      forall t ensures Net(es, t) == RunningAt(ivs, t) {
        NetIsRunning(ivs, t);
      }
      EventsSpan(ivs, es);
      var first, last := es[0].time, es[|es| - 1].time;
      AreaIsOverlaps(ivs, es, first, last);
      OverlapsAreLengths(ivs, first, last);
      forall a, b, lo, hi | a >= 1 && Within(ivs, lo, hi) ensures DurIn(ds, a, b) == TimeWith(ivs, a, b, lo, hi) {
        BetweenIsTimeWith(ivs, es, a, b, first, last);
        SameMeasure(ivs, a, b, first, last, lo, hi);
      }
    }
  }

  // ----- Percentiles -----

  lemma {:induction false} DurInNone(ds: seq<Entry>, a: int, b: int)
    requires forall i :: 0 <= i < |ds| ==> !(a <= ds[i].level <= b)
    ensures DurIn(ds, a, b) == 0
  {
    if ds != [] {
      DurInNone(ds[1..], a, b);
    }
  }

  /** The running total over the entries in order is the time up to a level. */
  lemma {:induction false} Cumulative(ds: seq<Entry>, i: nat)
    requires Ordered(ds) && i < |ds|
    ensures DurIn(ds, 1, ds[i].level) == Total(ds[..i + 1])
    decreases |ds|
  {
    assert ds[..i + 1][1..] == ds[1..][..i];
    if i == 0 {
      DurInNone(ds[1..], 1, ds[0].level);
    } else {
      Cumulative(ds[1..], i - 1);
    }
  }

  lemma {:induction false} TotalExtends(ds: seq<Entry>, i: nat)
    requires i < |ds|
    ensures Total(ds[..i + 1]) == Total(ds[..i]) + ds[i].dur
  {
    if i > 0 {
      assert ds[..i + 1][1..] == ds[1..][..i] && ds[..i][1..] == ds[1..][..i - 1];
      TotalExtends(ds[1..], i - 1);
    }
  }

  /** `cumulative` is at least `p` percent of `total`. */
  predicate Reached(cumulative: int, total: int, p: nat) {
    cumulative * 100 >= total * p
  }

  lemma AllReached(total: nat, p: nat)
    requires p <= 100
    ensures Reached(total, total, p)
  {
    assert total * p <= total * 100;
  }

  lemma PartNotReached(part: int, total: nat, p: nat)
    requires part < total && p >= 100
    ensures !Reached(part, total, p)
  {
    assert total * p >= total * 100;
  }

  lemma LowerReached(part: int, total: nat, p: nat, q: nat)
    requires p <= q && Reached(part, total, q)
    ensures Reached(part, total, p)
  {
    assert total * p <= total * q;
  }

  /** `level` is in the map. */
  ghost predicate Occurs(ds: seq<Entry>, level: int) {
    exists i :: 0 <= i < |ds| && ds[i].level == level
  }

  /** The least level in the map whose cumulative time reaches the share, or else the greatest. */
  ghost predicate IsPercentile(ds: seq<Entry>, total: int, p: nat, r: nat) {
    && Occurs(ds, r)
    && (forall y: int :: Occurs(ds, y) && y < r ==> !Reached(DurIn(ds, 1, y), total, p))
    && (Reached(DurIn(ds, 1, r), total, p) || forall y: int :: Occurs(ds, y) ==> y <= r)
  }

  method PercentileLevel(ds: seq<Entry>, total: int, p: nat) returns (r: nat)
    requires Ordered(ds)
    ensures ds == [] ==> r == 0
    ensures ds != [] ==> IsPercentile(ds, total, p, r)
  {
    var threshold := total * p;
    var cumulative := 0;
    var lastLevel := 0;
    var i := 0;
    while i < |ds|
      invariant 0 <= i <= |ds| && cumulative == Total(ds[..i])
      invariant lastLevel == (if i == 0 then 0 else ds[i - 1].level)
      invariant forall j :: 0 <= j < i ==> !Reached(DurIn(ds, 1, ds[j].level), total, p)
    {
      TotalExtends(ds, i);
      Cumulative(ds, i);
      cumulative := cumulative + ds[i].dur;
      lastLevel := ds[i].level;
      if cumulative * 100 >= threshold {
        return ds[i].level;
      }
      i := i + 1;
    }
    r := lastLevel;
  }

  lemma {:induction false} DurInSplits(ds: seq<Entry>, a: int, b: int, c: int)
    requires a <= b + 1 && b <= c
    ensures DurIn(ds, a, c) == DurIn(ds, a, b) + DurIn(ds, b + 1, c)
  {
    if ds != [] {
      DurInSplits(ds[1..], a, b, c);
    }
  }

  lemma {:induction false} DurInSome(ds: seq<Entry>, a: int, b: int, i: nat)
    requires Ordered(ds) && i < |ds| && a <= ds[i].level <= b
    ensures DurIn(ds, a, b) > 0
    decreases |ds|
  {
    if i > 0 {
      DurInSome(ds[1..], a, b, i - 1);
    } else {
      DurInNonNegative(ds[1..], a, b);
    }
  }

  lemma {:induction false} DurInNonNegative(ds: seq<Entry>, a: int, b: int)
    requires forall i :: 0 <= i < |ds| ==> ds[i].dur > 0
    ensures DurIn(ds, a, b) >= 0
  {
    if ds != [] {
      DurInNonNegative(ds[1..], a, b);
    }
  }

  /** The levels in the map are those at which time was spent. */
  lemma OccursIff(ds: seq<Entry>, level: int)
    requires Ordered(ds)
    ensures Occurs(ds, level) <==> DurIn(ds, level, level) > 0
  {
    if Occurs(ds, level) {
      var i :| 0 <= i < |ds| && ds[i].level == level;
      DurInSome(ds, level, level, i);
    } else {
      DurInNone(ds, level, level);
    }
  }

  lemma {:induction false} AtMostAll(ivs: seq<Interval>, t: int)
    ensures RunningAt(ivs, t) <= |ivs|
  {
    if ivs != [] {
      AtMostAll(ivs[1..], t);
    }
  }

  lemma {:induction false} NeverAboveAll(ivs: seq<Interval>, b: int, lo: int, hi: int)
    requires b >= |ivs|
    ensures TimeWith(ivs, 1, b, lo, hi) == TimeWith(ivs, 1, |ivs|, lo, hi)
    decreases hi - lo
  {
    if lo < hi {
      NeverAboveAll(ivs, b, lo, hi - 1);
      AtMostAll(ivs, hi - 1);
    }
  }

  /** The sum of all durations is the time at least one action ran. */
  lemma TotalIsBusy(ds: seq<Entry>, ivs: seq<Interval>, lo: int, hi: int)
    requires Measures(ds, ivs) && Within(ivs, lo, hi)
    ensures Total(ds) == TimeWith(ivs, 1, |ivs|, lo, hi)
  {
    hide Within;
    if ds == [] {
      assert DurIn(ds, 1, |ivs|) == 0;
    } else {
      var i := |ds| - 1;
      Cumulative(ds, i);
      assert ds[..i + 1] == ds;
      var top := if ds[i].level > |ivs| then ds[i].level else |ivs|;
      DurInSplits(ds, 1, ds[i].level, top);
      DurInNone(ds, ds[i].level + 1, top);
      NeverAboveAll(ivs, top, lo, hi);
    }
  }

  /** `r` is a level that occurred; at least `p` percent of the busy time was spent at or below it
      and less at or below any lower one that occurred; from 100 on it is the greatest. */
  ghost predicate PercentileOf(ivs: seq<Interval>, p: nat, r: nat, lo: int, hi: int) {
    && r >= 1 && TimeWith(ivs, r, r, lo, hi) > 0
    && (forall y: int :: 1 <= y < r && TimeWith(ivs, y, y, lo, hi) > 0 ==>
          !Reached(TimeWith(ivs, 1, y, lo, hi), TimeWith(ivs, 1, |ivs|, lo, hi), p))
    && (p <= 100 ==> Reached(TimeWith(ivs, 1, r, lo, hi), TimeWith(ivs, 1, |ivs|, lo, hi), p))
    && (p >= 100 ==> forall y: int :: y > r ==> TimeWith(ivs, y, y, lo, hi) == 0)
  }

  /** All of the time is at or below the greatest level. */
  lemma UpToGreatest(ds: seq<Entry>, r: nat)
    requires Ordered(ds) && Occurs(ds, r) && forall y: int :: Occurs(ds, y) ==> y <= r
    ensures DurIn(ds, 1, r) == Total(ds)
  {
    var i := |ds| - 1;
    Cumulative(ds, i);
    assert Occurs(ds, ds[i].level);
    assert ds[..i + 1] == ds;
  }

  /** Below the greatest level, some of the time is missing. */
  lemma BelowGreatest(ds: seq<Entry>, r: nat, y: int)
    requires Ordered(ds) && Occurs(ds, y) && y > r
    ensures DurIn(ds, 1, r) < Total(ds)
  {
    var i :| 0 <= i < |ds| && ds[i].level == y;
    var last := |ds| - 1;
    Cumulative(ds, last);
    assert ds[..last + 1] == ds;
    DurInSplits(ds, 1, r, ds[last].level);
    DurInSome(ds, r + 1, ds[last].level, i);
  }

  lemma PercentileMeaning(ds: seq<Entry>, ivs: seq<Interval>, p: nat, r: nat, lo: int, hi: int)
    requires Measures(ds, ivs) && Within(ivs, lo, hi) && IsPercentile(ds, Total(ds), p, r)
    ensures PercentileOf(ivs, p, r, lo, hi)
  {
    hide Within, Occurs, Reached;
    TotalIsBusy(ds, ivs, lo, hi);
    OccursIff(ds, r);
    OccursPositive(ds, r);
    TotalNonNegative(ds);
    forall y: int | 1 <= y < r && TimeWith(ivs, y, y, lo, hi) > 0
      ensures !Reached(TimeWith(ivs, 1, y, lo, hi), TimeWith(ivs, 1, |ivs|, lo, hi), p)
    {
      OccursIff(ds, y);
    }
    if forall y: int :: Occurs(ds, y) ==> y <= r {
      UpToGreatest(ds, r);
      NotAbove(ds, ivs, r, lo, hi);
      if p <= 100 {
        AllReached(Total(ds), p);
      }
    } else {
      var y: int :| Occurs(ds, y) && y > r;
      BelowGreatest(ds, r, y);
      if p >= 100 {
        PartNotReached(DurIn(ds, 1, r), Total(ds), p);
      }
    }
  }

  lemma NotAbove(ds: seq<Entry>, ivs: seq<Interval>, r: nat, lo: int, hi: int)
    requires Measures(ds, ivs) && Within(ivs, lo, hi) && forall y: int :: Occurs(ds, y) ==> y <= r
    ensures forall y: int :: y > r ==> TimeWith(ivs, y, y, lo, hi) == 0
  {
    hide Within, Occurs;
    forall y: int | y > r ensures TimeWith(ivs, y, y, lo, hi) == 0 {
      OccursIff(ds, y);
    }
  }

  lemma OccursPositive(ds: seq<Entry>, r: int)
    requires Ordered(ds) && Occurs(ds, r)
    ensures r >= 1
  {
  }

  lemma {:induction false} TotalNonNegative(ds: seq<Entry>)
    requires Ordered(ds)
    ensures Total(ds) >= 0 && (ds != [] ==> Total(ds) > 0)
  {
    if ds != [] {
      TotalNonNegative(ds[1..]);
    }
  }

  /** Higher percentiles are never lower levels, and each percentile is one level. */
  lemma PercentilesMonotone(ivs: seq<Interval>, p: nat, q: nat, r: nat, x: nat, lo: int, hi: int)
    requires PercentileOf(ivs, p, r, lo, hi) && PercentileOf(ivs, q, x, lo, hi) && p <= q
    ensures r <= x
    ensures p == q ==> r == x
  {
    NotLower(ivs, p, q, r, x, lo, hi);
    if p == q {
      NotLower(ivs, q, p, x, r, lo, hi);
    }
  }

  lemma NotLower(ivs: seq<Interval>, p: nat, q: nat, r: nat, x: nat, lo: int, hi: int)
    requires PercentileOf(ivs, p, r, lo, hi) && PercentileOf(ivs, q, x, lo, hi) && p <= q
    ensures r <= x
  {
    hide Reached;
    if q <= 100 {
      LowerReached(TimeWith(ivs, 1, x, lo, hi), TimeWith(ivs, 1, |ivs|, lo, hi), p, q);
    }
  }

  // ----- The whole computation -----

  function EmptyDistribution(executed: nat, percentiles: seq<nat>): (d: Distribution)
    ensures |d.percentiles| == |percentiles|
    ensures forall i :: 0 <= i < |percentiles| ==> d.percentiles[i] == (percentiles[i], 0)
    ensures d.total == 0 && d.average == 0.0 && d.executed == executed
  {
    Distribution(seq(|percentiles|, i requires 0 <= i < |percentiles| => (percentiles[i], 0)), 0.0, executed, 0)
  }

  /** What every entry of the reported distribution means. */
  ghost predicate Reports(d: Distribution, ivs: seq<Interval>, percentiles: seq<nat>, lo: int, hi: int) {
    && d.executed == |ivs| && d.total == TimeWith(ivs, 1, |ivs|, lo, hi)
    && |d.percentiles| == |percentiles|
    && (d.total > 0 ==>
          && d.average * d.total as real == Lengths(ivs) as real
          && forall i :: 0 <= i < |percentiles| ==>
               d.percentiles[i].0 == percentiles[i] && PercentileOf(ivs, percentiles[i], d.percentiles[i].1, lo, hi))
    && (d.total == 0 ==> d == EmptyDistribution(|ivs|, percentiles))
  }

  method Compute(ivs: seq<Interval>, percentiles: seq<nat>) returns (d: Distribution)
    ensures d.executed == |ivs| && |d.percentiles| == |percentiles|
    ensures Valid(ivs) ==> forall lo, hi :: Within(ivs, lo, hi) ==> Reports(d, ivs, percentiles, lo, hi)
  {
    hide Within, PercentileOf, Ordered, Valid, Measures, IsPercentile;
    if |ivs| == 0 {
      d := EmptyDistribution(0, percentiles);
      forall lo, hi | Within(ivs, lo, hi) ensures Reports(d, ivs, percentiles, lo, hi) {
        NoneRunning(lo, hi);
      }
      return;
    }
    var ds := Durations(ivs);
    var total := Total(ds);
    TotalNonNegative(ds);
    if total <= 0 {
      d := EmptyDistribution(|ivs|, percentiles);
      if Valid(ivs) {
        forall lo, hi | Within(ivs, lo, hi) ensures Reports(d, ivs, percentiles, lo, hi) {
          TotalIsBusy(ds, ivs, lo, hi);
        }
      }
      return;
    }
    var average := Weighted(ds) as real / total as real;
    var values: seq<(nat, nat)> := [];
    for i := 0 to |percentiles|
      invariant |values| == i
      invariant forall j :: 0 <= j < i ==> values[j].0 == percentiles[j] && IsPercentile(ds, total, percentiles[j], values[j].1)
    {
      var level := PercentileLevel(ds, total, percentiles[i]);
      values := values + [(percentiles[i], level)];
    }
    d := Distribution(values, average, |ivs|, total);
    if Valid(ivs) {
      forall lo, hi | Within(ivs, lo, hi) ensures Reports(d, ivs, percentiles, lo, hi) {
        DistributionReports(d, ds, ivs, percentiles, lo, hi);
      }
    }
  }

  lemma {:induction false} NoneRunning(lo: int, hi: int)
    ensures TimeWith([], 1, 0, lo, hi) == 0
    decreases hi - lo
  {
    if lo < hi {
      NoneRunning(lo, hi - 1);
    }
  }

  lemma AverageTimesTotal(weighted: int, total: int)
    requires total > 0
    ensures weighted as real / total as real * total as real == weighted as real
  {
  }

  lemma DistributionReports(d: Distribution, ds: seq<Entry>, ivs: seq<Interval>, percentiles: seq<nat>, lo: int, hi: int)
    requires Measures(ds, ivs) && Within(ivs, lo, hi) && d.total == Total(ds) > 0 && d.executed == |ivs|
    requires d.average == Weighted(ds) as real / Total(ds) as real && |d.percentiles| == |percentiles|
    requires forall j :: 0 <= j < |percentiles| ==>
               d.percentiles[j].0 == percentiles[j] && IsPercentile(ds, Total(ds), percentiles[j], d.percentiles[j].1)
    ensures Reports(d, ivs, percentiles, lo, hi)
  {
    hide Within, PercentileOf, Ordered, IsPercentile, TimeWith, DurIn;
    TotalIsBusy(ds, ivs, lo, hi);
    AverageTimesTotal(Weighted(ds), Total(ds));
    forall i | 0 <= i < |percentiles| ensures PercentileOf(ivs, percentiles[i], d.percentiles[i].1, lo, hi) {
      PercentileMeaning(ds, ivs, percentiles[i], d.percentiles[i].1, lo, hi);
    }
  }

  lemma {:induction false} TimeWithin(ivs: seq<Interval>, a: int, b: int, lo: int, hi: int)
    requires lo <= hi
    ensures TimeWith(ivs, a, b, lo, hi) <= hi - lo
    decreases hi - lo
  {
    if lo < hi {
      TimeWithin(ivs, a, b, lo, hi - 1);
    }
  }

  /** If the intervals span less than 64 bits, so do every entry of the map and their sum; no sum of
      the sweep overflows. */
  lemma DurationsFit(ds: seq<Entry>, ivs: seq<Interval>, lo: int, hi: int)
    requires Measures(ds, ivs) && Within(ivs, lo, hi) && FitsI64(hi - lo)
    ensures FitsI64(Total(ds)) && forall i :: 0 <= i < |ds| ==> 0 < ds[i].dur && FitsI64(ds[i].dur)
  {
    TotalIsBusy(ds, ivs, lo, hi);
    TimeWithin(ivs, 1, |ivs|, lo, hi);
    forall i | 0 <= i < |ds| ensures 0 < ds[i].dur && FitsI64(ds[i].dur) {
      EntryWithin(ds, i);
    }
  }

  lemma {:induction false} EntryWithin(ds: seq<Entry>, i: nat)
    requires Ordered(ds) && i < |ds|
    ensures 0 < ds[i].dur <= Total(ds)
  {
    TotalNonNegative(ds[1..]);
    if i > 0 {
      EntryWithin(ds[1..], i - 1);
    }
  }

  /** Nothing is reported exactly when every interval is empty. */
  lemma {:induction false} BusyIff(ivs: seq<Interval>, lo: int, hi: int)
    requires Within(ivs, lo, hi)
    ensures TimeWith(ivs, 1, |ivs|, lo, hi) == 0 <==> Lengths(ivs) == 0
  {
    OverlapsAreLengths(ivs, lo, hi);
    OverlapsIff(ivs, lo, hi);
  }

  lemma {:induction false} OverlapsIff(ivs: seq<Interval>, lo: int, hi: int)
    ensures Overlaps(ivs, lo, hi) >= TimeWith(ivs, 1, |ivs|, lo, hi)
    ensures TimeWith(ivs, 1, |ivs|, lo, hi) == 0 ==> Overlaps(ivs, lo, hi) == 0
    decreases hi - lo
  {
    if lo < hi {
      OverlapsIff(ivs, lo, hi - 1);
      OverlapsGrow(ivs, lo, hi);
      AtMostAll(ivs, hi - 1);
    } else {
      NoOverlap(ivs, lo, hi);
    }
  }
}
