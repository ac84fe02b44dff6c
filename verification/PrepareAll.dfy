/** `prepare_all` of `pagable/src/prepare.rs`: workers pop batches from a shared queue and fill a
    slot per batch, under every schedule. */
module PrepareAll {
  import opened Options

  const MAX_BATCH: nat := 64
  const CONCURRENCY: nat := 16

  // ----- Batches -----

  /** The least size at which the tasks get through `n` items with a batch each, or the greatest allowed
      if none is large enough. */
  function BatchSize(n: nat): (size: nat)
    ensures 1 <= size <= MAX_BATCH
    ensures size < MAX_BATCH ==> n <= size * CONCURRENCY
    ensures size > 1 ==> (size - 1) * CONCURRENCY < n
  {
    var share := (n + CONCURRENCY - 1) / CONCURRENCY;
    if share < 1 then 1 else if share > MAX_BATCH then MAX_BATCH else share
  }

  function BatchCount(n: nat): nat {
    var size := BatchSize(n);
    (n + size - 1) / size
  }

  datatype Batch<I> = Batch(index: nat, items: seq<I>)

  function Concat<I>(bs: seq<seq<I>>): seq<I> {
    if bs == [] then [] else bs[0] + Concat(bs[1..])
  }

  lemma {:induction false} ConcatAppend<I>(bs: seq<seq<I>>, b: seq<I>)
    ensures Concat(bs + [b]) == Concat(bs) + b
  {
    if bs == [] {
      assert bs + [b] == [b];
      assert Concat([b]) == b + Concat([b][1..]);
    } else {
      assert (bs + [b])[1..] == bs[1..] + [b];
      ConcatAppend(bs[1..], b);
    }
  }

  function Parts<I>(bs: seq<Batch<I>>): seq<seq<I>> {
    seq(|bs|, i requires 0 <= i < |bs| => bs[i].items)
  }

  /** Consecutive nonempty runs of `items`, numbered from zero, that make up all of it. */
  ghost predicate Splits<I>(items: seq<I>, size: nat, bs: seq<Batch<I>>) {
    && Concat(Parts(bs)) == items
    && forall i :: 0 <= i < |bs| ==> bs[i].index == i && 0 < |bs[i].items| <= size
  }

  method MakeBatches<I>(items: seq<I>) returns (pending: seq<Batch<I>>)
    ensures Splits(items, BatchSize(|items|), pending)
    ensures |pending| == BatchCount(|items|)
  {
    var size := BatchSize(|items|);
    pending := [];
    var at := 0;
    assert Counted(at, |items|, size, |pending|);
    hide Counted, BatchSize;
    while at < |items|
      invariant 0 <= at <= |items| && Splits(items[..at], size, pending)
      invariant Counted(at, |items|, size, |pending|)
    {
      var end := if at + size <= |items| then at + size else |items|;
      var batch := Batch(|pending|, items[at..end]);
      ConcatAppend(Parts(pending), batch.items);
      CountStep(at, |items|, size, |pending|);
      assert Parts(pending + [batch]) == Parts(pending) + [batch.items];
      assert items[..end] == items[..at] + items[at..end];
      pending := pending + [batch];
      at := end;
    }
    assert items[..at] == items;
    CountDone(|items|, size, |pending|);
  }

  lemma CountIs(n: nat, size: nat, count: nat)
    requires size > 0 && n <= count * size && (count == 0 || (count - 1) * size < n)
    ensures (n + size - 1) / size == count
  {
    var q := (n + size - 1) / size;
    assert q * size <= n + size - 1 < q * size + size;
    assert (count + 1) * size == count * size + size;
    MulLess(q, count + 1, size);
    if count > 0 {
      MulLess(count - 1, q, size);
    }
  }

  lemma MulLess(a: nat, b: nat, size: nat)
    requires a * size < b * size
    ensures a < b
  {
  }

  /** `at` items make `count` batches, of which only the last may be short. */
  ghost predicate Counted(at: nat, n: nat, size: nat, count: nat) {
    at == count * size || (at == n && 0 < count && (count - 1) * size < at < count * size)
  }

  lemma CountStep(at: nat, n: nat, size: nat, count: nat)
    requires Counted(at, n, size, count) && at < n && size > 0
    ensures Counted(if at + size <= n then at + size else n, n, size, count + 1)
  {
    assert (count + 1) * size == count * size + size;
  }

  lemma CountDone(n: nat, size: nat, count: nat)
    requires Counted(n, n, size, count) && size > 0
    ensures (n + size - 1) / size == count
  {
    assert count > 0 ==> (count - 1) * size == count * size - size;
    CountIs(n, size, count);
  }

  // ----- The workers -----

  function Map<I, T>(f: I -> T, items: seq<I>): (r: seq<T>)
    ensures |r| == |items| && forall i :: 0 <= i < |items| ==> r[i] == f(items[i])
  {
    if items == [] then [] else [f(items[0])] + Map(f, items[1..])
  }

  /** A worker between batches, with a batch in hand, returned, or panicked over a batch. */
  datatype Worker<I> = Looking | Working(batch: Batch<I>) | Returned | Panicked(batch: Batch<I>)

  /** `writes` counts how often each slot was filled. */
  datatype Pool<I, T> = Pool(pending: seq<Batch<I>>, results: seq<Option<seq<T>>>, writes: seq<nat>, workers: seq<Worker<I>>)

  datatype Step = Pop(w: nat) | Fill(w: nat) | Panic(w: nat)

  function Start<I, T>(bs: seq<Batch<I>>): Pool<I, T> {
    Pool(bs, seq(|bs|, _ => None), seq(|bs|, _ => 0),
         seq(if |bs| < CONCURRENCY then |bs| else CONCURRENCY, _ => Looking))
  }

  function Next<I, T>(f: I -> T, p: Pool<I, T>, s: Step): Option<Pool<I, T>> {
    match s
    case Pop(w) =>
      if w >= |p.workers| || !p.workers[w].Looking? then None
      else if p.pending == [] then Some(p.(workers := p.workers[w := Returned]))
      else Some(p.(pending := p.pending[1..], workers := p.workers[w := Working(p.pending[0])]))
    case Fill(w) =>
      if w >= |p.workers| || !p.workers[w].Working? then None
      else
        var b := p.workers[w].batch;
        if b.index >= |p.results| || b.index >= |p.writes| then None
        else Some(p.(results := p.results[b.index := Some(Map(f, b.items))],
                     writes := p.writes[b.index := p.writes[b.index] + 1],
                     workers := p.workers[w := Looking]))
    case Panic(w) =>
      if w >= |p.workers| || !p.workers[w].Working? then None
      else Some(p.(workers := p.workers[w := Panicked(p.workers[w].batch)]))
  }

  function Run<I, T>(f: I -> T, p: Pool<I, T>, ss: seq<Step>): Option<Pool<I, T>>
    decreases |ss|
  {
    if ss == [] then Some(p)
    else
      var p1 := Next(f, p, ss[0]);
      if p1.None? then None else Run(f, p1.value, ss[1..])
  }

  ghost predicate Joined<I, T>(p: Pool<I, T>) {
    forall w :: 0 <= w < |p.workers| ==> p.workers[w].Returned? || p.workers[w].Panicked?
  }

  ghost predicate AnyPanicked<I, T>(p: Pool<I, T>) {
    exists w :: 0 <= w < |p.workers| && p.workers[w].Panicked?
  }

  // ----- The invariant -----

  predicate Holding<I>(w: Worker<I>) {
    w.Working? || w.Panicked?
  }

  ghost predicate HeldBy<I, T>(p: Pool<I, T>, w: nat, i: nat) {
    w < |p.workers| && Holding(p.workers[w]) && p.workers[w].batch.index == i
  }

  /** A batch is waiting, in the hands of a worker, or its slot is filled with its results. */
  ghost predicate SlotOk<I(!new), T(!new)>(f: I -> T, bs: seq<Batch<I>>, p: Pool<I, T>, i: nat)
    requires i < |bs| == |p.results| == |p.writes|
  {
    if i >= |bs| - |p.pending| then p.results[i].None? && p.writes[i] == 0
    else
      || (p.results[i] == Some(Map(f, bs[i].items)) && p.writes[i] == 1)
      || (p.results[i].None? && p.writes[i] == 0 && exists w :: HeldBy(p, w, i))
  }

  ghost predicate WorkerOk<I(!new), T(!new)>(bs: seq<Batch<I>>, p: Pool<I, T>, w: nat)
    requires w < |p.workers| && |bs| == |p.results| == |p.writes| && |p.pending| <= |bs|
  {
    && (p.workers[w].Returned? ==> p.pending == [])
    && (Holding(p.workers[w]) ==>
          var b := p.workers[w].batch;
          b.index < |bs| - |p.pending| && b == bs[b.index] && p.results[b.index].None? && p.writes[b.index] == 0)
  }

  ghost predicate Inv<I(!new), T(!new)>(f: I -> T, bs: seq<Batch<I>>, p: Pool<I, T>) {
    && |p.results| == |bs| && |p.writes| == |bs|
    && |p.pending| <= |bs| && p.pending == bs[|bs| - |p.pending|..]
    && (forall i :: 0 <= i < |bs| ==> bs[i].index == i)
    && (forall w :: 0 <= w < |p.workers| ==> WorkerOk(bs, p, w))
    && (forall v, w, i :: HeldBy(p, v, i) && HeldBy(p, w, i) ==> v == w)
    && (forall i :: 0 <= i < |bs| ==> SlotOk(f, bs, p, i))
  }

  lemma PopKeeps<I(!new), T(!new)>(f: I -> T, bs: seq<Batch<I>>, p: Pool<I, T>, w: nat)
    requires Inv(f, bs, p) && Next(f, p, Pop(w)).Some?
    ensures Inv(f, bs, Next(f, p, Pop(w)).value)
  {
    var q := Next(f, p, Pop(w)).value;
    var k := |bs| - |p.pending|;
    if p.pending != [] {
      assert q.pending == bs[|bs| - |q.pending|..];
      assert p.pending[0] == bs[k];
      assert HeldBy(q, w, k);
    }
    forall v | 0 <= v < |q.workers| ensures WorkerOk(bs, q, v) {
      assert WorkerOk(bs, p, v);
      assert k < |bs| ==> SlotOk(f, bs, p, k);
    }
    forall v, u, i | HeldBy(q, v, i) && HeldBy(q, u, i) ensures v == u {
      assert v != w ==> HeldBy(p, v, i) && WorkerOk(bs, p, v);
      assert u != w ==> HeldBy(p, u, i) && WorkerOk(bs, p, u);
    }
    forall i | 0 <= i < |bs| ensures SlotOk(f, bs, q, i) {
      assert SlotOk(f, bs, p, i);
      if v :| HeldBy(p, v, i) {
        assert HeldBy(q, v, i);
      }
    }
  }

  lemma FillKeeps<I(!new), T(!new)>(f: I -> T, bs: seq<Batch<I>>, p: Pool<I, T>, w: nat)
    requires Inv(f, bs, p) && Next(f, p, Fill(w)).Some?
    ensures Inv(f, bs, Next(f, p, Fill(w)).value)
  {
    var q := Next(f, p, Fill(w)).value;
    var b := p.workers[w].batch;
    assert WorkerOk(bs, p, w) && HeldBy(p, w, b.index);
    forall v | 0 <= v < |q.workers| ensures WorkerOk(bs, q, v) {
      assert WorkerOk(bs, p, v);
      assert v != w && Holding(p.workers[v]) ==> HeldBy(p, v, p.workers[v].batch.index);
    }
    forall v, u, i | HeldBy(q, v, i) && HeldBy(q, u, i) ensures v == u {
      assert HeldBy(p, v, i) && HeldBy(p, u, i);
    }
    forall i | 0 <= i < |bs| ensures SlotOk(f, bs, q, i) {
      assert SlotOk(f, bs, p, i);
      if v :| HeldBy(p, v, i) && v != w {
        assert HeldBy(q, v, i);
      }
    }
  }

  lemma PanicKeeps<I(!new), T(!new)>(f: I -> T, bs: seq<Batch<I>>, p: Pool<I, T>, w: nat)
    requires Inv(f, bs, p) && Next(f, p, Panic(w)).Some?
    ensures Inv(f, bs, Next(f, p, Panic(w)).value)
  {
    var q := Next(f, p, Panic(w)).value;
    forall v | 0 <= v < |q.workers| ensures WorkerOk(bs, q, v) {
      assert WorkerOk(bs, p, v);
    }
    forall v, u, i | HeldBy(q, v, i) && HeldBy(q, u, i) ensures v == u {
      assert HeldBy(p, v, i) && HeldBy(p, u, i);
    }
    forall i | 0 <= i < |bs| ensures SlotOk(f, bs, q, i) {
      assert SlotOk(f, bs, p, i);
      if v :| HeldBy(p, v, i) {
        assert HeldBy(q, v, i);
      }
    }
  }

  lemma StartsOk<I(!new), T(!new)>(f: I -> T, items: seq<I>, size: nat, bs: seq<Batch<I>>)
    requires Splits(items, size, bs)
    ensures Inv(f, bs, Start<I, T>(bs))
  {
    var p := Start<I, T>(bs);
    assert p.pending == bs[|bs| - |p.pending|..];
    forall i | 0 <= i < |bs| ensures SlotOk(f, bs, p, i) {
    }
  }

  /** Whatever the schedule, every batch is waiting, held by one worker, or done once. */
  lemma {:induction false} EverySchedule<I(!new), T(!new)>(f: I -> T, bs: seq<Batch<I>>, p: Pool<I, T>, ss: seq<Step>)
    requires Inv(f, bs, p) && Run(f, p, ss).Some?
    ensures Inv(f, bs, Run(f, p, ss).value) && |Run(f, p, ss).value.workers| == |p.workers|
    decreases |ss|
  {
    hide Inv;
    if ss != [] {
      match ss[0] {
        case Pop(w) => PopKeeps(f, bs, p, w);
        case Fill(w) => FillKeeps(f, bs, p, w);
        case Panic(w) => PanicKeeps(f, bs, p, w);
      }
      EverySchedule(f, bs, Next(f, p, ss[0]).value, ss[1..]);
    }
  }

  // ----- The result -----

  /** What `prepare_all` returns once all tasks joined: `None` if one did not return. */
  method Gather<I(!new), T(!new)>(p: Pool<I, T>) returns (o: Option<seq<T>>)
    requires AnyPanicked(p) || forall i :: 0 <= i < |p.results| ==> p.results[i].Some?
    ensures o.None? <==> AnyPanicked(p)
    ensures o.Some? ==> (forall i :: 0 <= i < |p.results| ==> p.results[i].Some?) && o.value == Concat(Filled(p.results))
  {
    var w := 0;
    while w < |p.workers|
      invariant 0 <= w <= |p.workers|
      invariant forall v :: 0 <= v < w ==> !p.workers[v].Panicked?
    {
      if p.workers[w].Panicked? {
        return None;
      }
      w := w + 1;
    }
    var out: seq<T> := [];
    var i := 0;
    while i < |p.results|
      invariant 0 <= i <= |p.results| && out == Concat(Filled(p.results)[..i])
    {
      ConcatAppend(Filled(p.results)[..i], p.results[i].value);
      assert Filled(p.results)[..i + 1] == Filled(p.results)[..i] + [p.results[i].value];
      out := out + p.results[i].value;
      i := i + 1;
    }
    assert Filled(p.results)[..i] == Filled(p.results);
    o := Some(out);
  }

  function Filled<T>(rs: seq<Option<seq<T>>>): seq<seq<T>>
    requires forall i :: 0 <= i < |rs| ==> rs[i].Some?
  {
    seq(|rs|, i requires 0 <= i < |rs| => rs[i].value)
  }

  /** Once every task returned, every slot was filled exactly once. */
  lemma AllFilled<I(!new), T(!new)>(f: I -> T, bs: seq<Batch<I>>, p: Pool<I, T>)
    requires Inv(f, bs, p) && Joined(p) && !AnyPanicked(p) && p.workers != []
    ensures forall i :: 0 <= i < |bs| ==> p.results[i] == Some(Map(f, bs[i].items)) && p.writes[i] == 1
  {
    assert WorkerOk(bs, p, 0) && p.workers[0].Returned?;
    forall i | 0 <= i < |bs| ensures p.results[i] == Some(Map(f, bs[i].items)) && p.writes[i] == 1 {
      assert SlotOk(f, bs, p, i);
      forall w: nat ensures !HeldBy(p, w, i) {
        assert w < |p.workers| ==> p.workers[w].Returned?;
      }
    }
  }

  lemma {:induction false} MapJoins<I, T>(f: I -> T, a: seq<I>, b: seq<I>)
    ensures Map(f, a + b) == Map(f, a) + Map(f, b)
  {
  }

  lemma {:induction false} MapConcat<I, T>(f: I -> T, parts: seq<seq<I>>, done: seq<seq<T>>)
    requires |done| == |parts| && forall i :: 0 <= i < |parts| ==> done[i] == Map(f, parts[i])
    ensures Concat(done) == Map(f, Concat(parts))
    decreases |parts|
  {
    if parts != [] {
      MapConcat(f, parts[1..], done[1..]);
      MapJoins(f, parts[0], Concat(parts[1..]));
    }
  }

  /** Whatever the schedule, if all tasks return then the results are those of preparing the items
      one after the other, in order. */
  lemma ScheduleIndependent<I(!new), T(!new)>(f: I -> T, items: seq<I>, size: nat, bs: seq<Batch<I>>, ss: seq<Step>)
    requires Splits(items, size, bs) && bs != [] && Run(f, Start<I, T>(bs), ss).Some?
    requires Joined(Run(f, Start<I, T>(bs), ss).value) && !AnyPanicked(Run(f, Start<I, T>(bs), ss).value)
    ensures var p := Run(f, Start<I, T>(bs), ss).value;
            && (forall i :: 0 <= i < |p.results| ==> p.results[i].Some? && i < |p.writes| && p.writes[i] == 1)
            && Concat(Filled(p.results)) == Map(f, items)
  {
    StartsOk<I, T>(f, items, size, bs);
    EverySchedule(f, bs, Start<I, T>(bs), ss);
    var p := Run(f, Start<I, T>(bs), ss).value;
    AllFilled(f, bs, p);
    MapConcat(f, Parts(bs), Filled(p.results));
  }

  // ----- Every run joins -----

  /** Until every task has joined, some task can go on. */
  lemma SomeTaskGoesOn<I(!new), T(!new)>(f: I -> T, bs: seq<Batch<I>>, p: Pool<I, T>) returns (s: Step)
    requires Inv(f, bs, p) && !Joined(p)
    ensures Next(f, p, s).Some?
  {
    var w :| 0 <= w < |p.workers| && !p.workers[w].Returned? && !p.workers[w].Panicked?;
    assert WorkerOk(bs, p, w);
    s := if p.workers[w].Looking? then Pop(w) else Fill(w);
  }

  /** A bound on the steps left: three for a batch that waits, and what each task still has to do. */
  function Remaining<I, T>(p: Pool<I, T>): nat {
    3 * |p.pending| + Unfinished(p.workers)
  }

  function Unfinished<I>(ws: seq<Worker<I>>): nat {
    if ws == [] then 0
    else (match ws[0] case Looking => 1 case Working(_) => 2 case _ => 0) + Unfinished(ws[1..])
  }

  lemma {:induction false} UnfinishedUpdate<I>(ws: seq<Worker<I>>, w: nat, x: Worker<I>)
    requires w < |ws|
    ensures Unfinished(ws[w := x]) == Unfinished(ws) - Unfinished([ws[w]]) + Unfinished([x])
  {
    if w == 0 {
      assert ws[w := x][1..] == ws[1..];
      assert [ws[0]][1..] == [] && [x][1..] == [];
    } else {
      assert ws[w := x][1..] == ws[1..][w - 1 := x];
      UnfinishedUpdate(ws[1..], w - 1, x);
    }
  }

  lemma StepCounts<I, T>(f: I -> T, p: Pool<I, T>, s: Step)
    requires Next(f, p, s).Some?
    ensures Remaining(Next(f, p, s).value) < Remaining(p)
  {
    var q := Next(f, p, s).value;
    UnfinishedUpdate(p.workers, s.w, q.workers[s.w]);
  }

  lemma {:induction false} RunCounts<I, T>(f: I -> T, p: Pool<I, T>, ss: seq<Step>)
    requires Run(f, p, ss).Some?
    ensures |ss| + Remaining(Run(f, p, ss).value) <= Remaining(p)
    decreases |ss|
  {
    hide Next, Remaining;
    if ss != [] {
      StepCounts(f, p, ss[0]);
      RunCounts(f, Next(f, p, ss[0]).value, ss[1..]);
    }
  }

  lemma {:induction false} AllLooking<I>(ws: seq<Worker<I>>)
    requires forall w :: 0 <= w < |ws| ==> ws[w].Looking?
    ensures Unfinished(ws) == |ws|
  {
    if ws != [] {
      AllLooking(ws[1..]);
    }
  }

  /** Under every schedule the tasks make at most three steps a batch and one each, and if none can
      make another then all have joined. */
  lemma EveryRunJoins<I(!new), T(!new)>(f: I -> T, items: seq<I>, size: nat, bs: seq<Batch<I>>, ss: seq<Step>)
    requires Splits(items, size, bs) && Run(f, Start<I, T>(bs), ss).Some?
    ensures |ss| <= 3 * |bs| + (if |bs| < CONCURRENCY then |bs| else CONCURRENCY)
    ensures (forall s :: Next(f, Run(f, Start<I, T>(bs), ss).value, s).None?) ==> Joined(Run(f, Start<I, T>(bs), ss).value)
  {
    hide Inv, Run, Next, Joined, Splits;
    var start := Start<I, T>(bs);
    StartsOk<I, T>(f, items, size, bs);
    EverySchedule(f, bs, start, ss);
    RunCounts(f, start, ss);
    AllLooking(start.workers);
    var p := Run(f, start, ss).value;
    if !Joined(p) {
      var s := SomeTaskGoesOn(f, bs, p);
    }
  }

  // ----- Whether all tasks are busy -----

  function Pops(n: nat): seq<Step> {
    seq(n, w requires 0 <= w < n => Pop(w))
  }

  lemma {:induction false} RunThen<I, T>(f: I -> T, p: Pool<I, T>, ss: seq<Step>, s: Step)
    requires Run(f, p, ss).Some?
    ensures Run(f, p, ss + [s]) == Next(f, Run(f, p, ss).value, s)
    decreases |ss|
  {
    hide Next;
    if ss == [] {
      assert ss + [s] == [s] && [s][1..] == [];
    } else {
      assert (ss + [s])[0] == ss[0] && (ss + [s])[1..] == ss[1..] + [s];
      RunThen(f, Next(f, p, ss[0]).value, ss[1..], s);
    }
  }

  lemma {:induction false} FirstAtWork<I, T>(f: I -> T, bs: seq<Batch<I>>, n: nat)
    requires n <= |bs| && n <= CONCURRENCY
    ensures Run(f, Start<I, T>(bs), Pops(n)).Some?
    ensures var p := Run(f, Start<I, T>(bs), Pops(n)).value;
            && p.pending == bs[n..] && |p.workers| == (if |bs| < CONCURRENCY then |bs| else CONCURRENCY)
            && forall w :: 0 <= w < |p.workers| ==> p.workers[w] == if w < n then Working(bs[w]) else Looking
    decreases n
  {
    if n > 0 {
      FirstAtWork<I, T>(f, bs, n - 1);
      assert Pops(n) == Pops(n - 1) + [Pop(n - 1)];
      RunThen(f, Start<I, T>(bs), Pops(n - 1), Pop(n - 1));
    }
  }

  /** As many tasks as allowed, but no more than there are batches, can all be at work on a batch of their
      own at once. */
  lemma AllAtWork<I, T>(f: I -> T, bs: seq<Batch<I>>) returns (ss: seq<Step>, p: Pool<I, T>)
    ensures Run(f, Start<I, T>(bs), ss) == Some(p) && |p.workers| == if |bs| < CONCURRENCY then |bs| else CONCURRENCY
    ensures forall w :: 0 <= w < |p.workers| ==> p.workers[w] == Working(bs[w])
  {
    var n := if |bs| < CONCURRENCY then |bs| else CONCURRENCY;
    FirstAtWork<I, T>(f, bs, n);
    ss := Pops(n);
    p := Run(f, Start<I, T>(bs), ss).value;
  }

  /** There is a batch for each of the sixteen tasks exactly when sharing the items after the first
      among them leaves a quotient and a remainder of at least fifteen together; short of that, tasks
      are missing although there may be items for them. */
  lemma EveryTaskBusyIff(n: nat)
    ensures BatchCount(n) >= CONCURRENCY <==> n >= 1 && (n - 1) / 16 + (n - 1) % 16 >= 15
  {
    var size := BatchSize(n);
    var count := BatchCount(n);
    Rounded(n, size, count);
    AtLeastSixteen(n, size, count);
    if n >= 1 {
      var q, r := (n - 1) / 16, (n - 1) % 16;
      assert n == 16 * q + r + 1;
      assert (n + 15) / 16 == q + 1;
    }
  }

  lemma Rounded(n: nat, size: nat, count: nat)
    requires size > 0 && count == (n + size - 1) / size
    ensures n <= count * size < n + size
  {
    assert count * size <= n + size - 1 < count * size + size;
  }

  lemma AtLeastSixteen(n: nat, size: nat, count: nat)
    requires size > 0 && n <= count * size < n + size
    ensures count >= 16 <==> n > 15 * size
  {
    if n > 15 * size {
      MulLess(15, count, size);
    } else {
      assert count * size < 16 * size;
      MulLess(count, 16, size);
    }
  }

  /** Seventeen items go to nine tasks, two each but for the last. */
  lemma SeventeenItems()
    ensures BatchSize(17) == 2 && BatchCount(17) == 9
  {
  }
}
