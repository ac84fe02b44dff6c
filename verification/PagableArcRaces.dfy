/** The three windows of the pin/evict protocol: when page-in keeps it safe, and runs showing
    that each window is real. */
module PagableArcRaces {
  import opened Options
  import opened PagableArcSteps

  // ----- Runs in which nothing is overtaken -----

  /** No step of the run overtakes a page-in or a pin. */
  ghost predicate Undisturbed(s: State, sched: seq<Move>)
    decreases |sched|
  {
    sched != [] ==>
      Next(s, sched[0]).Some? && !Overtakes(s, sched[0]) && Undisturbed(Next(s, sched[0]).value, sched[1..])
  }

  lemma {:induction false} UndisturbedRunSafe(s: State, sched: seq<Move>, n: State)
    requires Safe(s) && Undisturbed(s, sched) && Leads(s, sched, n)
    ensures Safe(n)
    decreases |sched|
  {
    hide Safe, Next, Overtakes;
    if sched != [] {
      StepKeepsSafe(s, sched[0]);
      UndisturbedRunSafe(Next(s, sched[0]).value, sched[1..], n);
    }
  }

  /** Over all operations and any threads, page-in and pins of a shared handle included: while no
      step overtakes a page-in or a pin, a positive count means the value is pinned, a paged-out
      value has a key, and no assertion on the count fails. */
  lemma UndisturbedSafe(s: State, owner: Tid, sched: seq<Move>, n: State)
    requires Initial(s, owner) && Undisturbed(s, sched) && Leads(s, sched, n)
    ensures n.sh.count > 0 ==> n.sh.value.Pinned?
    ensures n.sh.value.PagedOut? ==> n.sh.hasKey
    ensures forall m :: Next(n, m).Some? && Next(n, m).value.sh.panicked ==> m.a.Evict?
  {
    hide Next, Leads, Undisturbed;
    InitialSafe(s, owner);
    UndisturbedRunSafe(s, sched, n);
    forall m | Next(n, m).Some? && Next(n, m).value.sh.panicked ensures m.a.Evict? {
      PanicsIff(n, m);
    }
  }

  /** That condition is exact, step by step. An eviction keeps the protocol safe if and only if no
      page-in is in the gap. */
  lemma EvictionSafeIff(s: State, u: Tid)
    requires Safe(s) && Next(s, Move(u, Evict)).Some?
    ensures Safe(Next(s, Move(u, Evict)).value) <==> !InGap(s)
  {
    var m := Move(u, Evict);
    var n := Next(s, m).value;
    if InGap(s) {
      var t: Tid :| s.Pc(t).PageGap?;
      assert ThreadOk(s.sh, t, s.Pc(t));
      assert n.Pc(t) == s.Pc(t);
      assert !ThreadOk(n.sh, t, n.Pc(t));
    } else {
      StepKeepsSafe(s, m);
    }
  }

  /** Counting the pin after the gap keeps it safe if and only if no thread is evicting. */
  lemma GapAddSafeIff(s: State, u: Tid)
    requires Safe(s) && Next(s, Move(u, GapAdd)).Some?
    ensures Safe(Next(s, Move(u, GapAdd)).value) <==> !SomeEvicting(s)
  {
    var m := Move(u, GapAdd);
    var n := Next(s, m).value;
    if SomeEvicting(s) {
      var t: Tid :| s.Pc(t).Evicting?;
      assert ThreadOk(s.sh, t, s.Pc(t));
      assert n.Pc(t) == s.Pc(t);
      assert !ThreadOk(n.sh, t, n.Pc(t));
    } else {
      StepKeepsSafe(s, m);
    }
  }

  /** Releasing the pin of a flag taken back keeps it safe if and only if some flag set or being given
      back has been counted. Taking the flag back does no harm by itself. */
  lemma FlagReleaseSafeIff(s: State, u: Tid)
    requires Safe(s) && Next(s, Move(u, FlagRelease)).Some?
    ensures Safe(Next(s, Move(u, FlagRelease)).value) <==> !AllUncounted(s)
  {
    var m := Move(u, FlagRelease);
    if AllUncounted(s) {
      hide Setters, Takers;
      WhoIsWhere(s, m);
    } else {
      StepKeepsSafe(s, m);
    }
  }

  lemma StepSafeIff(s: State, m: Move)
    requires Safe(s) && Next(s, m).Some?
    ensures Safe(Next(s, m).value) <==> !Overtakes(s, m)
  {
    hide Safe, Next;
    if !Overtakes(s, m) {
      StepKeepsSafe(s, m);
    } else if m.a.Evict? {
      EvictionSafeIff(s, m.t);
    } else if m.a.GapAdd? {
      GapAddSafeIff(s, m.t);
    } else {
      FlagReleaseSafeIff(s, m.t);
    }
  }

  /** A run stays safe throughout if and only if none of its steps overtakes a page-in or a pin. */
  lemma {:induction false} UndisturbedIff(s: State, sched: seq<Move>, n: State)
    requires Safe(s) && Leads(s, sched, n)
    ensures Throughout(s, sched, Safe) <==> Undisturbed(s, sched)
    decreases |sched|
  {
    hide Next, Overtakes;
    if sched != [] {
      var s1 := Next(s, sched[0]).value;
      StepSafeIff(s, sched[0]);
      if Safe(s1) {
        UndisturbedIff(s1, sched[1..], n);
      }
    }
  }

  /** Once a page-in is in the gap while another thread is evicting, either order of the two leaves a
      counted pin without its value. */
  lemma OvertakenPageIn(s: State, t: Tid, u: Tid) returns (n: State, o: State)
    requires Safe(s) && !s.sh.panicked && s.Pc(u).Evicting? && s.Pc(t).PageGap?
    ensures Leads(s, [Move(u, Evict), Move(t, GapAdd)], n)
    ensures n.sh.count > 0 && !n.sh.value.Pinned? && !n.sh.panicked
    ensures Leads(s, [Move(t, GapAdd), Move(u, Evict)], o)
    ensures o.sh.count > 0 && !o.sh.value.Pinned? && !o.sh.panicked
  {
    assert ThreadOk(s.sh, t, s.Pc(t)) && ThreadOk(s.sh, u, s.Pc(u));
    var m := Next(s, Move(u, Evict)).value;
    assert m.Pc(t) == s.Pc(t);
    n := Next(m, Move(t, GapAdd)).value;
    LeadsTwo(s, Move(u, Evict), m, Move(t, GapAdd), n);
    var k := Next(s, Move(t, GapAdd)).value;
    assert k.Pc(u) == s.Pc(u);
    o := Next(k, Move(u, Evict)).value;
    LeadsTwo(s, Move(t, GapAdd), k, Move(u, Evict), o);
  }

  lemma LeadsTwo(s: State, a: Move, m: State, b: Move, n: State)
    requires Next(s, a).Some? && m == Next(s, a).value && Next(m, b).Some? && n == Next(m, b).value
    ensures Leads(s, [a, b], n)
  {
    hide Next;
    assert [a, b][1..] == [b] && [b][1..] == [];
    assert Leads(n, [], n);
    assert Leads(m, [b], n);
  }

  // ----- One thread running on its own -----

  /** Thread `t`, taking the steps `acts` without interruption, gets from (`sh`, `pc`) to
      (`sh2`, `pc2`). */
  ghost predicate Alone(sh: Shared, t: Tid, pc: Pc, acts: seq<Action>, sh2: Shared, pc2: Pc)
    decreases |acts|
  {
    if acts == [] then sh2 == sh && pc2 == pc
    else
      && !sh.panicked && Effect(sh, t, pc, acts[0]).Some?
      && var (n, npc) := Effect(sh, t, pc, acts[0]).value; Alone(n, t, npc, acts[1..], sh2, pc2)
  }

  lemma First(sh: Shared, t: Tid, pc: Pc, a: Action, n: Shared, npc: Pc, rest: seq<Action>, sh2: Shared, pc2: Pc)
    requires !sh.panicked && Effect(sh, t, pc, a) == Some((n, npc)) && Alone(n, t, npc, rest, sh2, pc2)
    ensures Alone(sh, t, pc, [a] + rest, sh2, pc2)
  {
    assert ([a] + rest)[1..] == rest;
  }

  lemma Last(sh: Shared, t: Tid, pc: Pc, a: Action, n: Shared, npc: Pc)
    requires !sh.panicked && Effect(sh, t, pc, a) == Some((n, npc))
    ensures Alone(sh, t, pc, [a], n, npc)
  {
    assert [a][1..] == [];
    assert Alone(n, t, npc, [], n, npc);
  }

  function Moves(t: Tid, acts: seq<Action>): (r: seq<Move>)
    ensures |r| == |acts| && forall i :: 0 <= i < |r| ==> r[i] == Move(t, acts[i])
  {
    seq(|acts|, i requires 0 <= i < |acts| => Move(t, acts[i]))
  }

  lemma {:induction false} AloneLeads(s: State, t: Tid, acts: seq<Action>, sh2: Shared, pc2: Pc) returns (n: State)
    requires Alone(s.sh, t, s.Pc(t), acts, sh2, pc2)
    ensures Leads(s, Moves(t, acts), n) && n.sh == sh2 && n.Pc(t) == pc2
    ensures forall u: Tid :: u != t ==> n.Pc(u) == s.Pc(u)
    decreases |acts|
  {
    hide Effect;
    if acts == [] {
      n := s;
    } else {
      var m := Next(s, Move(t, acts[0])).value;
      assert m.Pc(t) == Effect(s.sh, t, s.Pc(t), acts[0]).value.1;
      n := AloneLeads(m, t, acts[1..], sh2, pc2);
      assert Moves(t, acts)[1..] == Moves(t, acts[1..]);
    }
  }

  /** Appends a stretch in which only `t` runs. */
  lemma Then(start: State, sched: seq<Move>, s: State, t: Tid, acts: seq<Action>, sh2: Shared, pc2: Pc)
    returns (longer: seq<Move>, n: State)
    requires Leads(start, sched, s) && Alone(s.sh, t, s.Pc(t), acts, sh2, pc2)
    ensures longer == sched + Moves(t, acts) && Leads(start, longer, n) && n.sh == sh2 && n.Pc(t) == pc2
    ensures forall u: Tid :: u != t ==> n.Pc(u) == s.Pc(u)
  {
    hide Effect, Next;
    n := AloneLeads(s, t, acts, sh2, pc2);
    longer := sched + Moves(t, acts);
    LeadsConcat(start, sched, s, Moves(t, acts), n);
  }

  lemma LeadsNowhere(s: State)
    ensures Leads(s, [], s)
  {
  }

  // ----- Overlapping keyless releases -----

  predicate KeylessZero(sh: Shared) {
    sh.lock.None? && sh.count == 0 && !sh.hasKey && !sh.panicked
  }

  const RELEASE_END := [Lock, CheckCount, Evict, LeaveLock]
  const RELEASE_PANIC := [Lock, CheckCount, Evict]

  lemma ReleaseUnpins(sh: Shared, t: Tid)
    requires KeylessZero(sh) && sh.value.Pinned?
    ensures Alone(sh, t, ReleaseWait, RELEASE_END, sh.(value := Unpinned), Idle)
  {
    hide Alone;
    var n := sh.(value := Unpinned);
    Last(n.(lock := Some(t)), t, Unlocking, LeaveLock, n, Idle);
    First(sh.(lock := Some(t)), t, Evicting, Evict, n.(lock := Some(t)), Unlocking, [LeaveLock], n, Idle);
    First(sh.(lock := Some(t)), t, ReleaseLocked, CheckCount, sh.(lock := Some(t)), Evicting, [Evict] + [LeaveLock], n, Idle);
    First(sh, t, ReleaseWait, Lock, sh.(lock := Some(t)), ReleaseLocked, [CheckCount] + ([Evict] + [LeaveLock]), n, Idle);
    assert RELEASE_END == [Lock] + ([CheckCount] + ([Evict] + [LeaveLock]));
  }

  lemma ReleasePanics(sh: Shared, t: Tid)
    requires KeylessZero(sh) && sh.value.Unpinned?
    ensures Alone(sh, t, ReleaseWait, RELEASE_PANIC, sh.(lock := Some(t), panicked := true), Evicting)
  {
    hide Alone;
    var l := sh.(lock := Some(t));
    var n := l.(panicked := true);
    Last(l, t, Evicting, Evict, n, Evicting);
    First(l, t, ReleaseLocked, CheckCount, l, Evicting, [Evict], n, Evicting);
    First(sh, t, ReleaseWait, Lock, l, ReleaseLocked, [CheckCount] + [Evict], n, Evicting);
    assert RELEASE_PANIC == [Lock] + ([CheckCount] + [Evict]);
  }

  /** Whenever two keyless releases have both reached zero, one order of their remaining steps
      panics: the first unpins the value and the second finds it unpinned. */
  lemma OverlappingReleasesPanic(s: State, t: Tid, u: Tid) returns (sched: seq<Move>, n: State)
    requires t != u && s.Pc(t).ReleaseWait? && s.Pc(u).ReleaseWait?
    requires KeylessZero(s.sh) && s.sh.value.Pinned?
    ensures AllCore(sched) && Leads(s, sched, n) && n.sh.panicked
  {
    hide Leads, Alone, Effect;
    LeadsNowhere(s);
    ReleaseUnpins(s.sh, t);
    sched, n := Then(s, [], s, t, RELEASE_END, s.sh.(value := Unpinned), Idle);
    ReleasePanics(n.sh, u);
    sched, n := Then(s, sched, n, u, RELEASE_PANIC, n.sh.(lock := Some(u), panicked := true), Evicting);
  }

  const SLOW_ALLOC := [TryAlloc(false), Lock, TryPin, SlowAdd, LeaveLock, Release]

  /** A thread that finds the count at zero, pins the value through the lock, and releases it. */
  lemma PinAndRelease(sh: Shared, t: Tid)
    requires KeylessZero(sh) && !sh.value.PagedOut? && sh.holders == multiset{}
    ensures Alone(sh, t, Idle, SLOW_ALLOC, sh.(value := Pinned), ReleaseWait)
  {
    hide Alone;
    var l := sh.(lock := Some(t));
    var r := sh.(value := Pinned);
    var p := r.(count := 1, holders := multiset{t});
    assert multiset{t} - multiset{t} == multiset{} && multiset{} + multiset{t} == multiset{t};
    assert l.(value := Pinned).TakePin(t) == p.(lock := Some(t));
    Last(p, t, Idle, Release, r, ReleaseWait);
    First(p.(lock := Some(t)), t, Unlocking, LeaveLock, p, Idle, [Release], r, ReleaseWait);
    First(l.(value := Pinned), t, SlowPinned, SlowAdd, p.(lock := Some(t)), Unlocking, [LeaveLock] + [Release], r, ReleaseWait);
    First(l, t, SlowLocked(false), TryPin, l.(value := Pinned), SlowPinned, [SlowAdd] + ([LeaveLock] + [Release]), r, ReleaseWait);
    var rest := [TryPin] + ([SlowAdd] + ([LeaveLock] + [Release]));
    First(sh, t, SlowWait(false), Lock, l, SlowLocked(false), rest, r, ReleaseWait);
    First(sh, t, Idle, TryAlloc(false), sh, SlowWait(false), [Lock] + rest, r, ReleaseWait);
    assert SLOW_ALLOC == [TryAlloc(false)] + ([Lock] + rest);
  }

  /** The documented operations can panic, starting from a fresh allocation. */
  lemma DocumentedOperationsCanPanic() returns (s: State, sched: seq<Move>, n: State)
    ensures Initial(s, 0) && AllCore(sched) && Leads(s, sched, n) && n.sh.panicked
  {
    hide Leads, Alone;
    s := State(Shared(1, None, false, Pinned, false, multiset{0}, false), map[]);
    var zero := Shared(0, None, false, Pinned, false, multiset{}, false);
    LeadsNowhere(s);
    Last(s.sh, 0, Idle, Release, zero, ReleaseWait);
    var first, m := Then(s, [], s, 0, [Release], zero, ReleaseWait);
    PinAndRelease(zero, 1);
    first, m := Then(s, first, m, 1, SLOW_ALLOC, zero, ReleaseWait);
    var second, e := OverlappingReleasesPanic(m, 0, 1);
    LeadsConcat(s, first, m, second, e);
    sched, n := first + second, e;
  }

  // ----- Page-in overtaken by an eviction -----

  predicate Stored(sh: Shared) {
    sh.lock.None? && sh.count == 0 && sh.hasKey && sh.value.PagedOut? && !sh.panicked
  }

  const FETCH := [TryAlloc(true), Lock, TryPin, Lock, PageTryPin, FetchDone]
  const STORE := [Lock, PageStore, PageUnlock]

  /** A page-in up to the point where the value has been fetched but not stored. */
  lemma PageInFetches(sh: Shared, t: Tid)
    requires Stored(sh)
    ensures Alone(sh, t, Idle, FETCH, sh, PageStoreWait)
  {
    hide Alone;
    var l := sh.(lock := Some(t));
    Last(sh, t, PageFetching, FetchDone, sh, PageStoreWait);
    First(l, t, PageLocked, PageTryPin, sh, PageFetching, [FetchDone], sh, PageStoreWait);
    First(sh, t, PageWait, Lock, l, PageLocked, [PageTryPin] + [FetchDone], sh, PageStoreWait);
    var rest := [Lock] + ([PageTryPin] + [FetchDone]);
    First(l, t, SlowLocked(true), TryPin, sh, PageWait, rest, sh, PageStoreWait);
    First(sh, t, SlowWait(true), Lock, l, SlowLocked(true), [TryPin] + rest, sh, PageStoreWait);
    First(sh, t, Idle, TryAlloc(true), sh, SlowWait(true), [Lock] + ([TryPin] + rest), sh, PageStoreWait);
    assert FETCH == [TryAlloc(true)] + ([Lock] + ([TryPin] + rest));
  }

  /** Storing a fetched value and dropping the lock. */
  lemma PageInStores(sh: Shared, t: Tid)
    requires sh.lock.None? && !sh.panicked
    ensures Alone(sh, t, PageStoreWait, STORE, sh.(value := Pinned), PageGap)
  {
    hide Alone;
    var l := sh.(lock := Some(t));
    var n := sh.(value := Pinned);
    Last(n.(lock := Some(t)), t, PageStored, PageUnlock, n, PageGap);
    First(l, t, PageStoring, PageStore, n.(lock := Some(t)), PageStored, [PageUnlock], n, PageGap);
    First(sh, t, PageStoreWait, Lock, l, PageStoring, [PageStore] + [PageUnlock], n, PageGap);
    assert STORE == [Lock] + ([PageStore] + [PageUnlock]);
  }

  ghost predicate NoFlags(sched: seq<Move>) {
    forall m :: m in sched ==> !IsFlag(m.a)
  }

  /** A paged-out allocation and, in turn, the shared states of the run below. */
  function Out(): Shared {
    Shared(0, None, true, PagedOut, false, multiset{}, false)
  }

  /** From a paged-out allocation: two page-ins, one of which releases its pin just before the
      other counts its own, leave a counted pin on a paged-out value. */
  lemma PageInGapReachable() returns (s: State, sched: seq<Move>, n: State)
    ensures Initial(s, 0) && NoFlags(sched) && Leads(s, sched, n)
    ensures n.sh.count > 0 && n.sh.value.PagedOut?
  {
    hide Leads, Alone;
    s := State(Out(), map[]);
    var a, m := BothFetched(s);
    var stored := Out().(value := Pinned);
    PageInStores(Out(), 1);
    a, m := Then(s, a, m, 1, STORE, stored, PageGap);
    CountThenRelease(1);
    a, m := Then(s, a, m, 1, [GapAdd] + [Release], stored, ReleaseWait);
    PageInStores(stored, 2);
    a, m := Then(s, a, m, 2, STORE, stored, PageGap);
    ReleasePagesOut(1);
    a, m := Then(s, a, m, 1, [Lock] + ([CheckCount] + [Evict]), Out().(lock := Some(1)), Unlocking);
    Last(m.sh, 2, PageGap, GapAdd, m.sh.TakePin(2), Idle);
    sched, n := Then(s, a, m, 2, [GapAdd], m.sh.TakePin(2), Idle);
  }

  lemma BothFetched(s: State) returns (sched: seq<Move>, n: State)
    requires s == State(Out(), map[])
    ensures NoFlags(sched) && Leads(s, sched, n)
    ensures n.sh == Out() && n.Pc(1) == PageStoreWait && n.Pc(2) == PageStoreWait
  {
    hide Leads, Alone, Effect;
    LeadsNowhere(s);
    PageInFetches(Out(), 1);
    sched, n := Then(s, [], s, 1, FETCH, Out(), PageStoreWait);
    PageInFetches(Out(), 2);
    sched, n := Then(s, sched, n, 2, FETCH, Out(), PageStoreWait);
  }

  lemma CountThenRelease(t: Tid)
    ensures var sh := Out().(value := Pinned); Alone(sh, t, PageGap, [GapAdd] + [Release], sh, ReleaseWait)
  {
    hide Alone;
    var sh := Out().(value := Pinned);
    assert multiset{t} - multiset{t} == multiset{};
    Last(sh.TakePin(t), t, Idle, Release, sh, ReleaseWait);
    First(sh, t, PageGap, GapAdd, sh.TakePin(t), Idle, [Release], sh, ReleaseWait);
  }

  lemma ReleasePagesOut(t: Tid)
    ensures Alone(Out().(value := Pinned), t, ReleaseWait, [Lock] + ([CheckCount] + [Evict]),
                  Out().(lock := Some(t)), Unlocking)
  {
    hide Alone;
    var l := Out().(value := Pinned, lock := Some(t));
    var n := Out().(lock := Some(t));
    Last(l, t, Evicting, Evict, n, Unlocking);
    First(l, t, ReleaseLocked, CheckCount, l, Evicting, [Evict], n, Unlocking);
    First(Out().(value := Pinned), t, ReleaseWait, Lock, l, ReleaseLocked, [CheckCount] + [Evict], n, Unlocking);
  }

  // ----- A flag set before its pin is counted -----

  /** A thread that has set the flag and not counted it, with the only pin there is: what `pin` passes
      through after paging a value in. */
  lemma FlagWindowReachable() returns (s: State, sched: seq<Move>, n: State)
    ensures Initial(s, 0) && Leads(s, sched, n)
    ensures n.Pc(1).FlagSet? && n.sh.holders == multiset{1} && n.sh.flag && n.sh.count == 1 && !n.sh.panicked
  {
    hide Leads, Alone;
    s := State(Out(), map[]);
    LeadsNowhere(s);
    PageInFetches(Out(), 1);
    sched, n := Then(s, [], s, 1, FETCH, Out(), PageStoreWait);
    var stored := Out().(value := Pinned);
    PageInStores(Out(), 1);
    sched, n := Then(s, sched, n, 1, STORE, stored, PageGap);
    Last(stored, 1, PageGap, GapAdd, stored.TakePin(1), Idle);
    sched, n := Then(s, sched, n, 1, [GapAdd], stored.TakePin(1), Idle);
    Last(n.sh, 1, Idle, SetFlag, n.sh.(flag := true), FlagSet);
    sched, n := Then(s, sched, n, 1, [SetFlag], n.sh.(flag := true), FlagSet);
  }
}
