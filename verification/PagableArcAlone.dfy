/** Each operation of the interleaved protocol, when no other thread gets in between, does to the
    allocation exactly what the completed operation does. */
module PagableArcAlone {
  import opened Options
  import opened PagableArcSteps
  import opened PagableArcRaces
  import Spec = PagableArc

  /** The shared state without the contents of the value. */
  ghost predicate Matches<T>(sh: Shared, i: Spec.Inner<T>) {
    && sh.count == i.count && (sh.hasKey <==> i.key.Some?)
    && (sh.value.Pinned? <==> i.value.Pinned?) && (sh.value.PagedOut? <==> i.value.PagedOut?)
  }

  predicate Quiet(sh: Shared) {
    sh.lock.None? && !sh.panicked
  }

  /** Left to itself after `first`, `t` gets through its operation and leaves `n`. */
  ghost predicate Performs(sh: Shared, t: Tid, first: Action, n: Shared) {
    exists acts: seq<Action> :: acts != [] && acts[0] == first && Alone(sh, t, Idle, acts, n, Idle)
  }

  /** A thread within an operation has one way on, but for what storage answers. */
  lemma OneWayOn(sh: Shared, t: Tid, pc: Pc, a: Action, b: Action)
    requires pc != Idle && pc != PageFetching && Effect(sh, t, pc, a).Some? && Effect(sh, t, pc, b).Some?
    ensures a == b
  {
  }

  lemma PerformsOne(sh: Shared, t: Tid, a: Action, n: Shared)
    requires !sh.panicked && Effect(sh, t, Idle, a) == Some((n, Idle))
    ensures Performs(sh, t, a, n)
  {
    Last(sh, t, Idle, a, n, Idle);
    assert [a][0] == a;
  }

  lemma PerformsThen(sh: Shared, t: Tid, a: Action, m: Shared, pc: Pc, rest: seq<Action>, n: Shared)
    requires !sh.panicked && Effect(sh, t, Idle, a) == Some((m, pc)) && Alone(m, t, pc, rest, n, Idle)
    ensures Performs(sh, t, a, n)
  {
    First(sh, t, Idle, a, m, pc, rest, n, Idle);
    assert ([a] + rest)[0] == a;
  }

  lemma {:induction false} AloneJoins(sh: Shared, t: Tid, pc: Pc, a: seq<Action>, m: Shared, mpc: Pc, b: seq<Action>, n: Shared, npc: Pc)
    requires Alone(sh, t, pc, a, m, mpc) && Alone(m, t, mpc, b, n, npc)
    ensures Alone(sh, t, pc, a + b, n, npc)
    decreases |a|
  {
    hide Effect;
    if a == [] {
      assert a + b == b;
    } else {
      var (sh1, pc1) := Effect(sh, t, pc, a[0]).value;
      AloneJoins(sh1, t, pc1, a[1..], m, mpc, b, n, npc);
      assert (a + b)[0] == a[0] && (a + b)[1..] == a[1..] + b;
    }
  }

  // ----- Taking a pin -----

  /** The slow way to a pin on a value that is in memory. */
  lemma SlowPin(sh: Shared, t: Tid, paging: bool)
    requires Quiet(sh) && !sh.value.PagedOut?
    ensures Alone(sh, t, SlowWait(paging), [Lock] + ([TryPin] + ([SlowAdd] + [LeaveLock])), sh.(value := Pinned).TakePin(t), Idle)
  {
    hide Alone;
    var l, n := sh.(lock := Some(t)), sh.(value := Pinned).TakePin(t);
    Last(n.(lock := Some(t)), t, Unlocking, LeaveLock, n, Idle);
    First(l.(value := Pinned), t, SlowPinned, SlowAdd, n.(lock := Some(t)), Unlocking, [LeaveLock], n, Idle);
    First(l, t, SlowLocked(paging), TryPin, l.(value := Pinned), SlowPinned, [SlowAdd] + [LeaveLock], n, Idle);
    First(sh, t, SlowWait(paging), Lock, l, SlowLocked(paging), [TryPin] + ([SlowAdd] + [LeaveLock]), n, Idle);
  }

  lemma SlowMiss(sh: Shared, t: Tid, paging: bool)
    requires Quiet(sh) && sh.value.PagedOut?
    ensures Alone(sh, t, SlowWait(paging), [Lock] + [TryPin], sh, if paging then PageWait else Idle)
  {
    hide Alone;
    var l := sh.(lock := Some(t));
    var end := if paging then PageWait else Idle;
    Last(l, t, SlowLocked(paging), TryPin, sh, end);
    First(sh, t, SlowWait(paging), Lock, l, SlowLocked(paging), [TryPin], sh, end);
  }

  /** `try_alloc_pinned` on its own. */
  lemma TryAllocAlone<T>(sh: Shared, i: Spec.Inner<T>, t: Tid) returns (n: Shared)
    requires Quiet(sh) && Matches(sh, i)
    ensures Performs(sh, t, TryAlloc(false), n) && Quiet(n) && Matches(n, Spec.TryAllocPinned(i).1)
    ensures n.holders == if Spec.TryAllocPinned(i).0 then sh.holders + multiset{t} else sh.holders
  {
    hide Alone, Performs;
    if sh.count != 0 {
      n := sh.TakePin(t);
      PerformsOne(sh, t, TryAlloc(false), n);
    } else if sh.value.PagedOut? {
      n := sh;
      SlowMiss(sh, t, false);
      PerformsThen(sh, t, TryAlloc(false), sh, SlowWait(false), [Lock] + [TryPin], n);
    } else {
      n := sh.(value := Pinned).TakePin(t);
      SlowPin(sh, t, false);
      PerformsThen(sh, t, TryAlloc(false), sh, SlowWait(false), [Lock] + ([TryPin] + ([SlowAdd] + [LeaveLock])), n);
    }
  }

  /** Asking storage for a value that is paged out. */
  lemma FetchAlone(sh: Shared, t: Tid, answer: Action, end: Pc)
    requires Quiet(sh) && sh.value.PagedOut? && sh.hasKey
    requires (answer == FetchDone && end == PageStoreWait) || (answer == FetchFails && end == Idle)
    ensures Alone(sh, t, PageWait, [Lock] + ([PageTryPin] + [answer]), sh, end)
  {
    hide Alone;
    var l := sh.(lock := Some(t));
    Last(sh, t, PageFetching, answer, sh, end);
    First(l, t, PageLocked, PageTryPin, sh, PageFetching, [answer], sh, end);
    First(sh, t, PageWait, Lock, l, PageLocked, [PageTryPin] + [answer], sh, end);
  }

  /** Storing what came and counting the pin. */
  lemma StoreAlone(sh: Shared, t: Tid)
    requires Quiet(sh)
    ensures Alone(sh, t, PageStoreWait, STORE + [GapAdd], sh.(value := Pinned).TakePin(t), Idle)
  {
    hide Alone;
    var n := sh.(value := Pinned);
    PageInStores(sh, t);
    Last(n, t, PageGap, GapAdd, n.TakePin(t), Idle);
    AloneJoins(sh, t, PageStoreWait, STORE, n, PageGap, [GapAdd], n.TakePin(t), Idle);
  }

  /** `alloc_pinned_async` on its own, whether storage has the value or not. */
  lemma AllocAlone<T>(sh: Shared, i: Spec.Inner<T>, storage: map<Spec.Key, T>, t: Tid) returns (n: Shared)
    requires Quiet(sh) && Matches(sh, i) && !Spec.AllocPinned(i, storage).Panicked?
    ensures Performs(sh, t, TryAlloc(true), n) && Quiet(n)
    ensures match Spec.AllocPinned(i, storage)
            case Done(j) => Matches(n, j) && n.holders == sh.holders + multiset{t}
            case Failed => n == sh
  {
    hide Alone, Performs;
    var stored := i.key.Some? && i.key.value in storage;
    if sh.count != 0 {
      n := sh.TakePin(t);
      PerformsOne(sh, t, TryAlloc(true), n);
    } else if !sh.value.PagedOut? {
      n := sh.(value := Pinned).TakePin(t);
      SlowPin(sh, t, true);
      PerformsThen(sh, t, TryAlloc(true), sh, SlowWait(true), [Lock] + ([TryPin] + ([SlowAdd] + [LeaveLock])), n);
    } else {
      SlowMiss(sh, t, true);
      var miss := [Lock] + [TryPin];
      if stored {
        n := sh.(value := Pinned).TakePin(t);
        var fetch, store := [Lock] + ([PageTryPin] + [FetchDone]), STORE + [GapAdd];
        FetchAlone(sh, t, FetchDone, PageStoreWait);
        StoreAlone(sh, t);
        AloneJoins(sh, t, SlowWait(true), miss, sh, PageWait, fetch, sh, PageStoreWait);
        AloneJoins(sh, t, SlowWait(true), miss + fetch, sh, PageStoreWait, store, n, Idle);
        PerformsThen(sh, t, TryAlloc(true), sh, SlowWait(true), miss + fetch + store, n);
      } else {
        n := sh;
        var fetch := [Lock] + ([PageTryPin] + [FetchFails]);
        FetchAlone(sh, t, FetchFails, Idle);
        AloneJoins(sh, t, SlowWait(true), miss, sh, PageWait, fetch, sh, Idle);
        PerformsThen(sh, t, TryAlloc(true), sh, SlowWait(true), miss + fetch, n);
      }
    }
  }

  /** `add_pinned_unchecked` by the owner of a pin. */
  lemma AddAlone<T>(sh: Shared, i: Spec.Inner<T>, t: Tid) returns (n: Shared)
    requires Quiet(sh) && Matches(sh, i) && t in sh.holders && !Spec.AddPinnedUnchecked(i).Panicked?
    ensures Performs(sh, t, AddPinned, n) && Quiet(n) && Matches(n, Spec.AddPinnedUnchecked(i).result)
    ensures n.holders == sh.holders + multiset{t}
  {
    n := sh.TakePin(t);
    PerformsOne(sh, t, AddPinned, n);
  }

  // ----- Giving it back -----

  /** What the last release does once the count is zero. */
  lemma LastRelease(sh: Shared, t: Tid)
    requires Quiet(sh) && sh.count == 0 && (sh.hasKey || sh.value.Pinned?)
    ensures Alone(sh, t, ReleaseWait, RELEASE_END, sh.(value := if sh.hasKey then PagedOut else Unpinned), Idle)
  {
    hide Alone;
    var l, n := sh.(lock := Some(t)), sh.(value := if sh.hasKey then PagedOut else Unpinned);
    Last(n.(lock := Some(t)), t, Unlocking, LeaveLock, n, Idle);
    First(l, t, Evicting, Evict, n.(lock := Some(t)), Unlocking, [LeaveLock], n, Idle);
    First(l, t, ReleaseLocked, CheckCount, l, Evicting, [Evict] + [LeaveLock], n, Idle);
    First(sh, t, ReleaseWait, Lock, l, ReleaseLocked, [CheckCount] + ([Evict] + [LeaveLock]), n, Idle);
    assert RELEASE_END == [Lock] + ([CheckCount] + ([Evict] + [LeaveLock]));
  }

  /** `release_pin` on its own, down to where the last pin leaves the value. */
  lemma ReleaseAlone<T>(sh: Shared, i: Spec.Inner<T>, t: Tid) returns (n: Shared)
    requires Quiet(sh) && Matches(sh, i) && t in sh.holders && !Spec.ReleasePin(i).Panicked?
    ensures Performs(sh, t, Release, n) && Quiet(n) && Matches(n, Spec.ReleasePin(i).result)
    ensures n.holders == sh.holders - multiset{t}
  {
    hide Alone, Performs;
    var m := sh.(count := sh.count - 1, holders := sh.holders - multiset{t});
    if sh.count == 1 {
      n := m.(value := if sh.hasKey then PagedOut else Unpinned);
      LastRelease(m, t);
      PerformsThen(sh, t, Release, m, ReleaseWait, RELEASE_END, n);
    } else {
      n := m;
      PerformsOne(sh, t, Release, n);
    }
  }

  // ----- The key and the flag -----

  /** `set_data_key` on its own. */
  lemma SetKeyAlone<T>(sh: Shared, i: Spec.Inner<T>, key: Spec.Key, t: Tid) returns (n: Shared)
    requires Quiet(sh) && Matches(sh, i)
    ensures Performs(sh, t, KeyLock, n) && Quiet(n) && Matches(n, Spec.SetDataKey(i, key)) && n.holders == sh.holders
  {
    hide Alone, Performs;
    var l := sh.(lock := Some(t));
    n := sh.(hasKey := true, value := if sh.value.Pinned? then Pinned else PagedOut);
    Last(n.(lock := Some(t)), t, Unlocking, LeaveLock, n, Idle);
    First(l, t, KeyLocked, SetKey, n.(lock := Some(t)), Unlocking, [LeaveLock], n, Idle);
    PerformsThen(sh, t, KeyLock, l, KeyLocked, [SetKey] + [LeaveLock], n);
  }

  /** The rest of `pin` after it took its own pin: an unset flag is set and counted. */
  lemma SetFlagAlone<T>(sh: Shared, i: Spec.Inner<T>, t: Tid) returns (n: Shared)
    requires Quiet(sh) && Matches(sh, i) && t in sh.holders && i.count >= 1
    ensures Performs(sh, t, SetFlag, n) && Quiet(n) && n.flag && n.holders == sh.holders
    ensures Matches(n, if sh.flag then i else Spec.AddPinnedUnchecked(i).result)
  {
    hide Alone, Performs;
    if sh.flag {
      n := sh;
      PerformsOne(sh, t, SetFlag, n);
    } else {
      n := sh.(flag := true, count := sh.count + 1);
      Last(sh.(flag := true), t, FlagSet, FlagAdd, n, Idle);
      PerformsThen(sh, t, SetFlag, sh.(flag := true), FlagSet, [FlagAdd], n);
    }
  }

  /** `unpin` on its own: a set flag is taken back and its pin released. */
  lemma TakeFlagAlone<T>(sh: Shared, i: Spec.Inner<T>, t: Tid) returns (n: Shared)
    requires Quiet(sh) && Matches(sh, i) && (sh.flag ==> !Spec.ReleasePin(i).Panicked?)
    ensures Performs(sh, t, TakeFlag, n) && Quiet(n) && !n.flag && n.holders == sh.holders
    ensures Matches(n, if sh.flag then Spec.ReleasePin(i).result else i)
  {
    hide Alone, Performs;
    if !sh.flag {
      n := sh;
      PerformsOne(sh, t, TakeFlag, n);
    } else {
      var f := sh.(flag := false);
      var m := f.(count := sh.count - 1);
      if sh.count == 1 {
        n := m.(value := if sh.hasKey then PagedOut else Unpinned);
        LastRelease(m, t);
        First(f, t, FlagTaken, FlagRelease, m, ReleaseWait, RELEASE_END, n, Idle);
        PerformsThen(sh, t, TakeFlag, f, FlagTaken, [FlagRelease] + RELEASE_END, n);
      } else {
        n := m;
        Last(f, t, FlagTaken, FlagRelease, n, Idle);
        PerformsThen(sh, t, TakeFlag, f, FlagTaken, [FlagRelease], n);
      }
    }
  }
}
