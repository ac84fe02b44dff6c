/** How far the two failures of the pin/evict protocol reach: which pins of a shared handle can fail
    their assertion, and from which states the documented operations can panic. Both come down to
    letting every other thread finish first. */
module PagableArcFailures {
  import opened Options
  import opened PagableArcSteps
  import opened PagableArcRaces

  // ----- Letting a thread finish -----

  /** What a thread in the middle of an operation does to end it. */
  function Onward(pc: Pc): Action {
    match pc
    case SlowLocked(_) => TryPin
    case SlowPinned => SlowAdd
    case ReleaseLocked => CheckCount
    case Evicting => Evict
    case KeyLocked => SetKey
    case PageLocked => PageTryPin
    case PageResident => PageAddLocked
    case PageFetching => FetchFails
    case PageStoring => PageStore
    case PageStored => PageUnlock
    case PageGap => GapAdd
    case FlagSet => FlagAdd
    case FlagTaken => FlagRelease
    case Unlocking => LeaveLock
    case _ => Lock
  }

  function StepsLeft(pc: Pc): nat {
    match pc
    case Idle => 0
    case FlagSet => 1
    case Unlocking => 1
    case PageFetching => 1
    case PageGap => 1
    case SlowPinned => 2
    case Evicting => 2
    case KeyLocked => 2
    case PageResident => 2
    case PageStored => 2
    case ReleaseLocked => 3
    case PageLocked => 3
    case PageStoring => 3
    case FlagTaken => 5
    case SlowLocked(_) => 5
    case SlowWait(_) => 6
    case _ => 4
  }

  predicate LockFor(sh: Shared, t: Tid) {
    sh.lock.None? || sh.lock == Some(t)
  }

  lemma OnwardEffect(sh: Shared, t: Tid, pc: Pc)
    requires ResidencyOk(sh) && ThreadOk(sh, t, pc) && LockFor(sh, t) && pc != Idle
    requires sh.count >= 1 || CoreOk(pc)
    ensures Effect(sh, t, pc, Onward(pc)).Some?
    ensures var (n, npc) := Effect(sh, t, pc, Onward(pc)).value;
            && LockFor(n, t) && (n.hasKey <==> sh.hasKey || pc.KeyLocked?) && !npc.KeyLocked?
            && (n.holders == sh.holders || n.holders == sh.holders + multiset{t}) && n.flag == sh.flag
            && (n.panicked || StepsLeft(npc) < StepsLeft(pc))
            && (n.panicked && !sh.panicked ==> sh.count < 1) && (sh.count >= 1 ==> n.count >= 0)
    ensures CoreOk(pc) ==> IsCore(Onward(pc)) && CoreOk(Effect(sh, t, pc, Onward(pc)).value.1)
  {
  }

  /** Only documented operations are under way. */
  ghost predicate OnlyCore(s: State) {
    forall t: Tid :: CoreOk(s.Pc(t))
  }

  /** All threads can be let finish: some pin is counted, so that nobody is evicting, or only
      documented operations are under way. */
  ghost predicate Steady(s: State) {
    Balanced(s) && !s.sh.panicked && (s.sh.count >= 1 || OnlyCore(s))
  }

  /** Why finishing stops early: an eviction panicked, or the last counted pin is gone. */
  ghost predicate Stopped(s: State, n: State) {
    if OnlyCore(s) then n.sh.panicked else !n.sh.panicked && n.sh.count == 0
  }

  /** `sched` leads from `s` to `n` by ending operations of threads outside `frozen`. */
  ghost predicate Follows(s: State, sched: seq<Move>, n: State, frozen: set<Tid>) {
    && Leads(s, sched, n) && (Steady(n) || Stopped(s, n)) && n.sh.flag == s.sh.flag
    && (forall m :: m in sched ==> m.t !in frozen)
    && (forall t :: t in frozen ==> n.Pc(t) == s.Pc(t) && n.sh.holders[t] == s.sh.holders[t])
    && (OnlyCore(s) ==> AllCore(sched) && OnlyCore(n))
    && (Keyless(s) ==> Keyless(n))
  }

  lemma SteadyThread(s: State, t: Tid)
    requires Steady(s)
    ensures ThreadOk(s.sh, t, s.Pc(t)) && (s.sh.count >= 1 || CoreOk(s.Pc(t)))
    ensures t in s.sh.holders || s.Pc(t).FlagTaken? ==> s.sh.count >= 1
    ensures (s.Pc(t).PageGap? ==> s.sh.count >= 1) && (s.Pc(t).Evicting? ==> s.sh.count == 0)
  {
    assert ThreadOk(s.sh, t, s.Pc(t));
    if OnlyCore(s) {
      OnlyCoreCount(s);
      if t in s.sh.holders {
        Removed(s.sh.holders, t);
      }
    }
  }

  lemma OnlyCoreCount(s: State)
    requires OnlyCore(s)
    ensures Setters(s) == {} && Takers(s) == {}
  {
    forall t | t in s.pcs ensures CoreOk(s.pcs[t]) {
      assert s.Pc(t) == s.pcs[t];
    }
  }

  lemma OnwardStep(s: State, t: Tid)
    requires Steady(s) && s.Pc(t) != Idle && LockFor(s.sh, t)
    ensures var m := Move(t, Onward(s.Pc(t)));
            && Next(s, m).Some?
            && var n := Next(s, m).value;
               && (Steady(n) || Stopped(s, n)) && LockFor(n.sh, t) && n.sh.flag == s.sh.flag
               && (Steady(n) ==> StepsLeft(n.Pc(t)) < StepsLeft(s.Pc(t)))
               && (forall u: Tid :: u != t ==> n.Pc(u) == s.Pc(u) && n.sh.holders[u] == s.sh.holders[u])
               && (OnlyCore(s) ==> IsCore(m.a) && OnlyCore(n))
               && (Keyless(s) ==> Keyless(n))
  {
    hide Effect, ThreadOk, CoreOk, Balanced;
    var m := Move(t, Onward(s.Pc(t)));
    forall u: Tid
      ensures (s.Pc(u).PageGap? ==> s.sh.count >= 1) && (s.Pc(u).Evicting? ==> s.sh.count == 0)
    {
      SteadyThread(s, u);
    }
    SteadyThread(s, t);
    BalancedResidency(s);
    OnwardEffect(s.sh, t, s.Pc(t));
    var n := Next(s, m).value;
    assert forall u: Tid :: u != t ==> n.Pc(u) == s.Pc(u);
    StepKeepsBalanced(s, m);
  }

  lemma BalancedResidency(s: State)
    requires Balanced(s)
    ensures ResidencyOk(s.sh)
  {
  }

  lemma LeadsOne(s: State, m: Move, n: State)
    requires Next(s, m).Some? && n == Next(s, m).value
    ensures Leads(s, [m], n)
  {
    hide Next;
    assert [m][1..] == [];
    assert Leads(n, [], n);
  }

  lemma FollowsSelf(s: State, frozen: set<Tid>)
    requires Steady(s)
    ensures Follows(s, [], s, frozen)
  {
  }

  lemma FollowsStep(s: State, t: Tid, frozen: set<Tid>) returns (n: State)
    requires Steady(s) && s.Pc(t) != Idle && LockFor(s.sh, t) && t !in frozen
    ensures Follows(s, [Move(t, Onward(s.Pc(t)))], n, frozen) && LockFor(n.sh, t)
    ensures Steady(n) ==> StepsLeft(n.Pc(t)) < StepsLeft(s.Pc(t))
    ensures forall u: Tid :: u != t ==> n.Pc(u) == s.Pc(u)
  {
    OnwardStep(s, t);
    hide Steady, OnlyCore, Keyless, Effect, Stopped;
    var m := Move(t, Onward(s.Pc(t)));
    n := Next(s, m).value;
    LeadsOne(s, m, n);
  }

  lemma FollowsOn(s: State, a: seq<Move>, m: State, b: seq<Move>, n: State, frozen: set<Tid>)
    requires Follows(s, a, m, frozen) && Steady(m) && Follows(m, b, n, frozen)
    requires OnlyCore(m) ==> OnlyCore(s)
    ensures Follows(s, a + b, n, frozen)
  {
    hide Steady, OnlyCore, Keyless, Leads;
    LeadsConcat(s, a, m, b, n);
  }

  // ----- Letting every thread finish -----

  /** A thread that has the lock, or finds it free, ends its operation. */
  lemma {:induction false} Finish(s: State, t: Tid, frozen: set<Tid>) returns (sched: seq<Move>, n: State)
    requires Steady(s) && LockFor(s.sh, t) && t !in frozen && (OnlyCore(s) || Frozen(s, frozen))
    ensures Follows(s, sched, n, frozen)
    ensures Steady(n) ==> n.Pc(t) == Idle
    ensures forall u: Tid :: u != t ==> n.Pc(u) == s.Pc(u)
    decreases StepsLeft(s.Pc(t))
  {
    hide Steady, Follows, OnlyCore;
    if s.Pc(t) == Idle {
      sched, n := [], s;
      FollowsSelf(s, frozen);
    } else {
      var m := FollowsStep(s, t, frozen);
      var first := [Move(t, Onward(s.Pc(t)))];
      if Steady(m) {
        StillFrozen(s, first, m, frozen);
        sched, n := Finish(m, t, frozen);
        FollowsOn(s, first, m, sched, n, frozen);
        sched := first + sched;
      } else {
        sched, n := first, m;
      }
    }
  }

  /** Some thread that stays where it is is in the middle of more than a documented operation. */
  ghost predicate Frozen(s: State, frozen: set<Tid>) {
    exists t :: t in frozen && !CoreOk(s.Pc(t))
  }

  lemma StillFrozen(s: State, sched: seq<Move>, n: State, frozen: set<Tid>)
    requires Follows(s, sched, n, frozen) && (OnlyCore(s) || Frozen(s, frozen))
    ensures (OnlyCore(n) || Frozen(n, frozen)) && (OnlyCore(n) ==> OnlyCore(s))
  {
    if Frozen(s, frozen) {
      var t :| t in frozen && !CoreOk(s.Pc(t));
      assert n.Pc(t) == s.Pc(t);
    }
  }

  /** The threads outside `frozen` in the middle of something. */
  ghost function Busy(s: State, frozen: set<Tid>): set<Tid> {
    set t | t in s.pcs && s.pcs[t] != Idle && t !in frozen
  }

  ghost predicate IdleBut(s: State, frozen: set<Tid>) {
    forall t: Tid :: t !in frozen ==> s.Pc(t) == Idle
  }

  /** The thread to finish next: the owner of the lock if there is one. */
  lemma NextToFinish(s: State, frozen: set<Tid>) returns (t: Tid)
    requires Steady(s) && Busy(s, frozen) != {} && (forall u :: u in frozen ==> !HoldsLock(s.Pc(u)))
    ensures t in Busy(s, frozen) && LockFor(s.sh, t)
  {
    if s.sh.lock.Some? {
      t := s.sh.lock.value;
      assert ThreadOk(s.sh, t, s.Pc(t));
    } else {
      t :| t in Busy(s, frozen);
    }
  }

  lemma NobodyBusy(s: State, frozen: set<Tid>)
    requires Busy(s, frozen) == {}
    ensures IdleBut(s, frozen)
  {
    forall t: Tid | t !in frozen ensures s.Pc(t) == Idle {
      assert t !in Busy(s, frozen);
    }
  }

  /** All operations under way end but those of `frozen`, unless an eviction panics or the last
      counted pin goes on the way. */
  lemma {:induction false} FinishAll(s: State, frozen: set<Tid>) returns (sched: seq<Move>, n: State)
    requires Steady(s) && (OnlyCore(s) || Frozen(s, frozen)) && (forall u :: u in frozen ==> !HoldsLock(s.Pc(u)))
    ensures Follows(s, sched, n, frozen) && (Steady(n) ==> IdleBut(n, frozen))
    decreases |Busy(s, frozen)|
  {
    hide Steady, Follows, Keyless, OnlyCore, Frozen;
    if Busy(s, frozen) == {} {
      sched, n := [], s;
      FollowsSelf(s, frozen);
      NobodyBusy(s, frozen);
    } else {
      var t := NextToFinish(s, frozen);
      var first, m := Finish(s, t, frozen);
      if Steady(m) {
        StillFrozen(s, first, m, frozen);
        FewerBusy(s, m, t, frozen);
        sched, n := FinishAll(m, frozen);
        FollowsOn(s, first, m, sched, n, frozen);
        sched := first + sched;
      } else {
        sched, n := first, m;
      }
    }
  }

  lemma FewerBusy(s: State, n: State, t: Tid, frozen: set<Tid>)
    requires t in Busy(s, frozen) && n.Pc(t) == Idle && forall u: Tid :: u != t ==> n.Pc(u) == s.Pc(u)
    ensures |Busy(n, frozen)| < |Busy(s, frozen)|
  {
    forall u | u in Busy(n, frozen) ensures u in Busy(s, frozen) - {t} {
      assert n.Pc(u) != Idle;
    }
    Smaller(Busy(n, frozen), Busy(s, frozen) - {t});
  }

  lemma {:induction false} Smaller(a: set<Tid>, b: set<Tid>)
    requires a <= b
    ensures |a| <= |b|
    decreases a
  {
    if a != {} {
      var x :| x in a;
      Smaller(a - {x}, b - {x});
    }
  }

  // ----- Which pins can fail -----

  /** Without another step of `t`, the run comes to where the assertion of `add_pinned_unchecked` in
      the pending `pin` of `t` fails. */
  ghost predicate FailsAfter(s: State, sched: seq<Move>, t: Tid) {
    && (forall m :: m in sched ==> m.t != t)
    && exists n: State :: Leads(s, sched, n) && Fails(n, t)
  }

  ghost predicate Fails(n: State, t: Tid) {
    Next(n, Move(t, FlagAdd)).Some? && Next(n, Move(t, FlagAdd)).value.sh.panicked
  }

  ghost predicate CanFail(s: State, t: Tid) {
    exists sched :: FailsAfter(s, sched, t)
  }

  lemma FailsLater(s: State, a: seq<Move>, m: State, t: Tid)
    requires Leads(s, a, m) && (forall k :: k in a ==> k.t != t) && CanFail(m, t)
    ensures CanFail(s, t)
  {
    hide Leads, Fails;
    var b :| FailsAfter(m, b, t);
    var n: State :| Leads(m, b, n) && Fails(n, t);
    LeadsConcat(s, a, m, b, n);
    assert FailsAfter(s, a + b, t);
  }

  lemma FailsAtOnce(s: State, t: Tid)
    requires s.Pc(t).FlagSet? && s.sh.count < 1 && !s.sh.panicked
    ensures CanFail(s, t)
  {
    LeadsNowhere(s);
    assert Fails(s, t);
    assert FailsAfter(s, [], t);
  }

  /** A pending `pin` of `t` owns one pin, and `t` alone is in the middle of something. */
  ghost predicate LonePin(s: State, t: Tid) {
    Steady(s) && IdleBut(s, {t}) && s.Pc(t).FlagSet? && s.sh.holders[t] == 1
  }

  lemma AloneSets(s: State, t: Tid)
    requires LonePin(s, t)
    ensures Setters(s) == {t} && Takers(s) == {} && s.sh.count >= 1 && s.sh.count == |s.sh.holders| + One(s.sh.flag) - 1
  {
    forall u | u in s.pcs && u != t ensures s.pcs[u] == Idle {
      assert s.Pc(u) == Idle;
    }
    assert t in s.pcs && !CoreOk(s.Pc(t));
  }

  /** A thread other than `t`, idle before and after, makes a step that leaves a pin counted. */
  lemma IdleStep(s: State, t: Tid, m: Move, n: State)
    requires LonePin(s, t) && m.t != t && Next(s, m) == Some(n) && n.Pc(m.t) == Idle
    requires !n.sh.panicked && n.sh.count >= 1 && n.sh.holders[t] == 1 && Balanced(n)
    ensures LonePin(n, t)
  {
    hide Effect, Balanced;
    forall u: Tid | u != t ensures n.Pc(u) == Idle {
      assert s.Pc(u) == Idle;
    }
  }

  /** All pins but that of `t` are released. */
  lemma {:induction false} ReleaseDown(s: State, t: Tid)
    requires LonePin(s, t) && !s.sh.flag
    ensures CanFail(s, t)
    decreases |s.sh.holders|
  {
    AloneSets(s, t);
    assert |s.sh.holders - multiset{t}| >= 1 by { Removed(s.sh.holders, t); }
    var v :| v in s.sh.holders - multiset{t};
    var m := Move(v, Release);
    assert v != t && s.Pc(v) == Idle;
    var n := Next(s, m).value;
    Removed(s.sh.holders, v);
    StepKeepsBalanced(s, m);
    LeadsOne(s, m, n);
    hide Leads, Balanced;
    if n.sh.count < 1 {
      FailsAtOnce(n, t);
    } else {
      IdleStep(s, t, m, n);
      ReleaseDown(n, t);
    }
    FailsLater(s, [m], n, t);
  }

  /** Another thread unpins the handle first. */
  lemma TakeDown(s: State, t: Tid)
    requires LonePin(s, t) && s.sh.flag
    ensures CanFail(s, t)
  {
    AloneSets(s, t);
    var u := t + 1;
    assert s.Pc(u) == Idle;
    var a, b := Move(u, TakeFlag), Move(u, FlagRelease);
    var m := Next(s, a).value;
    StepKeepsBalanced(s, a);
    var n := Next(m, b).value;
    StepKeepsBalanced(m, b);
    LeadsTwo(s, a, m, b, n);
    hide Leads, Balanced;
    assert n.Pc(t) == s.Pc(t);
    if n.sh.count < 1 {
      FailsAtOnce(n, t);
    } else {
      forall v: Tid | v != t ensures n.Pc(v) == Idle {
        assert s.Pc(v) == Idle;
      }
      ReleaseDown(n, t);
    }
    FailsLater(s, [a, b], n, t);
  }

  /** A pending `pin` that owns a single pin can fail. */
  lemma SinglePinFails(s: State, t: Tid)
    requires Balanced(s) && !s.sh.panicked && s.Pc(t).FlagSet? && s.sh.holders[t] == 1
    ensures CanFail(s, t)
  {
    hide Balanced, Leads, CanFail;
    if s.sh.count < 1 {
      FailsAtOnce(s, t);
    } else {
      assert t in {t} && Frozen(s, {t});
      var a, n := FinishAll(s, {t});
      assert t in {t};
      if !Steady(n) {
        FailsAtOnce(n, t);
      } else if n.sh.flag {
        TakeDown(n, t);
      } else {
        ReleaseDown(n, t);
      }
      FailsLater(s, a, n, t);
    }
  }

  /** The count adds up and whoever waits to count the flag owns a pin: kept by every step there is. */
  ghost predicate Law(s: State) {
    CountOk(s.sh, |Setters(s)|, |Takers(s)|) && forall t: Tid :: s.Pc(t).FlagSet? ==> t in s.sh.holders
  }

  lemma OwnersStep(sh: Shared, t: Tid, pc: Pc, a: Action)
    requires Effect(sh, t, pc, a).Some?
    ensures var (n, npc) := Effect(sh, t, pc, a).value;
            && (npc.FlagSet? ==> t in n.holders)
            && (forall u :: u != t ==> n.holders[u] >= sh.holders[u])
  {
  }

  lemma StepKeepsLaw(s: State, m: Move)
    requires Law(s) && Next(s, m).Some?
    ensures Law(Next(s, m).value)
    ensures forall u :: u != m.t ==> Next(s, m).value.sh.holders[u] >= s.sh.holders[u] && Next(s, m).value.Pc(u) == s.Pc(u)
  {
    hide Effect, CountOk, Setters, Takers;
    StepKeepsCount(s, m);
    OwnersStep(s.sh, m.t, s.Pc(m.t), m.a);
  }

  /** Two pins of `t` are enough for its assertion, whatever the others do. */
  lemma TwoPinsHold(s: State, t: Tid)
    requires Law(s) && s.Pc(t).FlagSet? && s.sh.holders[t] >= 2
    ensures !Fails(s, t)
  {
    var owned := multiset(Setters(s)) + multiset{t};
    forall u ensures owned[u] <= s.sh.holders[u] {
      assert u in Setters(s) ==> s.Pc(u).FlagSet?;
    }
    assert s.sh.holders == owned + (s.sh.holders - owned);
    assert |s.sh.holders| == |owned| + |s.sh.holders - owned|;
    assert |owned| == |Setters(s)| + 1;
  }

  lemma {:induction false} TwoPinsStay(s: State, sched: seq<Move>, n: State, t: Tid)
    requires Law(s) && s.Pc(t).FlagSet? && s.sh.holders[t] >= 2
    requires Leads(s, sched, n) && forall m :: m in sched ==> m.t != t
    ensures !Fails(n, t)
    decreases |sched|
  {
    hide Law, Fails, Next;
    if sched == [] {
      TwoPinsHold(s, t);
    } else {
      StepKeepsLaw(s, sched[0]);
      TwoPinsStay(Next(s, sched[0]).value, sched[1..], n, t);
    }
  }

  /** A pending `pin` whose thread makes no other step can fail its assertion if and only if the
      thread owns no second pin: without one the others can always bring it about, with one they
      never can. */
  lemma PinFailsIff(s: State, t: Tid)
    requires Balanced(s) && !s.sh.panicked && s.Pc(t).FlagSet?
    ensures CanFail(s, t) <==> s.sh.holders[t] == 1
  {
    assert ThreadOk(s.sh, t, s.Pc(t));
    if s.sh.holders[t] == 1 {
      SinglePinFails(s, t);
    } else {
      BalancedLaw(s);
      forall sched: seq<Move>, n: State
        | Leads(s, sched, n) && (forall m: Move :: m in sched ==> m.t != t)
        ensures !Fails(n, t)
      {
        TwoPinsStay(s, sched, n, t);
      }
    }
  }

  lemma BalancedLaw(s: State)
    requires Balanced(s)
    ensures Law(s)
  {
    forall t: Tid ensures s.Pc(t).FlagSet? ==> t in s.sh.holders {
      assert ThreadOk(s.sh, t, s.Pc(t));
    }
  }

  /** In particular after `unpin` released the pin of a flag that no setter had counted. */
  lemma OvertakenPinFailsIff(s: State, u: Tid, t: Tid)
    requires Safe(s) && AllUncounted(s) && Next(s, Move(u, FlagRelease)).Some?
    requires Next(s, Move(u, FlagRelease)).value.Pc(t).FlagSet?
    ensures CanFail(Next(s, Move(u, FlagRelease)).value, t) <==> Next(s, Move(u, FlagRelease)).value.sh.holders[t] == 1
  {
    var m := Move(u, FlagRelease);
    assert s.Pc(t).FlagSet? && ThreadOk(s.sh, t, s.Pc(t));
    OwnerCounted(s, t);
    StepKeepsBalanced(s, m);
    PinFailsIff(Next(s, m).value, t);
  }

  // ----- Where the documented operations can panic -----

  ghost predicate CoreIdle(s: State) {
    CoreSafe(s) && !s.sh.panicked && IdleBut(s, {}) && s.sh.lock.None?
  }

  /** With nothing under way, all pins but one of `t`'s are released. */
  lemma {:induction false} ReleaseOthers(s: State, t: Tid) returns (sched: seq<Move>, n: State)
    requires CoreIdle(s) && t in s.sh.holders && Keyless(s)
    ensures Leads(s, sched, n) && AllCore(sched) && CoreIdle(n) && n.sh.holders == multiset{t} && Keyless(n)
    decreases |s.sh.holders|
  {
    hide CoreIdle, Keyless, Leads;
    CoreIdleCount(s);
    var holders := s.sh.holders;
    Removed(holders, t);
    if holders - multiset{t} == multiset{} {
      assert holders == holders - multiset{t} + multiset{t};
      sched, n := [], s;
      LeadsNowhere(s);
    } else {
      var v :| v in holders - multiset{t};
      StillThere(holders, t, v);
      var m := ReleaseOne(s, v);
      var rest;
      rest, n := ReleaseOthers(m, t);
      sched := [Move(v, Release)] + rest;
      LeadsConcat(s, [Move(v, Release)], m, rest, n);
    }
  }

  lemma CoreIdleCount(s: State)
    requires CoreIdle(s)
    ensures s.sh.count == |s.sh.holders|
  {
    CoreCount(s);
  }

  lemma StillThere(holders: multiset<Tid>, t: Tid, v: Tid)
    requires t in holders && v in holders - multiset{t}
    ensures v in holders && t in holders - multiset{v} && |holders| >= 2
  {
    Removed(holders, t);
  }

  lemma ReleaseOne(s: State, v: Tid) returns (n: State)
    requires CoreIdle(s) && v in s.sh.holders && s.sh.count >= 2 && Keyless(s)
    ensures Leads(s, [Move(v, Release)], n) && CoreIdle(n) && Keyless(n)
    ensures n.sh.holders == s.sh.holders - multiset{v} && |n.sh.holders| < |s.sh.holders|
  {
    Removed(s.sh.holders, v);
    var m := Move(v, Release);
    assert s.Pc(v) == Idle;
    n := Next(s, m).value;
    StepKeepsCoreSafe(s, m);
    hide CoreSafe;
    LeadsOne(s, m, n);
    forall t: Tid ensures n.Pc(t) == Idle {
      assert s.Pc(t) == Idle;
    }
  }

  /** One thread gets to the end of its last pin. */
  lemma LastRelease(s: State) returns (sched: seq<Move>, n: State, t: Tid)
    requires CoreIdle(s) && Keyless(s)
    ensures AllCore(sched) && Leads(s, sched, n) && KeylessZero(n.sh) && n.sh.value.Pinned?
    ensures n.sh.holders == multiset{} && n.Pc(t).ReleaseWait? && forall u: Tid :: u != t ==> n.Pc(u) == Idle
  {
    hide Leads, Alone;
    CoreCount(s);
    if s.sh.holders == multiset{} {
      t := 0;
      LeadsNowhere(s);
      PinAndRelease(s.sh, t);
      sched, n := Then(s, [], s, t, SLOW_ALLOC, s.sh.(value := Pinned), ReleaseWait);
    } else {
      t :| t in s.sh.holders;
      var a, m := ReleaseOthers(s, t);
      CoreCount(m);
      assert m.sh.count == 1 && m.Pc(t) == Idle;
      assert multiset{t} - multiset{t} == multiset{};
      n := Next(m, Move(t, Release)).value;
      LeadsOne(m, Move(t, Release), n);
      LeadsConcat(s, a, m, [Move(t, Release)], n);
      sched := a + [Move(t, Release)];
      forall u: Tid | u != t ensures n.Pc(u) == Idle {
        assert m.Pc(u) == Idle;
      }
    }
  }

  /** From an idle keyless allocation, two overlapping releases. */
  lemma PanicsFromIdle(s: State) returns (sched: seq<Move>, n: State)
    requires CoreIdle(s) && Keyless(s)
    ensures AllCore(sched) && Leads(s, sched, n) && n.sh.panicked
  {
    hide Leads, Alone;
    var a, m, t := LastRelease(s);
    var v := t + 1;
    PinAndRelease(m.sh, v);
    var b, o := Then(s, a, m, v, SLOW_ALLOC, m.sh.(value := Pinned), ReleaseWait);
    var c, e := OverlappingReleasesPanic(o, t, v);
    LeadsConcat(s, b, o, c, e);
    sched, n := b + c, e;
  }

  ghost predicate CanPanic(s: State) {
    exists sched, n :: AllCore(sched) && Leads(s, sched, n) && n.sh.panicked
  }

  lemma CoreSteady(s: State)
    requires CoreSafe(s) && !s.sh.panicked
    ensures Steady(s) && OnlyCore(s)
  {
  }

  lemma SteadyCore(s: State)
    requires Steady(s) && OnlyCore(s) && !s.sh.flag && IdleBut(s, {})
    ensures CoreIdle(s)
  {
    OnlyCoreCount(s);
    assert s.sh.lock.Some? ==> ThreadOk(s.sh, s.sh.lock.value, s.Pc(s.sh.lock.value));
  }

  /** From any state of the documented operations a run of them that panics exists if and only if
      no key is set or about to be set. */
  lemma PanicReachableIff(s: State)
    requires CoreSafe(s) && !s.sh.panicked
    ensures CanPanic(s) <==> Keyless(s)
  {
    hide Leads, Keyless;
    if CanPanic(s) {
      var sched, n :| AllCore(sched) && Leads(s, sched, n) && n.sh.panicked;
      if !Keyless(s) {
        KeyedNeverPanics(s, sched, n);
      }
    }
    if Keyless(s) {
      CoreSteady(s);
      var a, m := FinishAll(s, {});
      if Steady(m) {
        SteadyCore(m);
        var b, n := PanicsFromIdle(m);
        LeadsConcat(s, a, m, b, n);
        assert AllCore(a + b);
      }
    }
  }
}
