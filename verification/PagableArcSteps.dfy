/** The pin/evict protocol of one `PagableArc` allocation, interleaved by any number of threads
    at every atomic access and every locking step. */
module PagableArcSteps {
  import opened Options

  type Tid = nat

  datatype Value = Pinned | Unpinned | PagedOut

  /** Where a thread is inside the operation it is performing. */
  datatype Pc =
    | Idle
      // try_alloc_pinned, called on its own or first by alloc_pinned_async
    | SlowWait(paging: bool) | SlowLocked(paging: bool) | SlowPinned
      // release_pin after its decrement reached zero
    | ReleaseWait | ReleaseLocked | Evicting
      // set_data_key
    | KeyLocked
      // alloc_pinned_async after try_alloc_pinned returned false
    | PageWait | PageLocked | PageResident | PageFetching | PageStoreWait | PageStoring | PageStored | PageGap
      // pin, between setting the handle's flag and adding its pin
    | FlagSet
      // unpin, between taking the handle's flag back and releasing its pin
    | FlagTaken
      // leaving a critical section
    | Unlocking

  predicate HoldsLock(pc: Pc) {
    pc.SlowLocked? || pc.SlowPinned? || pc.ReleaseLocked? || pc.Evicting? || pc.KeyLocked?
    || pc.PageLocked? || pc.PageResident? || pc.PageStoring? || pc.PageStored? || pc.Unlocking?
  }

  /** What the threads share. `holders` records who owns each counted pin; `flag` is the pinned
      flag of one shared `PagableArc` handle. */
  datatype Shared = Shared(
    count: int, lock: Option<Tid>, hasKey: bool, value: Value, flag: bool,
    holders: multiset<Tid>, panicked: bool)
  {
    function TakePin(t: Tid): Shared {
      this.(count := count + 1, holders := holders + multiset{t})
    }
  }

  datatype State = State(sh: Shared, pcs: map<Tid, Pc>) {
    function Pc(t: Tid): Pc {
      if t in pcs then pcs[t] else Idle
    }
  }

  datatype Action =
    | TryAlloc(paging: bool) | Lock | TryPin | SlowAdd | LeaveLock
    | AddPinned | GivePin(to: Tid)
    | Release | CheckCount | Evict
    | KeyLock | SetKey
    | PageTryPin | PageAddLocked | FetchFails | FetchDone | PageStore | PageUnlock | GapAdd
    | SetFlag | FlagAdd | TakeFlag | FlagRelease

  predicate IsPageIn(a: Action) {
    (a.TryAlloc? && a.paging) || a.PageTryPin? || a.PageAddLocked? || a.FetchFails? || a.FetchDone?
    || a.PageStore? || a.PageUnlock? || a.GapAdd?
  }

  predicate IsFlag(a: Action) {
    a.SetFlag? || a.FlagAdd? || a.TakeFlag? || a.FlagRelease?
  }

  /** The operations the source documents as safe together: try_alloc_pinned,
      add_pinned_unchecked by the owner of a pin, release_pin and set_data_key. */
  predicate IsCore(a: Action) {
    !IsPageIn(a) && !IsFlag(a)
  }

  /** Takes the lock if it is free. */
  function Locking(sh: Shared, t: Tid, pc: Pc): Option<(Shared, Pc)> {
    if sh.lock.None? then Some((sh.(lock := Some(t)), pc)) else None
  }

  /** Allowed only to the owner of a pin. */
  function Owning(sh: Shared, t: Tid, r: (Shared, Pc)): Option<(Shared, Pc)> {
    if t in sh.holders then Some(r) else None
  }

  /** One step of thread `t` at `pc`, if it is possible: what it does to the shared state, and
      where `t` is next. */
  function Effect(sh: Shared, t: Tid, pc: Pc, a: Action): Option<(Shared, Pc)> {
    match (a, pc)
    case (TryAlloc(paging), Idle) =>
      Some(if sh.count != 0 then (sh.TakePin(t), Idle) else (sh, SlowWait(paging)))
    case (Lock, SlowWait(paging)) => Locking(sh, t, SlowLocked(paging))
    case (Lock, ReleaseWait) => Locking(sh, t, ReleaseLocked)
    case (Lock, PageWait) => Locking(sh, t, PageLocked)
    case (Lock, PageStoreWait) => Locking(sh, t, PageStoring)
    case (TryPin, SlowLocked(paging)) =>
      Some(if sh.value.PagedOut? then (sh.(lock := None), if paging then PageWait else Idle)
           else (sh.(value := Pinned), SlowPinned))
    case (SlowAdd, SlowPinned) => Some((sh.TakePin(t), Unlocking))
    case (LeaveLock, Unlocking) => Some((sh.(lock := None), Idle))
    case (AddPinned, Idle) => Owning(sh, t, (sh.TakePin(t).(panicked := sh.count < 1), Idle))
    case (GivePin(to), Idle) =>
      Owning(sh, t, (sh.(holders := sh.holders - multiset{t} + multiset{to}), Idle))
    case (Release, Idle) =>
      Owning(sh, t, (sh.(count := sh.count - 1, holders := sh.holders - multiset{t}),
                     if sh.count == 1 then ReleaseWait else Idle))
    case (CheckCount, ReleaseLocked) => Some((sh, if sh.count == 0 then Evicting else Unlocking))
    case (Evict, Evicting) =>
      Some(if sh.hasKey then (sh.(value := PagedOut), Unlocking)
           else if sh.value.Pinned? then (sh.(value := Unpinned), Unlocking)
           else (sh.(panicked := true), Evicting))
    case (KeyLock, Idle) => Locking(sh, t, KeyLocked)
    case (SetKey, KeyLocked) =>
      Some((sh.(hasKey := true, value := if sh.value.Pinned? then Pinned else PagedOut), Unlocking))
    case (PageTryPin, PageLocked) =>
      Some(if !sh.value.PagedOut? then (sh.(value := Pinned), PageResident)
           else if sh.hasKey then (sh.(lock := None), PageFetching)
           else (sh.(panicked := true), PageLocked))
    case (PageAddLocked, PageResident) => Some((sh.TakePin(t), Unlocking))
    case (FetchFails, PageFetching) => Some((sh, Idle))
    case (FetchDone, PageFetching) => Some((sh, PageStoreWait))
    case (PageStore, PageStoring) => Some((sh.(value := Pinned), PageStored))
    case (PageUnlock, PageStored) => Some((sh.(lock := None), PageGap))
    case (GapAdd, PageGap) => Some((sh.TakePin(t), Idle))
    case (SetFlag, Idle) => Owning(sh, t, if sh.flag then (sh, Idle) else (sh.(flag := true), FlagSet))
    case (FlagAdd, FlagSet) => Some((sh.(count := sh.count + 1, panicked := sh.count < 1), Idle))
    case (TakeFlag, Idle) => Some(if sh.flag then (sh.(flag := false), FlagTaken) else (sh, Idle))
    case (FlagRelease, FlagTaken) =>
      Some((sh.(count := sh.count - 1), if sh.count == 1 then ReleaseWait else Idle))
    case _ => None
  }

  /** Nothing runs after a panic. */
  function Next(s: State, m: Move): Option<State> {
    if s.sh.panicked then None
    else match Effect(s.sh, m.t, s.Pc(m.t), m.a)
      case None => None
      case Some((sh, pc)) => Some(State(sh, s.pcs[m.t := pc]))
  }

  // ----- Schedules -----

  datatype Move = Move(t: Tid, a: Action)

  /** Making the moves of `sched` in turn is possible from `s` and ends in `n`. */
  ghost predicate Leads(s: State, sched: seq<Move>, n: State)
    decreases |sched|
  {
    if sched == [] then n == s
    else Next(s, sched[0]).Some? && Leads(Next(s, sched[0]).value, sched[1..], n)
  }

  lemma {:induction false} LeadsConcat(s: State, a: seq<Move>, m: State, b: seq<Move>, n: State)
    requires Leads(s, a, m) && Leads(m, b, n)
    ensures Leads(s, a + b, n)
    decreases |a|
  {
    hide Next;
    if a == [] {
      assert a + b == b;
    } else {
      LeadsConcat(Next(s, a[0]).value, a[1..], m, b, n);
      assert (a + b)[1..] == a[1..] + b;
    }
  }

  /** A fresh allocation: pinned once by `owner`, or paged out under a key. */
  predicate Initial(s: State, owner: Tid) {
    || s == State(Shared(1, None, false, Pinned, false, multiset{owner}, false), map[])
    || s == State(Shared(0, None, true, PagedOut, false, multiset{}, false), map[])
  }

  // ----- Safety -----

  /** A positive count means the value is pinned; a paged-out value has a key and an unpinned
      one has none. */
  predicate ResidencyOk(sh: Shared) {
    && (sh.count > 0 ==> sh.value.Pinned?)
    && (sh.value.PagedOut? ==> sh.hasKey)
    && (sh.value.Unpinned? ==> !sh.hasKey)
  }

  /** Threads that have set the flag and not counted it yet. */
  function Setters(s: State): set<Tid> {
    set t | t in s.pcs && s.pcs[t].FlagSet?
  }

  /** Threads that have taken the flag back and not released its pin yet. */
  function Takers(s: State): set<Tid> {
    set t | t in s.pcs && s.pcs[t].FlagTaken?
  }

  function One(b: bool): nat {
    if b then 1 else 0
  }

  /** The count is one for each owned pin and one for the flag; `taking` threads still have theirs to
      give back and `setting` ones theirs to add. */
  predicate CountOk(sh: Shared, setting: nat, taking: nat) {
    sh.count == |sh.holders| + One(sh.flag) + taking - setting
  }

  /** Between making the value resident and counting the pin. */
  predicate KeepsResident(pc: Pc) {
    pc.SlowPinned? || pc.PageResident? || pc.PageStored? || pc.PageGap?
  }

  predicate ThreadOk(sh: Shared, t: Tid, pc: Pc) {
    && (HoldsLock(pc) <==> sh.lock == Some(t))
    && (KeepsResident(pc) ==> sh.value.Pinned?)
    && (pc.FlagSet? ==> t in sh.holders)
    && (pc.Evicting? ==> sh.count == 0)
  }

  /** The count adds up, and residency, key and lock are in order. */
  ghost predicate Balanced(s: State) {
    && CountOk(s.sh, |Setters(s)|, |Takers(s)|) && ResidencyOk(s.sh)
    && forall t: Tid :: ThreadOk(s.sh, t, s.Pc(t))
  }

  /** Every owned pin is counted: no more flags wait to be counted than are set or being given back. */
  ghost predicate Safe(s: State) {
    Balanced(s) && |Setters(s)| <= One(s.sh.flag) + |Takers(s)|
  }

  /** One place page-in can be overtaken: it has stored the value and dropped the lock, but not yet
      counted its pin. */
  ghost predicate InGap(s: State) {
    exists u: Tid :: s.Pc(u).PageGap?
  }

  ghost predicate SomeEvicting(s: State) {
    exists u: Tid :: s.Pc(u).Evicting?
  }

  /** Every flag set or being given back is one that its setter has yet to count. */
  ghost predicate AllUncounted(s: State) {
    |Setters(s)| == One(s.sh.flag) + |Takers(s)|
  }

  /** The step overtakes a page-in or a pin: it evicts while a page-in is in the gap, leaves the gap
      while another thread is evicting, or releases the flag's pin before any setter counted it. */
  ghost predicate Overtakes(s: State, m: Move) {
    || (m.a.Evict? && InGap(s))
    || (m.a.GapAdd? && SomeEvicting(s))
    || (m.a.FlagRelease? && AllUncounted(s))
  }

  // ----- The count -----

  lemma CountStep(sh: Shared, setting: nat, taking: nat, t: Tid, pc: Pc, a: Action)
    requires CountOk(sh, setting, taking) && Effect(sh, t, pc, a).Some?
    requires (pc.FlagSet? ==> setting > 0) && (pc.FlagTaken? ==> taking > 0)
    ensures var (n, npc) := Effect(sh, t, pc, a).value;
            CountOk(n, setting - One(pc.FlagSet?) + One(npc.FlagSet?), taking - One(pc.FlagTaken?) + One(npc.FlagTaken?))
  {
    HolderSizes(sh.holders, t, if a.GivePin? then a.to else t);
    if IsFlag(a) {
      FlagCountStep(sh, setting, taking, t, pc, a);
    }
  }

  lemma FlagCountStep(sh: Shared, setting: nat, taking: nat, t: Tid, pc: Pc, a: Action)
    requires CountOk(sh, setting, taking) && IsFlag(a) && Effect(sh, t, pc, a).Some?
    requires (pc.FlagSet? ==> setting > 0) && (pc.FlagTaken? ==> taking > 0)
    ensures var (n, npc) := Effect(sh, t, pc, a).value;
            CountOk(n, setting - One(pc.FlagSet?) + One(npc.FlagSet?), taking - One(pc.FlagTaken?) + One(npc.FlagTaken?))
  {
  }

  lemma HolderSizes(holders: multiset<Tid>, t: Tid, to: Tid)
    ensures |holders + multiset{t}| == |holders| + 1
    ensures t in holders ==> |holders - multiset{t}| == |holders| - 1 && |holders - multiset{t} + multiset{to}| == |holders|
  {
    if t in holders {
      Removed(holders, t);
    }
  }

  lemma Removed(holders: multiset<Tid>, t: Tid)
    requires t in holders
    ensures |holders - multiset{t}| == |holders| - 1
  {
    assert holders == holders - multiset{t} + multiset{t};
  }

  /** How a step changes who is in the middle of setting or taking the flag. */
  lemma WhoIsWhere(s: State, m: Move)
    requires Next(s, m).Some?
    ensures var n := Next(s, m).value;
            && |Setters(n)| == |Setters(s)| - One(s.Pc(m.t).FlagSet?) + One(n.Pc(m.t).FlagSet?)
            && |Takers(n)| == |Takers(s)| - One(s.Pc(m.t).FlagTaken?) + One(n.Pc(m.t).FlagTaken?)
            && (s.Pc(m.t).FlagSet? ==> |Setters(s)| > 0) && (s.Pc(m.t).FlagTaken? ==> |Takers(s)| > 0)
  {
    hide Effect;
    var n, t := Next(s, m).value, m.t;
    assert n.pcs == s.pcs[t := n.Pc(t)];
    Moved(Setters(s), Setters(n), t, n.Pc(t).FlagSet?);
    Moved(Takers(s), Takers(n), t, n.Pc(t).FlagTaken?);
  }

  lemma Moved(a: set<Tid>, b: set<Tid>, t: Tid, there: bool)
    requires t in b <==> there
    requires forall u :: u != t ==> (u in a <==> u in b)
    ensures |b| == |a| - One(t in a) + One(there) && (t in a ==> |a| > 0)
  {
    if t in a {
      assert a == (a - {t}) + {t};
    }
    if there {
      assert b == (a - {t}) + {t};
    } else {
      assert b == a - {t};
    }
  }

  /** Every step of every thread keeps the count adding up. */
  lemma StepKeepsCount(s: State, m: Move)
    requires CountOk(s.sh, |Setters(s)|, |Takers(s)|) && Next(s, m).Some?
    ensures var n := Next(s, m).value; CountOk(n.sh, |Setters(n)|, |Takers(n)|)
  {
    hide Effect, Setters, Takers;
    WhoIsWhere(s, m);
    CountStep(s.sh, |Setters(s)|, |Takers(s)|, m.t, s.Pc(m.t), m.a);
  }

  lemma OwnerCounted(s: State, t: Tid)
    requires Safe(s) && t in s.sh.holders
    ensures s.sh.count >= 1
  {
    hide ThreadOk, ResidencyOk, Setters, Takers;
    Removed(s.sh.holders, t);
  }

  // ----- Steps -----

  lemma OwnStep(sh: Shared, t: Tid, pc: Pc, a: Action)
    requires ResidencyOk(sh) && ThreadOk(sh, t, pc) && Effect(sh, t, pc, a).Some?
    requires t in sh.holders || a.FlagRelease? ==> sh.count >= 1
    ensures var (sh', pc') := Effect(sh, t, pc, a).value; ResidencyOk(sh') && ThreadOk(sh', t, pc')
  {
  }

  lemma OtherStep(sh: Shared, t: Tid, pc: Pc, a: Action, u: Tid, other: Pc)
    requires t in sh.holders || a.FlagRelease? ==> sh.count >= 1
    requires ThreadOk(sh, t, pc) && ThreadOk(sh, u, other) && u != t && Effect(sh, t, pc, a).Some?
    requires (a.Evict? ==> !other.PageGap?) && (a.GapAdd? ==> !other.Evicting?)
    ensures ThreadOk(Effect(sh, t, pc, a).value.0, u, other)
  {
  }

  /** A step by a thread whose pins are counted keeps everything in balance, unless it overtakes a
      page-in. */
  lemma StepKeepsBalanced(s: State, m: Move)
    requires Balanced(s) && Next(s, m).Some?
    requires m.t in s.sh.holders || m.a.FlagRelease? ==> s.sh.count >= 1
    requires (m.a.Evict? ==> !InGap(s)) && (m.a.GapAdd? ==> !SomeEvicting(s))
    ensures Balanced(Next(s, m).value)
  {
    hide Effect, ThreadOk, ResidencyOk, CountOk, Setters, Takers;
    var n := Next(s, m).value;
    StepKeepsCount(s, m);
    OwnStep(s.sh, m.t, s.Pc(m.t), m.a);
    forall u: Tid ensures ThreadOk(n.sh, u, n.Pc(u)) {
      if u != m.t {
        OtherStep(s.sh, m.t, s.Pc(m.t), m.a, u, s.Pc(u));
      }
    }
  }

  /** Every step of any thread that overtakes nothing keeps the protocol safe. */
  lemma StepKeepsSafe(s: State, m: Move)
    requires Safe(s) && Next(s, m).Some? && !Overtakes(s, m)
    ensures Safe(Next(s, m).value)
  {
    SafeCounts(s, m);
    StepKeepsBalanced(s, m);
    hide Balanced, Effect;
    WhoIsWhere(s, m);
    FlagStep(s.sh, m.t, s.Pc(m.t), m.a);
  }

  lemma SafeCounts(s: State, m: Move)
    requires Safe(s) && Next(s, m).Some? && !Overtakes(s, m)
    ensures m.t in s.sh.holders || m.a.FlagRelease? ==> s.sh.count >= 1
  {
    hide ThreadOk, ResidencyOk, Setters, Takers;
    if m.t in s.sh.holders {
      OwnerCounted(s, m.t);
    }
  }

  /** How the flag moves with the threads that set it and take it back. */
  lemma FlagStep(sh: Shared, t: Tid, pc: Pc, a: Action)
    requires Effect(sh, t, pc, a).Some?
    ensures var (n, npc) := Effect(sh, t, pc, a).value;
            One(npc.FlagSet?) - One(pc.FlagSet?) - One(n.flag) - One(npc.FlagTaken?) + One(pc.FlagTaken?) + One(sh.flag)
            == One(a.FlagRelease?) - One(a.FlagAdd?)
  {
  }

  // ----- Every interleaving of the documented operations -----

  /** Where a thread can be when only documented operations run. */
  predicate CoreOk(pc: Pc) {
    || pc.Idle? || (pc.SlowWait? && !pc.paging) || (pc.SlowLocked? && !pc.paging) || pc.SlowPinned?
    || pc.ReleaseWait? || pc.ReleaseLocked? || pc.Evicting? || pc.KeyLocked? || pc.Unlocking?
  }

  ghost predicate CoreSafe(s: State) {
    Safe(s) && !s.sh.flag && forall t: Tid :: CoreOk(s.Pc(t))
  }

  lemma CoreStep(sh: Shared, t: Tid, pc: Pc, a: Action)
    requires CoreOk(pc) && Effect(sh, t, pc, a).Some? && IsCore(a)
    ensures var (sh', pc') := Effect(sh, t, pc, a).value; CoreOk(pc') && sh'.flag == sh.flag
  {
  }

  lemma StepKeepsCoreSafe(s: State, m: Move)
    requires CoreSafe(s) && Next(s, m).Some? && IsCore(m.a)
    ensures CoreSafe(Next(s, m).value)
  {
    assert !InGap(s);
    hide Safe, Effect;
    StepKeepsSafe(s, m);
    CoreStep(s.sh, m.t, s.Pc(m.t), m.a);
    var n := Next(s, m).value;
    forall u: Tid ensures CoreOk(n.Pc(u)) {
      if u != m.t {
        assert n.Pc(u) == s.Pc(u);
      }
    }
  }

  ghost predicate AllCore(sched: seq<Move>) {
    forall m :: m in sched ==> IsCore(m.a)
  }

  lemma {:induction false} CoreRunSafe(s: State, sched: seq<Move>, n: State)
    requires CoreSafe(s) && AllCore(sched) && Leads(s, sched, n)
    ensures CoreSafe(n)
    decreases |sched|
  {
    if sched != [] {
      StepKeepsCoreSafe(s, sched[0]);
      CoreRunSafe(Next(s, sched[0]).value, sched[1..], n);
    }
  }

  lemma InitialSafe(s: State, owner: Tid)
    requires Initial(s, owner)
    ensures CoreSafe(s)
  {
    assert Setters(s) == {} && Takers(s) == {};
    forall t: Tid ensures ThreadOk(s.sh, t, s.Pc(t)) && CoreOk(s.Pc(t)) {
      assert s.Pc(t) == Idle;
    }
  }

  /** However any number of threads interleave the documented operations, and up to any panic, a
      positive pin count means the value is pinned and a paged-out value has a key. */
  lemma EveryInterleaving(s: State, owner: Tid, sched: seq<Move>, n: State)
    requires Initial(s, owner) && AllCore(sched) && Leads(s, sched, n)
    ensures n.sh.count > 0 ==> n.sh.value.Pinned?
    ensures n.sh.value.PagedOut? ==> n.sh.hasKey
    ensures n.sh.count == |n.sh.holders|
  {
    InitialSafe(s, owner);
    CoreRunSafe(s, sched, n);
    CoreCount(n);
  }

  lemma CoreCount(s: State)
    requires CoreSafe(s)
    ensures s.sh.count == |s.sh.holders|
  {
    forall t | t in s.pcs ensures CoreOk(s.pcs[t]) {
      assert s.Pc(t) == s.pcs[t];
    }
    assert Setters(s) == {} && Takers(s) == {};
  }

  // ----- When a release panics -----

  predicate Releasing(pc: Pc) {
    pc.ReleaseWait? || pc.ReleaseLocked? || pc.Evicting?
  }

  /** A step from a safe state panics exactly when it evicts a value that another release has
      already unpinned; the assertions of `add_pinned_unchecked` hold, in `pin` too. */
  lemma PanicsIff(s: State, m: Move)
    requires Safe(s) && Next(s, m).Some?
    ensures Next(s, m).value.sh.panicked <==> m.a.Evict? && s.sh.value.Unpinned?
  {
    hide Effect, ThreadOk;
    if m.t in s.sh.holders {
      OwnerCounted(s, m.t);
    }
    EffectPanicsIff(s.sh, m.t, s.Pc(m.t), m.a);
  }

  lemma EffectPanicsIff(sh: Shared, t: Tid, pc: Pc, a: Action)
    requires ResidencyOk(sh) && ThreadOk(sh, t, pc)
    requires (t in sh.holders ==> sh.count >= 1) && !sh.panicked && Effect(sh, t, pc, a).Some?
    ensures Effect(sh, t, pc, a).value.0.panicked <==> a.Evict? && sh.value.Unpinned?
  {
  }

  /** At most one release is between its decrement and its end. */
  ghost predicate OneReleasing(s: State) {
    forall t: Tid, u: Tid :: Releasing(s.Pc(t)) && Releasing(s.Pc(u)) ==> t == u
  }

  /** Every state passed, the first and last included, satisfies `p`. */
  ghost predicate Throughout(s: State, sched: seq<Move>, p: State -> bool)
    decreases |sched|
  {
    && p(s)
    && (sched != [] ==> Next(s, sched[0]).Some? && Throughout(Next(s, sched[0]).value, sched[1..], p))
  }

  ghost predicate NoneReleasing(s: State) {
    forall t: Tid :: !Releasing(s.Pc(t))
  }

  lemma OneReleasingStep(s: State, m: Move)
    requires CoreSafe(s) && OneReleasing(s) && Next(s, m).Some? && IsCore(m.a)
    requires s.sh.value.Unpinned? ==> NoneReleasing(s)
    ensures var n := Next(s, m).value; !n.sh.panicked && (n.sh.value.Unpinned? ==> NoneReleasing(n))
  {
    PanicsIff(s, m);
    var n := Next(s, m).value;
    assert s.Pc(m.t).Evicting? ==> Releasing(s.Pc(m.t));
    assert m.a.Evict? ==> s.Pc(m.t).Evicting?;
    if m.t in s.sh.holders {
      OwnerCounted(s, m.t);
    }
    if n.sh.value.Unpinned? {
      forall u: Tid ensures !Releasing(n.Pc(u)) {
        if u != m.t {
          assert n.Pc(u) == s.Pc(u);
        }
      }
    }
  }

  /** Runs in which releases never overlap do not panic. */
  lemma {:induction false} SerialReleasesNeverPanic(s: State, sched: seq<Move>, n: State)
    requires CoreSafe(s) && !s.sh.panicked && (s.sh.value.Unpinned? ==> NoneReleasing(s))
    requires AllCore(sched) && Leads(s, sched, n) && Throughout(s, sched, OneReleasing)
    ensures !n.sh.panicked
    decreases |sched|
  {
    if sched != [] {
      OneReleasingStep(s, sched[0]);
      StepKeepsCoreSafe(s, sched[0]);
      SerialReleasesNeverPanic(Next(s, sched[0]).value, sched[1..], n);
    }
  }

  /** No key is set, nor about to be. */
  ghost predicate Keyless(s: State) {
    !s.sh.hasKey && forall t: Tid :: !s.Pc(t).KeyLocked?
  }

  lemma KeyedStep(s: State, m: Move)
    requires CoreSafe(s) && !Keyless(s) && Next(s, m).Some? && IsCore(m.a)
    ensures !Next(s, m).value.sh.panicked && !Keyless(Next(s, m).value)
  {
    PanicsIff(s, m);
    var n := Next(s, m).value;
    assert ThreadOk(s.sh, m.t, s.Pc(m.t));
    if !s.sh.hasKey {
      var k: Tid :| s.Pc(k).KeyLocked?;
      assert ThreadOk(s.sh, k, s.Pc(k));
      if m.t != k {
        assert n.Pc(k) == s.Pc(k);
      }
    }
  }

  /** Once the allocation has a key, or a thread is about to set one under the lock, no later
      release panics. */
  lemma {:induction false} KeyedNeverPanics(s: State, sched: seq<Move>, n: State)
    requires CoreSafe(s) && !s.sh.panicked && !Keyless(s) && AllCore(sched) && Leads(s, sched, n)
    ensures !n.sh.panicked && !Keyless(n)
    decreases |sched|
  {
    hide CoreSafe, Keyless, Next;
    if sched != [] {
      KeyedStep(s, sched[0]);
      StepKeepsCoreSafe(s, sched[0]);
      KeyedNeverPanics(Next(s, sched[0]).value, sched[1..], n);
    }
  }
}
