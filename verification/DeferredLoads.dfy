/** What on-demand fields resolve to and how often rows are paged in, over whole runs: a field's value
    is what its one successful load returned, and callers that want the same row page it in once
    between them. */
module DeferredLoads {
  import opened Options
  import opened DeferredValue

  // ----- Fields -----

  /** The event ends a load of `f` successfully. */
  predicate Loaded(s: State, e: Event, f: FieldId) {
    && e.Act? && e.m.Return? && e.m.ok && e.t < |s.threads|
    && s.threads[e.t].stack.Push? && s.threads[e.t].stack.top == FieldFrame(f, Loading)
  }

  /** What the successful loads of `f` in a run returned, in order. */
  function Loads(s: State, es: seq<Event>, f: FieldId): seq<Val>
    decreases |es|
  {
    if es == [] || Step(true, s, es[0]).None? then []
    else (if Loaded(s, es[0], f) then [es[0].m.v] else []) + Loads(Step(true, s, es[0]).value, es[1..], f)
  }

  /** What the successful loads so far returned is in the field, or in the hands of the thread that is
      about to store it. */
  ghost predicate Tracks(s: State, f: FieldId, past: seq<Val>) {
    && f < |s.fields|
    && var x := s.fields[f];
       if x.loader then past == []
       else
         && |past| == 1
         && (x.value == Some(past[0]) || (x.initializer.Some? && AtBottom(s, x.initializer.value, f, Storing(past[0]))))
  }

  /** A thread with a field at the bottom that is not being loaded has nothing above it. */
  lemma {:induction false} StoringIsTop(s: State, t: ThreadId, stack: Stack)
    requires StackOk(s, t, stack) && stack.Push? && Bottom(stack).FieldFrame? && !Running(Bottom(stack))
    ensures stack.rest.Empty?
    decreases stack
  {
    if stack.rest.Push? {
      StoringIsTop(s, t, stack.rest);
    }
  }

  lemma ActTracks(s: State, t: ThreadId, m: Move, f: FieldId, past: seq<Val>)
    requires Inv(s) && Next(true, s, t, m).Some? && Tracks(s, f, past)
    ensures Tracks(Next(true, s, t, m).value, f, past + if Loaded(s, Act(t, m), f) then [m.v] else [])
  {
    hide SlotOk, HeldIn, ArcStep, PagedStep;
    var s2 := Next(true, s, t, m).value;
    var x := s.fields[f];
    assert ThreadOk(s, t) && FieldOk(s, f);
    assert past + [] == past;
    OthersStay(s, t, m);
    var stack := s.threads[t].stack;
    if !x.loader && x.value.None? && x.initializer == Some(t) {
      StoringIsTop(s, t, stack);
    } else if !Touches(stack, m) {
      FieldsStay(s, t, m);
    }
  }

  /** The step may change a field. */
  predicate Touches(stack: Stack, m: Move) {
    stack.Push? && stack.top.FieldFrame? && (m.Return? || m.Go?)
  }

  lemma FieldsStay(s: State, t: ThreadId, m: Move)
    requires Next(true, s, t, m).Some? && !Touches(s.threads[t].stack, m)
    ensures Next(true, s, t, m).value.fields == s.fields
  {
  }

  lemma OthersStay(s: State, t: ThreadId, m: Move)
    requires Next(true, s, t, m).Some?
    ensures |Next(true, s, t, m).value.threads| == |s.threads|
    ensures forall u :: 0 <= u < |s.threads| && u != t ==> Next(true, s, t, m).value.threads[u] == s.threads[u]
  {
  }

  lemma StepTracks(s: State, e: Event, f: FieldId, past: seq<Val>)
    requires Inv(s) && Step(true, s, e).Some? && Tracks(s, f, past)
    ensures Tracks(Step(true, s, e).value, f, past + if Loaded(s, e, f) then [e.m.v] else [])
  {
    hide Inv, Next;
    if e.Act? {
      ActTracks(s, e.t, e.m, f, past);
    } else {
      assert past + [] == past;
    }
  }

  lemma {:induction false} RunTracks(s: State, es: seq<Event>, f: FieldId, past: seq<Val>)
    requires Inv(s) && Run(true, s, es).Some? && Tracks(s, f, past)
    ensures Inv(Run(true, s, es).value) && Tracks(Run(true, s, es).value, f, past + Loads(s, es, f))
    decreases |es|
  {
    hide Inv, Step, Tracks;
    if es == [] {
      assert past + Loads(s, es, f) == past;
    } else {
      var one := if Loaded(s, es[0], f) then [es[0].m.v] else [];
      StepKeeps(s, es[0]);
      StepTracks(s, es[0], f, past);
      RunTracks(Step(true, s, es[0]).value, es[1..], f, past + one);
      assert past + one + Loads(Step(true, s, es[0]).value, es[1..], f) == past + Loads(s, es, f);
    }
  }

  /** In every run, at most one load of a field succeeds, and a resolved field holds what that load
      returned. */
  lemma ValueIsLoaded(s0: State, es: seq<Event>, f: FieldId)
    requires Initial(s0) && Run(true, s0, es).Some? && f < |s0.fields|
    ensures f < |Run(true, s0, es).value.fields| && |Loads(s0, es, f)| <= 1
    ensures var x := Run(true, s0, es).value.fields[f];
            && (x.value.Some? ==> Loads(s0, es, f) == [x.value.value])
            && (x.value.None? && x.initializer.None? ==> Loads(s0, es, f) == [])
  {
    hide Run, Loads;
    NoEvents(s0);
    EveryRun(s0, []);
    RunTracks(s0, es, f, []);
    assert [] + Loads(s0, es, f) == Loads(s0, es, f);
    assert FieldOk(Run(true, s0, es).value, f);
  }

  lemma NoEvents(s: State)
    ensures Run(true, s, []) == Some(s)
  {
  }

  ghost predicate NotBy(es: seq<Event>, t: ThreadId) {
    forall i :: 0 <= i < |es| ==> !(es[i].Act? && es[i].t == t)
  }

  lemma {:induction false} RunLeavesThread(s: State, es: seq<Event>, t: ThreadId)
    requires Inv(s) && Run(true, s, es).Some? && NotBy(es, t) && t < |s.threads|
    ensures Inv(Run(true, s, es).value)
    ensures t < |Run(true, s, es).value.threads| && Run(true, s, es).value.threads[t] == s.threads[t]
    decreases |es|
  {
    hide Inv, Next;
    if es != [] {
      StepKeeps(s, es[0]);
      if es[0].Act? {
        OthersStay(s, es[0].t, es[0].m);
      }
      RunLeavesThread(Step(true, s, es[0]).value, es[1..], t);
    }
  }

  /** A load that returns `v` resolves its field to `v` with the thread's next step, whatever others
      do before it. */
  lemma LoadResolves(s: State, t: ThreadId, f: FieldId, v: Val, es: seq<Event>)
    requires Inv(s) && t < |s.threads| && s.threads[t].stack.Push? && s.threads[t].stack.top == FieldFrame(f, Loading)
    requires NotBy(es, t)
    ensures Next(true, s, t, Return(true, v)).Some?
    ensures var a := Run(true, Next(true, s, t, Return(true, v)).value, es);
            a.Some? ==>
              && Next(true, a.value, t, Go).Some?
              && var n := Next(true, a.value, t, Go).value;
                 f < |n.fields| && n.fields[f].value == Some(v) && n.threads[t].stack.Empty?
  {
    hide Run, SlotOk, HeldIn;
    assert ThreadOk(s, t);
    var s1 := Next(true, s, t, Return(true, v)).value;
    NextKeeps(s, t, Return(true, v));
    assert s1.threads[t].stack == Push(FieldFrame(f, Storing(v)), Empty);
    if Run(true, s1, es).Some? {
      RunLeavesThread(s1, es, t);
      assert ThreadOk(Run(true, s1, es).value, t);
    }
  }

  // ----- Rows -----

  /** The stack has a page-in of `k` under way. */
  predicate Working(stack: Stack, k: Key) {
    stack.Push? && ((stack.top.ArcFrame? && stack.top.key == k && !stack.top.arcPc.Looking? && !stack.top.arcPc.Waiting?)
                    || Working(stack.rest, k))
  }

  predicate Binds(stack: Stack, k: Key) {
    stack.Push? && stack.top.ArcFrame? && stack.top.key == k && stack.top.arcPc == Binding(true)
  }

  /** The event ends a page-in of `k` successfully. */
  predicate PagedIn(s: State, e: Event, k: Key) {
    && e.Act? && e.m.Return? && e.m.ok && e.t < |s.threads| && s.threads[e.t].stack.Push?
    && s.threads[e.t].stack.top.ArcFrame? && s.threads[e.t].stack.top.key == k && s.threads[e.t].stack.top.arcPc == Paging
  }

  /** How many page-ins of `k` succeed in a run. */
  function PageIns(s: State, es: seq<Event>, k: Key): nat
    decreases |es|
  {
    if es == [] || Step(true, s, es[0]).None? then 0
    else (if PagedIn(s, es[0], k) then 1 else 0) + PageIns(Step(true, s, es[0]).value, es[1..], k)
  }

  /** The entry of `k` is lost: its allocation dies, or a sweep or a reset drops it. */
  predicate Loses(e: Event, k: Key) {
    e == Drop(k) || e == Rebind(k, false)
  }

  /** One thread at most pages `k` in, the entry says so, and after a success it is bound or about to
      be. */
  ghost predicate Once(s: State, k: Key, n: nat) {
    && (forall t, u :: Works(s, t, k) && Works(s, u, k) ==> t == u)
    && (forall t :: Works(s, t, k) ==> k in s.slots && !s.slots[k].Dead?)
    && n <= 1
    && (n == 1 ==> k in s.slots && ((s.slots[k].Live? && Nobody(s, k)) || SomeoneBinds(s, k)))
  }

  ghost predicate Works(s: State, t: ThreadId, k: Key) {
    t < |s.threads| && Working(s.threads[t].stack, k)
  }

  ghost predicate Nobody(s: State, k: Key) {
    forall t: ThreadId :: !Works(s, t, k)
  }

  ghost predicate SomeoneBinds(s: State, k: Key) {
    exists t: ThreadId :: t < |s.threads| && Binds(s.threads[t].stack, k)
  }

  /** A page-in lies below arcs of lower rows only. */
  lemma {:induction false} WorkingIsHigher(s: State, t: ThreadId, stack: Stack, k: Key)
    requires StackOk(s, t, stack) && Working(stack, k)
    ensures stack.top.ArcFrame? && stack.top.key.height <= k.height
    decreases stack
  {
    if stack.rest.Push? && Working(stack.rest, k) {
      WorkingIsHigher(s, t, stack.rest, k);
    }
  }

  lemma NotBelow(s: State, t: ThreadId, stack: Stack)
    requires StackOk(s, t, stack) && stack.Push? && stack.top.ArcFrame?
    ensures !Working(stack.rest, stack.top.key)
  {
    if stack.rest.Push? && Working(stack.rest, stack.top.key) {
      WorkingIsHigher(s, t, stack.rest, stack.top.key);
    }
  }

  lemma BindersWork(s: State, k: Key)
    ensures forall t: ThreadId :: t < |s.threads| && Binds(s.threads[t].stack, k) ==> Works(s, t, k)
  {
  }

  /** A step that leaves `k`'s entry and page-ins alone. */
  lemma OnceStays(s: State, s2: State, t: ThreadId, k: Key, n: nat)
    requires Once(s, k, n) && |s2.threads| == |s.threads| && t < |s.threads|
    requires forall u :: 0 <= u < |s.threads| && u != t ==> s2.threads[u] == s.threads[u]
    requires Working(s2.threads[t].stack, k) <==> Working(s.threads[t].stack, k)
    requires Binds(s.threads[t].stack, k) ==> Binds(s2.threads[t].stack, k)
    requires (k in s2.slots <==> k in s.slots) && (k in s.slots ==> s2.slots[k] == s.slots[k])
    ensures Once(s2, k, n)
  {
    hide Working, Binds;
    assert forall u: ThreadId :: Works(s2, u, k) <==> Works(s, u, k);
    if SomeoneBinds(s, k) {
      var u: ThreadId :| u < |s.threads| && Binds(s.threads[u].stack, k);
      assert Binds(s2.threads[u].stack, k);
    }
  }

  lemma FieldOnce(s: State, t: ThreadId, m: Move, k: Key, n: nat)
    requires Inv(s) && Once(s, k, n) && Next(true, s, t, m).Some?
    requires m.Read? || (s.threads[t].stack.Push? && s.threads[t].stack.top.FieldFrame? && !m.Fetch?)
    ensures Once(Next(true, s, t, m).value, k, n)
  {
    hide Once, Inv;
    OthersStay(s, t, m);
    OnceStays(s, Next(true, s, t, m).value, t, k, n);
  }

  lemma FetchOnce(s: State, t: ThreadId, j: Key, k: Key, n: nat)
    requires Inv(s) && Once(s, k, n) && Next(true, s, t, Fetch(j)).Some?
    ensures Once(Next(true, s, t, Fetch(j)).value, k, n)
  {
    hide Once, Inv;
    OthersStay(s, t, Fetch(j));
    OnceStays(s, Next(true, s, t, Fetch(j)).value, t, k, n);
  }

  /** A step of an arc other than `k`, or one of `k` that neither claims, returns nor binds. */
  lemma OtherArcOnce(s: State, t: ThreadId, m: Move, k: Key, n: nat)
    requires Inv(s) && Once(s, k, n) && Next(true, s, t, m).Some? && (m.Go? || m.Return?)
    requires s.threads[t].stack.Push? && s.threads[t].stack.top.ArcFrame?
    requires var top := s.threads[t].stack.top;
             top.key != k || top.arcPc.Waiting? || top.arcPc.Claimed?
             || (top.arcPc.Looking? && k in s.slots && !s.slots[k].Dead?)
    ensures Once(Next(true, s, t, m).value, k, n)
  {
    hide Once;
    assert ThreadOk(s, t);
    NotBelow(s, t, s.threads[t].stack);
    hide Inv;
    OthersStay(s, t, m);
    OnceStays(s, Next(true, s, t, m).value, t, k, n);
  }

  /** Claiming `k`: nobody was at it. */
  lemma ClaimOnce(s: State, t: ThreadId, k: Key, n: nat)
    requires Inv(s) && Once(s, k, n) && t < |s.threads| && s.threads[t].stack.Push?
    requires s.threads[t].stack.top.ArcFrame? && s.threads[t].stack.top.key == k && s.threads[t].stack.top.arcPc.Looking?
    requires (k !in s.slots || s.slots[k].Dead?) && Next(true, s, t, Go).Some?
    ensures Once(Next(true, s, t, Go).value, k, n)
  {
    hide Inv;
    BindersWork(s, k);
    OthersStay(s, t, Go);
    var s2 := Next(true, s, t, Go).value;
    assert Nobody(s, k) && n == 0;
    assert forall u: ThreadId :: u != t && Works(s2, u, k) ==> Works(s, u, k);
  }

  /** Returning from a page-in of `k`. */
  lemma ReturnOnce(s: State, t: ThreadId, ok: bool, v: Val, k: Key, n: nat)
    requires Inv(s) && Once(s, k, n) && t < |s.threads| && s.threads[t].stack.Push?
    requires s.threads[t].stack.top.ArcFrame? && s.threads[t].stack.top.key == k && s.threads[t].stack.top.arcPc == Paging
    ensures Next(true, s, t, Return(ok, v)).Some?
    ensures Once(Next(true, s, t, Return(ok, v)).value, k, n + if ok then 1 else 0)
  {
    hide Inv;
    var s2 := Next(true, s, t, Return(ok, v)).value;
    assert Works(s, t, k);
    BindersWork(s, k);
    OthersStay(s, t, Return(ok, v));
    assert n == 0;
    assert forall u :: Works(s2, u, k) <==> Works(s, u, k);
    assert Binds(s2.threads[t].stack, k) <==> ok;
  }

  /** Binding `k`, or giving it up. */
  lemma BindOnce(s: State, t: ThreadId, k: Key, n: nat)
    requires Inv(s) && Once(s, k, n) && t < |s.threads| && s.threads[t].stack.Push?
    requires s.threads[t].stack.top.ArcFrame? && s.threads[t].stack.top.key == k && s.threads[t].stack.top.arcPc.Binding?
    requires Next(true, s, t, Go).Some?
    ensures Once(Next(true, s, t, Go).value, k, n)
  {
    assert ThreadOk(s, t);
    NotBelow(s, t, s.threads[t].stack);
    hide Inv;
    var s2 := Next(true, s, t, Go).value;
    assert Works(s, t, k);
    BindersWork(s, k);
    OthersStay(s, t, Go);
    assert forall u: ThreadId :: u != t && Works(s2, u, k) ==> Works(s, u, k);
    assert !Works(s2, t, k);
  }

  lemma ActOnce(s: State, t: ThreadId, m: Move, k: Key, n: nat)
    requires Inv(s) && Once(s, k, n) && Next(true, s, t, m).Some?
    ensures Once(Next(true, s, t, m).value, k, n + if PagedIn(s, Act(t, m), k) then 1 else 0)
  {
    hide Inv, Once, ReadStep, FetchStep, FieldStep, LoadedStep, PagedStep;
    var stack := s.threads[t].stack;
    if m.Fetch? {
      FetchOnce(s, t, m.key, k, n);
    } else if m.Read? || stack.top.FieldFrame? {
      FieldOnce(s, t, m, k, n);
    } else if stack.top.key != k {
      OtherArcOnce(s, t, m, k, n);
    } else {
      match stack.top.arcPc
      case Looking =>
        if k in s.slots && !s.slots[k].Dead? {
          OtherArcOnce(s, t, m, k, n);
        } else {
          ClaimOnce(s, t, k, n);
        }
      case Waiting(_) => OtherArcOnce(s, t, m, k, n);
      case Claimed => OtherArcOnce(s, t, m, k, n);
      case Paging => ReturnOnce(s, t, m.ok, m.v, k, n);
      case Binding(_) => BindOnce(s, t, k, n);
    }
  }

  lemma StepOnce(s: State, e: Event, k: Key, n: nat)
    requires Inv(s) && Once(s, k, n) && Step(true, s, e).Some? && !Loses(e, k)
    ensures Once(Step(true, s, e).value, k, n + if PagedIn(s, e, k) then 1 else 0)
  {
    hide Inv, Next, Working;
    if e.Act? {
      hide Once;
      ActOnce(s, e.t, e.m, k, n);
    } else {
      var s2 := Step(true, s, e).value;
      assert forall t: ThreadId :: Works(s2, t, k) <==> Works(s, t, k);
      if SomeoneBinds(s, k) {
        var u: ThreadId :| u < |s.threads| && Binds(s.threads[u].stack, k);
        assert Binds(s2.threads[u].stack, k);
      }
    }
  }

  lemma {:induction false} RunOnce(s: State, es: seq<Event>, k: Key, n: nat)
    requires Inv(s) && Once(s, k, n) && Run(true, s, es).Some? && forall i :: 0 <= i < |es| ==> !Loses(es[i], k)
    ensures Once(Run(true, s, es).value, k, n + PageIns(s, es, k))
    decreases |es|
  {
    hide Inv, Once, Step, PagedIn;
    if es != [] {
      StepKeeps(s, es[0]);
      StepOnce(s, es[0], k, n);
      RunOnce(Step(true, s, es[0]).value, es[1..], k, n + if PagedIn(s, es[0], k) then 1 else 0);
    }
  }

  /** In every run that does not lose the entry of `k`, one thread at most is paging `k` in at any time,
      one page-in of it succeeds at most, and then `k` is bound or about to be. */
  lemma PagedInOnce(s0: State, es: seq<Event>, k: Key)
    requires Initial(s0) && Run(true, s0, es).Some? && forall i :: 0 <= i < |es| ==> !Loses(es[i], k)
    ensures PageIns(s0, es, k) <= 1
    ensures var s := Run(true, s0, es).value;
            && (forall t, u :: Works(s, t, k) && Works(s, u, k) ==> t == u)
            && (PageIns(s0, es, k) == 1 ==> k in s.slots && (s.slots[k].Live? || SomeoneBinds(s, k)))
  {
    hide Run, PageIns;
    NoEvents(s0);
    EveryRun(s0, []);
    assert Once(s0, k, 0);
    RunOnce(s0, es, k, 0);
  }

  // ----- Entries are not left behind -----

  /** Every entry that says a row is being paged in belongs to a page-in under way. */
  ghost predicate EntriesHeld(s: State) {
    forall k :: k in s.slots && s.slots[k].PagingIn? ==> GateHeld(s, s.slots[k].gate)
  }

  /** A step that gives up no published gate and makes no new entry. */
  lemma EntriesStay(s: State, s2: State, t: ThreadId)
    requires Inv(s) && EntriesHeld(s) && Keeps(s, s2, t) && t < |s.threads|
    requires forall k :: k in s2.slots && s2.slots[k].PagingIn? ==> k in s.slots && s2.slots[k] == s.slots[k]
    requires forall g: GateId :: g < |s.gates| && s.gates[g].published && Holds(s.threads[t].stack, g) ==>
               Holds(s2.threads[t].stack, g) || forall k :: k in s2.slots ==> s2.slots[k] != Slot.PagingIn(g)
    ensures EntriesHeld(s2)
  {
    hide Holds, ThreadOk, FieldOk, KeepsField;
    forall k | k in s2.slots && s2.slots[k].PagingIn? ensures GateHeld(s2, s2.slots[k].gate) {
      assert SlotOk(s, k);
    }
  }

  lemma NextKeepsGates(s: State, t: ThreadId, m: Move)
    requires Inv(s) && Next(true, s, t, m).Some?
    ensures Keeps(s, Next(true, s, t, m).value, t)
  {
    hide SlotOk, HeldIn;
    assert ThreadOk(s, t);
    var stack := s.threads[t].stack;
    if stack.Push? && stack.top.FieldFrame? {
      assert FieldOk(s, stack.top.f);
    }
  }

  lemma ArcEntries(s: State, t: ThreadId)
    requires Inv(s) && EntriesHeld(s) && Next(true, s, t, Go).Some?
    requires s.threads[t].stack.Push? && s.threads[t].stack.top.ArcFrame?
    ensures EntriesHeld(Next(true, s, t, Go).value)
  {
    hide FieldOk, HeldIn;
    var s2 := Next(true, s, t, Go).value;
    assert ThreadOk(s, t);
    NextKeepsGates(s, t, Go);
    var top := s.threads[t].stack.top;
    if top.arcPc.Looking? && (top.key !in s.slots || s.slots[top.key].Dead?) {
      forall k | k in s2.slots && s2.slots[k].PagingIn? ensures GateHeld(s2, s2.slots[k].gate) {
        assert k in s.slots ==> SlotOk(s, k);
        assert k != top.key ==> GateHeld(s, s.slots[k].gate);
      }
    } else {
      forall k | k in s2.slots ensures k in s.slots ==> SlotOk(s, k) {
      }
      EntriesStay(s, s2, t);
    }
  }

  lemma StepKeepsEntries(s: State, e: Event)
    requires Inv(s) && EntriesHeld(s) && Step(true, s, e).Some?
    ensures EntriesHeld(Step(true, s, e).value)
  {
    hide FieldOk, SlotOk, HeldIn;
    var s2 := Step(true, s, e).value;
    if e.Act? {
      var stack := s.threads[e.t].stack;
      if e.m.Go? && stack.top.ArcFrame? {
        hide Inv, EntriesHeld, Next;
        ArcEntries(s, e.t);
      } else {
        assert ThreadOk(s, e.t);
        NextKeepsGates(s, e.t, e.m);
        EntriesStay(s, s2, e.t);
      }
    }
  }

  /** In every reachable state an entry that sends callers waiting belongs to a page-in under way, so a
      page-in that failed leaves its row to the next caller. */
  lemma {:induction false} EntryIsHeld(s: State, es: seq<Event>)
    requires (Initial(s) || (Inv(s) && EntriesHeld(s))) && Run(true, s, es).Some?
    ensures Inv(Run(true, s, es).value) && EntriesHeld(Run(true, s, es).value)
    decreases |es|
  {
    if Initial(s) {
      NoEvents(s);
      EveryRun(s, []);
    }
    hide Inv, EntriesHeld, Step, Initial;
    if es != [] {
      StepKeeps(s, es[0]);
      StepKeepsEntries(s, es[0]);
      EntryIsHeld(Step(true, s, es[0]).value, es[1..]);
    }
  }

  /** An idle thread on its way to paging `k` in. */
  function PagingIn(s: State, t: ThreadId, k: Key): State
    requires t < |s.threads|
  {
    State(s.threads[t := Thread(Push(ArcFrame(k, |s.gates|, Paging), Empty), 1)], s.fields,
          s.slots[k := DeferredValue.PagingIn(|s.gates|)], s.gates + [Gate(k, t, true)], s.noLoader)
  }

  lemma StartsPaging(s: State, t: ThreadId, k: Key)
    requires t < |s.threads| && s.threads[t] == Thread(Empty, 0) && k !in s.slots
    ensures Run(true, s, [Act(t, Fetch(k)), Act(t, Go), Act(t, Go)]) == Some(PagingIn(s, t, k))
  {
    var s1 := Next(true, s, t, Fetch(k)).value;
    var s2 := Next(true, s1, t, Go).value;
    var s3 := Next(true, s2, t, Go).value;
    assert s3 == PagingIn(s, t, k);
    RunTwo(true, s1, Act(t, Go), Act(t, Go));
    assert [Act(t, Fetch(k)), Act(t, Go), Act(t, Go)][1..] == [Act(t, Go), Act(t, Go)];
  }

  /** When the entry is dropped meanwhile, a second thread pages the same row in beside the first. */
  lemma LostEntryPagesTwice(k: Key) returns (s: State, es: seq<Event>, end: State)
    ensures Initial(s) && Run(true, s, es) == Some(end) && Works(end, 0, k) && Works(end, 1, k)
  {
    var idle := Thread(Empty, 0);
    s := State([idle, idle], [], map[], [], false);
    var a, b := [Act(0, Fetch(k)), Act(0, Go), Act(0, Go)], [Act(1, Fetch(k)), Act(1, Go), Act(1, Go)];
    var s1 := PagingIn(s, 0, k);
    var s2 := s1.(slots := s1.slots - {k});
    end := PagingIn(s2, 1, k);
    es := a + ([Drop(k)] + b);
    StartsPaging(s, 0, k);
    StartsPaging(s2, 1, k);
    assert ([Drop(k)] + b)[1..] == b;
    assert Run(true, s1, [Drop(k)] + b) == Run(true, s2, b);
    RunJoins(true, s, a, [Drop(k)] + b);
  }
}
