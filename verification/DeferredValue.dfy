/** On-demand fields (`pagable/src/deferred_value.rs`) and the arc cache their loaders go through,
    as atomic steps of any number of threads. Each thread has a stack of the cells it is working
    on; the code of a loader or a page-in may read any field and fetch any arc nested in its row. */
module DeferredValue {
  import opened Options

  type FieldId = nat
  type ThreadId = nat
  type GateId = nat
  type Val = nat

  /** A key is the hash of its row, nested keys included, so it fixes how deeply rows nest below. */
  datatype Key = Key(hash: nat, height: nat)

  /** `value` is the `OnceCell`, `initializer` the thread inside `get_or_try_init`, `locked` the
      owner of the loader mutex; `loads` counts the loads that succeeded. */
  datatype Field = Field(value: Option<Val>, initializer: Option<ThreadId>, locked: Option<ThreadId>,
                         loader: bool, loads: nat)

  datatype Slot = PagingIn(gate: GateId) | Live | Dead

  /** The mutex one page-in holds from its creation until it returns. */
  datatype Gate = Gate(key: Key, owner: ThreadId, published: bool)

  datatype FieldPc = Wanting | Initializing | Loading | Storing(v: Val) | Failing
  datatype ArcPc = Looking | Waiting(other: GateId) | Claimed | Paging | Binding(ok: bool)

  datatype Frame =
    | FieldFrame(f: FieldId, fieldPc: FieldPc)
    | ArcFrame(key: Key, gate: GateId, arcPc: ArcPc)

  datatype Stack = Empty | Push(top: Frame, rest: Stack)

  /** `held` is the thread's `HELD_CELLS`. */
  datatype Thread = Thread(stack: Stack, held: int)

  datatype State = State(threads: seq<Thread>, fields: seq<Field>, slots: map<Key, Slot>, gates: seq<Gate>,
                         noLoader: bool)

  /** The frame executes loader or page-in code. */
  predicate Running(frame: Frame) {
    match frame
    case FieldFrame(_, pc) => pc == Loading
    case ArcFrame(_, _, pc) => pc == Paging
  }

  predicate Runs(stack: Stack) {
    stack.Empty? || Running(stack.top)
  }

  /** A row only names rows below it. */
  predicate Nested(stack: Stack, k: Key) {
    stack.Push? && stack.top.ArcFrame? ==> k.height < stack.top.key.height
  }

  predicate Holds(stack: Stack, g: GateId) {
    stack.Push? && ((stack.top.ArcFrame? && stack.top.gate == g) || Holds(stack.rest, g))
  }

  predicate GateHeld(s: State, g: GateId) {
    g < |s.gates| && s.gates[g].owner < |s.threads| && Holds(s.threads[s.gates[g].owner].stack, g)
  }

  datatype Move = Read(f: FieldId) | Fetch(key: Key) | Return(ok: bool, v: Val) | Go

  function SetThread(s: State, t: ThreadId, stack: Stack, held: int): State
    requires t < |s.threads|
  {
    s.(threads := s.threads[t := Thread(stack, held)])
  }

  /** `DeferredValue::read` up to `get_or_try_init`; without `refuse`, without its check. */
  function ReadStep(refuse: bool, s: State, t: ThreadId, f: FieldId): Option<State> {
    if t >= |s.threads| || f >= |s.fields| || !Runs(s.threads[t].stack) then None
    else
      var x := s.threads[t];
      if s.fields[f].value.Some? || (refuse && x.held > 0) then Some(s)
      else Some(SetThread(s, t, Push(FieldFrame(f, Wanting), x.stack), x.held + 1))
  }

  /** `get_or_page_in` creates its gate, locked. */
  function FetchStep(s: State, t: ThreadId, k: Key): Option<State> {
    if t >= |s.threads| || !Runs(s.threads[t].stack) || !Nested(s.threads[t].stack, k) then None
    else
      var x := s.threads[t];
      Some(SetThread(s, t, Push(ArcFrame(k, |s.gates|, Looking), x.stack), x.held)
           .(gates := s.gates + [Gate(k, t, false)]))
  }

  function FieldStep(s: State, t: ThreadId, f: FieldId, pc: FieldPc, rest: Stack): Option<State> {
    if t >= |s.threads| || f >= |s.fields| then None
    else
      var x, held := s.fields[f], s.threads[t].held;
      match pc
      case Wanting =>
        if x.value.Some? then Some(SetThread(s, t, rest, held - 1))
        else if x.initializer.Some? then None
        else Some(SetThread(s, t, Push(FieldFrame(f, Initializing), rest), held)
                  .(fields := s.fields[f := x.(initializer := Some(t))]))
      case Initializing =>
        if x.locked.Some? then None
        else if !x.loader then
          Some(SetThread(s, t, Push(FieldFrame(f, Failing), rest), held).(noLoader := true))
        else Some(SetThread(s, t, Push(FieldFrame(f, Loading), rest), held)
                  .(fields := s.fields[f := x.(locked := Some(t))]))
      case Loading => None
      case Storing(v) =>
        Some(SetThread(s, t, rest, held - 1).(fields := s.fields[f := x.(value := Some(v), initializer := None)]))
      case Failing =>
        Some(SetThread(s, t, rest, held - 1).(fields := s.fields[f := x.(initializer := None)]))
  }

  /** The end of a field's loader. */
  function LoadedStep(s: State, t: ThreadId, f: FieldId, rest: Stack, ok: bool, v: Val): Option<State> {
    if t >= |s.threads| || f >= |s.fields| then None
    else
      var x, held := s.fields[f], s.threads[t].held;
      if ok then
        Some(SetThread(s, t, Push(FieldFrame(f, Storing(v)), rest), held)
             .(fields := s.fields[f := x.(locked := None, loader := false, loads := x.loads + 1)]))
      else
        Some(SetThread(s, t, Push(FieldFrame(f, Failing), rest), held)
             .(fields := s.fields[f := x.(locked := None)]))
  }

  function ArcStep(s: State, t: ThreadId, k: Key, g: GateId, pc: ArcPc, rest: Stack): Option<State> {
    if t >= |s.threads| || g >= |s.gates| then None
    else
      var held := s.threads[t].held;
      match pc
      case Looking =>
        if k in s.slots && s.slots[k].Live? then Some(SetThread(s, t, rest, held))
        else if k in s.slots && s.slots[k].PagingIn? then
          Some(SetThread(s, t, Push(ArcFrame(k, g, Waiting(s.slots[k].gate)), rest), held))
        else
          Some(SetThread(s, t, Push(ArcFrame(k, g, Claimed), rest), held)
               .(slots := s.slots[k := PagingIn(g)], gates := s.gates[g := s.gates[g].(published := true)]))
      case Waiting(other) =>
        if GateHeld(s, other) then None
        else Some(SetThread(s, t, Push(ArcFrame(k, g, Looking), rest), held))
      case Claimed => Some(SetThread(s, t, Push(ArcFrame(k, g, Paging), rest), held + 1))
      case Paging => None
      case Binding(ok) =>
        Some(SetThread(s, t, rest, held)
             .(slots := if ok then s.slots[k := Live]
                        else if k in s.slots && s.slots[k] == PagingIn(g) then s.slots - {k}
                        else s.slots))
  }

  function PagedStep(s: State, t: ThreadId, k: Key, g: GateId, rest: Stack, ok: bool): Option<State> {
    if t >= |s.threads| then None
    else Some(SetThread(s, t, Push(ArcFrame(k, g, Binding(ok)), rest), s.threads[t].held - 1))
  }

  function Next(refuse: bool, s: State, t: ThreadId, m: Move): Option<State> {
    if t >= |s.threads| then None
    else
      var stack := s.threads[t].stack;
      match m
      case Read(f) => ReadStep(refuse, s, t, f)
      case Fetch(k) => FetchStep(s, t, k)
      case Return(ok, v) =>
        if stack.Empty? || !Running(stack.top) then None
        else if stack.top.FieldFrame? then LoadedStep(s, t, stack.top.f, stack.rest, ok, v)
        else PagedStep(s, t, stack.top.key, stack.top.gate, stack.rest, ok)
      case Go =>
        if stack.Empty? then None
        else if stack.top.FieldFrame? then FieldStep(s, t, stack.top.f, stack.top.fieldPc, stack.rest)
        else ArcStep(s, t, stack.top.key, stack.top.gate, stack.top.arcPc, stack.rest)
  }

  /** A step of a thread, or the cache entry of a key changing under everyone: a page-out binds it,
      its allocation dies, a sweep or a reset drops it. */
  datatype Event = Act(t: ThreadId, m: Move) | Rebind(key: Key, live: bool) | Drop(key: Key)

  function Step(refuse: bool, s: State, e: Event): Option<State> {
    match e
    case Act(t, m) => Next(refuse, s, t, m)
    case Rebind(k, live) => Some(s.(slots := s.slots[k := if live then Live else Dead]))
    case Drop(k) => Some(s.(slots := s.slots - {k}))
  }

  function Run(refuse: bool, s: State, es: seq<Event>): Option<State>
    decreases |es|
  {
    if es == [] then Some(s)
    else
      var s1 := Step(refuse, s, es[0]);
      if s1.None? then None else Run(refuse, s1.value, es[1..])
  }

  ghost predicate Initial(s: State) {
    && !s.noLoader && s.slots == map[] && s.gates == []
    && (forall t :: 0 <= t < |s.threads| ==> s.threads[t] == Thread(Empty, 0))
    && (forall f :: 0 <= f < |s.fields| ==> s.fields[f] == Field(None, None, None, true, 0))
  }

  // ----- The invariant -----

  /** `HELD_CELLS` counts the fields a thread is reading and the arcs it is paging in. */
  function HeldIn(stack: Stack): nat {
    if stack.Empty? then 0
    else HeldIn(stack.rest) + if stack.top.FieldFrame? || stack.top.arcPc == Paging then 1 else 0
  }

  function Bottom(stack: Stack): Frame
    requires stack.Push?
  {
    if stack.rest.Empty? then stack.top else Bottom(stack.rest)
  }

  ghost predicate GateIs(s: State, g: GateId, k: Key) {
    g < |s.gates| && s.gates[g].key == k
  }

  ghost predicate FrameOk(s: State, t: ThreadId, frame: Frame) {
    match frame
    case FieldFrame(f, pc) => f < |s.fields| && (pc != Wanting ==> s.fields[f].initializer == Some(t))
    case ArcFrame(k, g, pc) =>
      && GateIs(s, g, k) && s.gates[g].owner == t
      && (s.gates[g].published <==> pc != Looking && !pc.Waiting?)
      && (pc.Waiting? ==> GateIs(s, pc.other, k) && s.gates[pc.other].published)
  }

  /** Fields are read only with nothing held, so they lie at the bottom; arcs nest downwards. */
  ghost predicate Linked(frame: Frame, rest: Stack) {
    rest.Push? ==> frame.ArcFrame? && Running(rest.top) && Nested(rest, frame.key)
  }

  ghost predicate StackOk(s: State, t: ThreadId, stack: Stack) {
    stack.Push? ==> FrameOk(s, t, stack.top) && Linked(stack.top, stack.rest) && StackOk(s, t, stack.rest)
  }

  ghost predicate ThreadOk(s: State, t: ThreadId)
    requires t < |s.threads|
  {
    StackOk(s, t, s.threads[t].stack) && s.threads[t].held == HeldIn(s.threads[t].stack)
  }

  ghost predicate AtBottom(s: State, t: ThreadId, f: FieldId, pc: FieldPc) {
    && t < |s.threads| && s.threads[t].stack.Push?
    && Bottom(s.threads[t].stack) == FieldFrame(f, pc)
  }

  /** The field's cells agree with where its initializing thread stands. */
  ghost predicate FieldOk(s: State, f: FieldId)
    requires f < |s.fields|
  {
    var x := s.fields[f];
    && x.loads == (if x.loader then 0 else 1)
    && match x.initializer
       case None => x.locked.None? && (x.loader <==> x.value.None?)
       case Some(t) =>
         && x.value.None?
         && (|| (x.locked.None? && x.loader && (AtBottom(s, t, f, Initializing) || AtBottom(s, t, f, Failing)))
             || (x.locked == Some(t) && x.loader && AtBottom(s, t, f, Loading))
             || (x.locked.None? && !x.loader && exists v :: AtBottom(s, t, f, Storing(v))))
  }

  ghost predicate SlotOk(s: State, k: Key)
    requires k in s.slots
  {
    s.slots[k].PagingIn? ==> GateIs(s, s.slots[k].gate, k) && s.gates[s.slots[k].gate].published
  }

  ghost predicate Inv(s: State) {
    && !s.noLoader
    && (forall t :: 0 <= t < |s.threads| ==> ThreadOk(s, t))
    && (forall f :: 0 <= f < |s.fields| ==> FieldOk(s, f))
    && (forall k :: k in s.slots ==> SlotOk(s, k))
  }

  // ----- Every step keeps it -----

  /** What a step of `t` leaves alone: other threads, what they initialize, and their gates. */
  ghost predicate Keeps(s: State, s2: State, t: ThreadId) {
    && |s2.threads| == |s.threads| && |s2.fields| == |s.fields| && |s2.gates| >= |s.gates|
    && (forall u :: 0 <= u < |s.threads| && u != t ==> s2.threads[u] == s.threads[u])
    && (forall f :: 0 <= f < |s.fields| ==> KeepsField(s.fields[f], s2.fields[f], t))
    && (forall g :: 0 <= g < |s.gates| ==> KeepsGate(s.gates[g], s2.gates[g], t))
  }

  ghost predicate KeepsField(x: Field, y: Field, t: ThreadId) {
    y == x || x.initializer == None || x.initializer == Some(t)
  }

  ghost predicate KeepsGate(x: Gate, y: Gate, t: ThreadId) {
    y.key == x.key && y.owner == x.owner && (x.published ==> y.published) && (x.owner != t ==> y == x)
  }

  lemma {:induction false} OtherStack(s: State, s2: State, t: ThreadId, u: ThreadId, stack: Stack)
    requires Keeps(s, s2, t) && u != t && StackOk(s, u, stack)
    ensures StackOk(s2, u, stack)
    decreases stack
  {
    hide Running, Nested;
    if stack.Push? {
      OtherStack(s, s2, t, u, stack.rest);
    }
  }

  lemma OtherThreads(s: State, s2: State, t: ThreadId)
    requires Inv(s) && Keeps(s, s2, t)
    ensures forall u :: 0 <= u < |s2.threads| && u != t ==> ThreadOk(s2, u)
  {
    hide FieldOk, SlotOk, StackOk, HeldIn;
    forall u | 0 <= u < |s2.threads| && u != t ensures ThreadOk(s2, u) {
      assert ThreadOk(s, u);
      OtherStack(s, s2, t, u, s.threads[u].stack);
    }
  }

  lemma {:induction false} OwnRest(s: State, s2: State, t: ThreadId, stack: Stack)
    requires Keeps(s, s2, t) && s2.fields == s.fields && StackOk(s, t, stack) && Runs(stack)
    ensures StackOk(s2, t, stack)
    decreases stack
  {
    hide Nested;
    if stack.Push? {
      OwnRest(s, s2, t, stack.rest);
    }
  }

  ghost predicate SameBottom(a: Stack, b: Stack) {
    a.Push? && Bottom(a).FieldFrame? ==> b.Push? && Bottom(b) == Bottom(a)
  }

  /** A step above a thread's field, or without one, keeps every field in order. */
  lemma FieldsKept(s: State, s2: State, t: ThreadId)
    requires Inv(s) && Keeps(s, s2, t) && s2.fields == s.fields && t < |s.threads|
    requires SameBottom(s.threads[t].stack, s2.threads[t].stack)
    ensures forall f :: 0 <= f < |s2.fields| ==> FieldOk(s2, f)
  {
    hide ThreadOk, SlotOk, Bottom, KeepsField, KeepsGate;
    forall f | 0 <= f < |s2.fields| ensures FieldOk(s2, f) {
      assert FieldOk(s, f);
      BottomKept(s, s2, t, f);
    }
  }

  lemma BottomKept(s: State, s2: State, t: ThreadId, f: FieldId)
    requires Keeps(s, s2, t) && t < |s.threads|
    requires SameBottom(s.threads[t].stack, s2.threads[t].stack)
    ensures forall u, pc :: AtBottom(s, u, f, pc) ==> AtBottom(s2, u, f, pc)
  {
    hide Bottom, KeepsField, KeepsGate;
  }

  lemma SlotsKept(s: State, s2: State, t: ThreadId)
    requires Inv(s) && Keeps(s, s2, t) && s2.slots == s.slots
    ensures forall k :: k in s2.slots ==> SlotOk(s2, k)
  {
    hide ThreadOk, FieldOk, KeepsField;
    forall k | k in s2.slots ensures SlotOk(s2, k) {
      assert SlotOk(s, k);
    }
  }

  /** A step of the field at the bottom of `t`'s stack leaves the other fields in order. */
  lemma OtherFields(s: State, s2: State, t: ThreadId, f: FieldId, pc: FieldPc)
    requires Inv(s) && Keeps(s, s2, t) && AtBottom(s, t, f, pc)
    requires forall i :: 0 <= i < |s.fields| && i != f ==> s2.fields[i] == s.fields[i]
    ensures forall i :: 0 <= i < |s2.fields| && i != f ==> FieldOk(s2, i)
  {
    hide ThreadOk, SlotOk, Bottom, KeepsField, KeepsGate;
    forall i | 0 <= i < |s2.fields| && i != f ensures FieldOk(s2, i) {
      assert FieldOk(s, i);
      forall u, q | AtBottom(s, u, i, q) ensures AtBottom(s2, u, i, q) {
        assert u != t;
      }
    }
  }

  lemma ReadKeeps(s: State, t: ThreadId, f: FieldId)
    requires Inv(s) && ReadStep(true, s, t, f).Some?
    ensures Inv(ReadStep(true, s, t, f).value)
  {
    hide FieldOk, SlotOk;
    var s2 := ReadStep(true, s, t, f).value;
    if s2 != s {
      assert ThreadOk(s, t);
      var stack := s.threads[t].stack;
      assert stack.Empty?;
      OtherThreads(s, s2, t);
      FieldsKept(s, s2, t);
      SlotsKept(s, s2, t);
      assert s2.threads[t].stack == Push(FieldFrame(f, Wanting), stack);
      assert HeldIn(stack) == 0 && StackOk(s2, t, stack);
      assert ThreadOk(s2, t);
    }
  }

  lemma FetchKeeps(s: State, t: ThreadId, k: Key)
    requires Inv(s) && FetchStep(s, t, k).Some?
    ensures Inv(FetchStep(s, t, k).value)
  {
    hide FieldOk, SlotOk;
    var s2 := FetchStep(s, t, k).value;
    assert ThreadOk(s, t);
    OtherThreads(s, s2, t);
    FieldsKept(s, s2, t);
    SlotsKept(s, s2, t);
    OwnRest(s, s2, t, s.threads[t].stack);
    assert ThreadOk(s2, t);
  }

  /** Where a field frame is on top, it is the whole stack. */
  lemma FieldStepKeeps(s: State, t: ThreadId, f: FieldId, pc: FieldPc, rest: Stack)
    requires Inv(s) && t < |s.threads| && s.threads[t].stack == Push(FieldFrame(f, pc), rest)
    requires FieldStep(s, t, f, pc, rest).Some?
    ensures Inv(FieldStep(s, t, f, pc, rest).value)
  {
    hide SlotOk;
    var s2 := FieldStep(s, t, f, pc, rest).value;
    assert ThreadOk(s, t) && FieldOk(s, f);
    assert rest.Empty?;
    assert AtBottom(s, t, f, pc);
    OtherThreads(s, s2, t);
    OtherFields(s, s2, t, f, pc);
    SlotsKept(s, s2, t);
    assert HeldIn(rest) == 0 && StackOk(s2, t, rest);
    assert ThreadOk(s2, t);
    assert FieldOk(s2, f);
  }

  lemma LoadedStepKeeps(s: State, t: ThreadId, f: FieldId, rest: Stack, ok: bool, v: Val)
    requires Inv(s) && t < |s.threads| && s.threads[t].stack == Push(FieldFrame(f, Loading), rest)
    requires LoadedStep(s, t, f, rest, ok, v).Some?
    ensures Inv(LoadedStep(s, t, f, rest, ok, v).value)
  {
    hide SlotOk;
    var s2 := LoadedStep(s, t, f, rest, ok, v).value;
    assert ThreadOk(s, t) && FieldOk(s, f);
    assert rest.Empty?;
    assert AtBottom(s, t, f, Loading);
    OtherThreads(s, s2, t);
    OtherFields(s, s2, t, f, Loading);
    SlotsKept(s, s2, t);
    assert HeldIn(rest) == 0 && StackOk(s2, t, rest);
    assert ThreadOk(s2, t);
    assert AtBottom(s2, t, f, if ok then Storing(v) else Failing);
    assert FieldOk(s2, f);
  }

  lemma ArcStepKeeps(s: State, t: ThreadId, k: Key, g: GateId, pc: ArcPc, rest: Stack)
    requires Inv(s) && t < |s.threads| && s.threads[t].stack == Push(ArcFrame(k, g, pc), rest)
    requires ArcStep(s, t, k, g, pc, rest).Some?
    ensures Inv(ArcStep(s, t, k, g, pc, rest).value)
  {
    hide FieldOk;
    var s2 := ArcStep(s, t, k, g, pc, rest).value;
    assert ThreadOk(s, t);
    OtherThreads(s, s2, t);
    FieldsKept(s, s2, t);
    OwnRest(s, s2, t, rest);
    assert ThreadOk(s2, t) by {
      assert k in s.slots ==> SlotOk(s, k);
    }
    forall j | j in s2.slots ensures SlotOk(s2, j) {
      assert j in s.slots ==> SlotOk(s, j);
    }
  }

  lemma PagedStepKeeps(s: State, t: ThreadId, k: Key, g: GateId, rest: Stack, ok: bool)
    requires Inv(s) && t < |s.threads| && s.threads[t].stack == Push(ArcFrame(k, g, Paging), rest)
    requires PagedStep(s, t, k, g, rest, ok).Some?
    ensures Inv(PagedStep(s, t, k, g, rest, ok).value)
  {
    hide FieldOk, SlotOk;
    var s2 := PagedStep(s, t, k, g, rest, ok).value;
    assert ThreadOk(s, t);
    OtherThreads(s, s2, t);
    FieldsKept(s, s2, t);
    SlotsKept(s, s2, t);
    OwnRest(s, s2, t, rest);
    assert ThreadOk(s2, t);
  }

  lemma NextKeeps(s: State, t: ThreadId, m: Move)
    requires Inv(s) && Next(true, s, t, m).Some?
    ensures Inv(Next(true, s, t, m).value)
  {
    hide Inv, ReadStep, FetchStep, FieldStep, LoadedStep, ArcStep, PagedStep;
    var stack := s.threads[t].stack;
    match m
    case Read(f) => ReadKeeps(s, t, f);
    case Fetch(k) => FetchKeeps(s, t, k);
    case Return(ok, v) =>
      if stack.top.FieldFrame? {
        LoadedStepKeeps(s, t, stack.top.f, stack.rest, ok, v);
      } else {
        PagedStepKeeps(s, t, stack.top.key, stack.top.gate, stack.rest, ok);
      }
    case Go =>
      if stack.top.FieldFrame? {
        FieldStepKeeps(s, t, stack.top.f, stack.top.fieldPc, stack.rest);
      } else {
        ArcStepKeeps(s, t, stack.top.key, stack.top.gate, stack.top.arcPc, stack.rest);
      }
  }

  lemma {:induction false} SameThreads(s: State, s2: State, t: ThreadId, stack: Stack)
    requires s2.fields == s.fields && s2.gates == s.gates && StackOk(s, t, stack)
    ensures StackOk(s2, t, stack)
    decreases stack
  {
    if stack.Push? {
      SameThreads(s, s2, t, stack.rest);
    }
  }

  /** The cache changing under the threads keeps the invariant. */
  lemma CacheKeeps(s: State, slots: map<Key, Slot>)
    requires Inv(s)
    requires forall k :: k in slots && slots[k].PagingIn? ==> k in s.slots && slots[k] == s.slots[k]
    ensures Inv(s.(slots := slots))
  {
    hide HeldIn, FrameOk, Linked;
    var s2 := s.(slots := slots);
    forall t | 0 <= t < |s2.threads| ensures ThreadOk(s2, t) {
      assert ThreadOk(s, t);
      SameThreads(s, s2, t, s.threads[t].stack);
    }
    forall f | 0 <= f < |s2.fields| ensures FieldOk(s2, f) {
      assert FieldOk(s, f);
      assert forall t, pc :: AtBottom(s, t, f, pc) ==> AtBottom(s2, t, f, pc);
    }
    forall k | k in s2.slots ensures SlotOk(s2, k) {
      assert k in s.slots ==> SlotOk(s, k);
    }
  }

  lemma StepKeeps(s: State, e: Event)
    requires Inv(s) && Step(true, s, e).Some?
    ensures Inv(Step(true, s, e).value)
  {
    hide Inv, Next;
    match e
    case Act(t, m) => NextKeeps(s, t, m);
    case Rebind(k, live) => CacheKeeps(s, s.slots[k := if live then Live else Dead]);
    case Drop(k) => CacheKeeps(s, s.slots - {k});
  }

  /** Whatever the threads and the cache do, in any order, the invariant holds. */
  lemma {:induction false} EveryRun(s: State, es: seq<Event>)
    requires (Initial(s) || Inv(s)) && Run(true, s, es).Some?
    ensures Inv(Run(true, s, es).value)
    decreases |es|
  {
    hide Step;
    assert Inv(s);
    hide Inv, Initial;
    if es != [] {
      StepKeeps(s, es[0]);
      EveryRun(Step(true, s, es[0]).value, es[1..]);
    }
  }

  // ----- Waiting -----

  ghost predicate Unfinished(s: State, t: ThreadId) {
    t < |s.threads| && s.threads[t].stack.Push?
  }

  /** Thread `t` is blocked on a cell that `u` owns. */
  ghost predicate WaitsFor(s: State, t: ThreadId, u: ThreadId) {
    && Unfinished(s, t)
    && match s.threads[t].stack.top
       case FieldFrame(f, Wanting) => f < |s.fields| && s.fields[f].value.None? && s.fields[f].initializer == Some(u)
       case FieldFrame(f, Initializing) => f < |s.fields| && s.fields[f].locked == Some(u)
       case ArcFrame(k, g, Waiting(other)) => GateHeld(s, other) && s.gates[other].owner == u
       case _ => false
  }

  /** An unfinished thread can move, or waits for a thread. */
  lemma MovesOrWaits(s: State, t: ThreadId) returns (m: Move, u: ThreadId)
    requires Inv(s) && Unfinished(s, t)
    ensures Next(true, s, t, m).Some? || WaitsFor(s, t, u)
  {
    hide FieldOk, SlotOk, HeldIn;
    assert ThreadOk(s, t);
    var top := s.threads[t].stack.top;
    m, u := Go, 0;
    if Running(top) {
      m := Return(false, 0);
    } else {
      match top
      case FieldFrame(f, pc) =>
        if pc.Wanting? && s.fields[f].initializer.Some? {
          u := s.fields[f].initializer.value;
        } else if pc.Initializing? && s.fields[f].locked.Some? {
          u := s.fields[f].locked.value;
        }
      case ArcFrame(k, g, pc) =>
        if pc.Waiting? && GateHeld(s, pc.other) {
          u := s.gates[pc.other].owner;
        }
    }
  }

  lemma WaitingCannotMove(s: State, t: ThreadId, u: ThreadId, m: Move)
    requires Inv(s) && WaitsFor(s, t, u)
    ensures Next(true, s, t, m).None?
  {
    hide FieldOk, SlotOk, HeldIn;
    assert ThreadOk(s, t);
  }

  /** An unfinished thread is stuck exactly when it waits for another thread. */
  lemma StuckIffWaiting(s: State, t: ThreadId)
    requires Inv(s) && Unfinished(s, t)
    ensures (forall m :: Next(true, s, t, m).None?) <==> exists u: ThreadId :: WaitsFor(s, t, u)
  {
    hide Inv, Next, WaitsFor;
    var m, u := MovesOrWaits(s, t);
    if w: ThreadId :| WaitsFor(s, t, w) {
      forall k ensures Next(true, s, t, k).None? {
        WaitingCannotMove(s, t, w, k);
      }
    }
  }

  /** A thread waiting on a field owns no cell: it initializes no field, holds no loader lock and
      no gate of the arc cache. */
  lemma FieldWaiterOwnsNothing(s: State, t: ThreadId)
    requires Inv(s) && Unfinished(s, t) && s.threads[t].stack.top.FieldFrame? && s.threads[t].stack.top.fieldPc == Wanting
    ensures forall f :: 0 <= f < |s.fields| ==> s.fields[f].initializer != Some(t) && s.fields[f].locked != Some(t)
    ensures forall g :: !Holds(s.threads[t].stack, g)
  {
    hide SlotOk, HeldIn;
    assert ThreadOk(s, t);
    var f0 := s.threads[t].stack.top.f;
    assert s.threads[t].stack == Push(FieldFrame(f0, Wanting), Empty);
    forall f | 0 <= f < |s.fields| ensures s.fields[f].initializer != Some(t) && s.fields[f].locked != Some(t) {
      assert FieldOk(s, f);
    }
  }

  /** Where a waiting thread stands: at a field, above every arc, or at an arc of some height. */
  function Level(s: State, t: ThreadId): (bool, nat)
    requires t < |s.threads| && s.threads[t].stack.Push?
  {
    var top := s.threads[t].stack.top;
    if top.FieldFrame? then (true, 0) else (false, top.key.height)
  }

  predicate Lower(a: (bool, nat), b: (bool, nat)) {
    (b.0 && !a.0) || (a.0 == b.0 && a.1 < b.1)
  }

  /** What lies under a frame of a stack is at least as high. */
  lemma {:induction false} HeldGateAbove(s: State, t: ThreadId, stack: Stack, g: GateId)
    requires StackOk(s, t, stack) && Holds(stack, g)
    ensures g < |s.gates| && stack.top.ArcFrame?
    ensures stack.top.gate == g || stack.top.key.height < s.gates[g].key.height
    decreases stack
  {
    if stack.top.ArcFrame? && stack.top.gate != g {
      HeldGateAbove(s, t, stack.rest, g);
    }
  }

  /** Waits only lead downwards: from fields to arcs, and from arcs to arcs nested below them. */
  lemma WaitsDescend(s: State, t: ThreadId, u: ThreadId, w: ThreadId)
    requires Inv(s) && WaitsFor(s, t, u) && WaitsFor(s, u, w)
    ensures Lower(Level(s, u), Level(s, t))
  {
    hide SlotOk, HeldIn;
    assert ThreadOk(s, t) && ThreadOk(s, u);
    match s.threads[t].stack.top
    case FieldFrame(f, pc) =>
      assert FieldOk(s, f);
      FieldWaitDescends(s, t, f, u, w);
    case ArcFrame(k, g, pc) =>
      HeldGateAbove(s, u, s.threads[u].stack, pc.other);
  }

  lemma FieldWaitDescends(s: State, t: ThreadId, f: FieldId, u: ThreadId, w: ThreadId)
    requires Inv(s) && WaitsFor(s, t, u) && WaitsFor(s, u, w)
    requires f < |s.fields| && s.threads[t].stack.top.FieldFrame? && s.threads[t].stack.top.f == f
    ensures Unfinished(s, u) && s.threads[u].stack.top.ArcFrame?
  {
    hide SlotOk, HeldIn;
    assert ThreadOk(s, t) && ThreadOk(s, u) && FieldOk(s, f);
    var stack := s.threads[u].stack;
    assert stack.rest.Empty? ==> Bottom(stack) == stack.top;
  }

  ghost predicate Chain(s: State, ts: seq<ThreadId>) {
    forall i, j :: 0 <= i < |ts| - 1 && j == i + 1 ==> WaitsFor(s, ts[i], ts[j])
  }

  lemma {:induction false} ChainDescends(s: State, ts: seq<ThreadId>, w: ThreadId)
    requires Inv(s) && Chain(s, ts) && |ts| >= 2 && WaitsFor(s, ts[|ts| - 1], w)
    ensures Unfinished(s, ts[0]) && Lower(Level(s, ts[|ts| - 1]), Level(s, ts[0]))
    decreases |ts|
  {
    hide Inv, WaitsFor, Level;
    assert WaitsFor(s, ts[0], ts[1]);
    WaiterUnfinished(s, ts[0], ts[1]);
    WaiterUnfinished(s, ts[|ts| - 1], w);
    if |ts| == 2 {
      WaitsDescend(s, ts[0], ts[1], w);
    } else {
      WaitsDescend(s, ts[0], ts[1], ts[2]);
      ChainDescends(s, ts[1..], w);
    }
  }

  lemma WaiterUnfinished(s: State, t: ThreadId, u: ThreadId)
    requires WaitsFor(s, t, u)
    ensures Unfinished(s, t)
  {
  }

  /** No threads wait for each other in a circle. */
  lemma NoWaitCycle(s: State, ts: seq<ThreadId>)
    requires Inv(s) && Chain(s, ts) && |ts| >= 2
    ensures ts[0] != ts[|ts| - 1]
  {
    if ts[0] == ts[|ts| - 1] {
      assert WaitsFor(s, ts[0], ts[1]);
      ChainDescends(s, ts, ts[1]);
    }
  }

  /** While any thread is inside a read or a page-in, some such thread can move: there is no
      deadlock. */
  lemma SomeoneMoves(s: State, t: ThreadId) returns (u: ThreadId, m: Move)
    requires Inv(s) && Unfinished(s, t)
    ensures Unfinished(s, u) && Next(true, s, u, m).Some?
    decreases Level(s, t).0, Level(s, t).1
  {
    hide Inv, Next, WaitsFor;
    var w;
    m, w := MovesOrWaits(s, t);
    u := t;
    if Next(true, s, t, m).None? {
      WaitedForUnfinished(s, t, w);
      var m2, w2 := MovesOrWaits(s, w);
      if Next(true, s, w, m2).Some? {
        u, m := w, m2;
      } else {
        WaitsDescend(s, t, w, w2);
        u, m := SomeoneMoves(s, w);
      }
    }
  }

  lemma WaitedForUnfinished(s: State, t: ThreadId, u: ThreadId)
    requires Inv(s) && WaitsFor(s, t, u)
    ensures Unfinished(s, u)
  {
    hide SlotOk, HeldIn;
    assert ThreadOk(s, t);
    match s.threads[t].stack.top
    case FieldFrame(f, pc) => assert FieldOk(s, f);
    case ArcFrame(k, g, pc) =>
  }

  /** In every state that any threads reach in any order: no thread found its loader gone, no field
      loaded twice, and no threads wait for each other in a circle. */
  lemma EveryReachableState(s0: State, es: seq<Event>)
    requires Initial(s0) && Run(true, s0, es).Some?
    ensures !Run(true, s0, es).value.noLoader
    ensures forall f :: 0 <= f < |Run(true, s0, es).value.fields| ==> Run(true, s0, es).value.fields[f].loads <= 1
    ensures forall ts :: |ts| >= 2 && Chain(Run(true, s0, es).value, ts) ==> ts[0] != ts[|ts| - 1]
  {
    hide Chain, Run, Initial;
    EveryRun(s0, es);
    var s := Run(true, s0, es).value;
    forall f | 0 <= f < |s.fields| ensures s.fields[f].loads <= 1 {
      LoadsAtMostOnce(s, f);
    }
    forall ts | |ts| >= 2 && Chain(s, ts) ensures ts[0] != ts[|ts| - 1] {
      NoWaitCycle(s, ts);
    }
  }

  /** And while any of them is unfinished, one can go on. */
  lemma NeverDeadlocks(s0: State, es: seq<Event>, t: ThreadId) returns (u: ThreadId, m: Move)
    requires Initial(s0) && Run(true, s0, es).Some? && Unfinished(Run(true, s0, es).value, t)
    ensures Unfinished(Run(true, s0, es).value, u) && Next(true, Run(true, s0, es).value, u, m).Some?
  {
    hide Inv, Next, Run, Initial;
    EveryRun(s0, es);
    u, m := SomeoneMoves(Run(true, s0, es).value, t);
  }

  // ----- Loads -----

  /** A field loads successfully at most once, a resolved one exactly once, and one that is neither
      resolved nor being loaded still has its loader, whatever failed before. */
  lemma LoadsAtMostOnce(s: State, f: FieldId)
    requires Inv(s) && f < |s.fields|
    ensures s.fields[f].loads <= 1
    ensures s.fields[f].value.Some? ==> s.fields[f].loads == 1
    ensures s.fields[f].value.None? && s.fields[f].initializer.None? ==> s.fields[f].loader && s.fields[f].locked.None?
  {
    assert FieldOk(s, f);
  }

  /** A resolved field keeps its value. */
  lemma ValueStays(s: State, e: Event, f: FieldId)
    requires Inv(s) && f < |s.fields| && s.fields[f].value.Some? && Step(true, s, e).Some?
    ensures f < |Step(true, s, e).value.fields| && Step(true, s, e).value.fields[f].value == s.fields[f].value
  {
    hide SlotOk, HeldIn;
    match e
    case Rebind(_, _) =>
    case Drop(_) =>
    case Act(t, m) =>
      assert ThreadOk(s, t) && FieldOk(s, f);
  }

  lemma {:induction false} ValueStaysForever(s: State, es: seq<Event>, f: FieldId)
    requires Inv(s) && f < |s.fields| && s.fields[f].value.Some? && Run(true, s, es).Some?
    ensures f < |Run(true, s, es).value.fields| && Run(true, s, es).value.fields[f].value == s.fields[f].value
    decreases |es|
  {
    hide Inv, Step;
    if es != [] {
      StepKeeps(s, es[0]);
      ValueStays(s, es[0], f);
      ValueStaysForever(Step(true, s, es[0]).value, es[1..], f);
    }
  }

  /** A field that is not resolved and not being loaded can be loaded by any idle thread, so a
      failed load may be retried. */
  lemma ColdFieldLoads(s: State, t: ThreadId, f: FieldId)
    requires Inv(s) && t < |s.threads| && s.threads[t].stack.Empty? && f < |s.fields|
    requires s.fields[f].value.None? && s.fields[f].initializer.None?
    ensures var a := Next(true, s, t, Read(f));
            && a.Some? && var b := Next(true, a.value, t, Go);
            && b.Some? && var c := Next(true, b.value, t, Go);
            c.Some? && c.value.threads[t].stack == Push(FieldFrame(f, Loading), Empty) && c.value.noLoader == s.noLoader
  {
    hide SlotOk;
    assert FieldOk(s, f) && ThreadOk(s, t);
  }

  // ----- Why cold reads are refused -----

  lemma {:induction false} RunJoins(refuse: bool, s: State, a: seq<Event>, b: seq<Event>)
    requires Run(refuse, s, a).Some?
    ensures Run(refuse, s, a + b) == Run(refuse, Run(refuse, s, a).value, b)
    decreases |a|
  {
    hide Step;
    if a == [] {
      assert a + b == b;
    } else {
      assert (a + b)[0] == a[0] && (a + b)[1..] == a[1..] + b;
      RunJoins(refuse, Step(refuse, s, a[0]).value, a[1..], b);
    }
  }

  lemma RunTwo(refuse: bool, s: State, a: Event, b: Event)
    requires Step(refuse, s, a).Some?
    ensures Run(refuse, s, [a, b]) == Step(refuse, Step(refuse, s, a).value, b)
  {
    hide Step;
    var s1 := Step(refuse, s, a).value;
    assert [a, b][1..] == [b];
    assert Run(refuse, s, [a, b]) == Run(refuse, s1, [b]);
    assert Step(refuse, s1, b).Some? ==> Run(refuse, s1, [b]) == Run(refuse, Step(refuse, s1, b).value, [b][1..]);
  }

  /** An idle thread becomes the one that loads a cold field. */
  function Loads(s: State, t: ThreadId, f: FieldId): State
    requires t < |s.threads| && f < |s.fields|
  {
    SetThread(s, t, Push(FieldFrame(f, Loading), Empty), 1)
    .(fields := s.fields[f := Field(None, Some(t), Some(t), true, 0)])
  }

  lemma StartsLoading(s: State, t: ThreadId, f: FieldId)
    requires t < |s.threads| && s.threads[t] == Thread(Empty, 0)
    requires f < |s.fields| && s.fields[f] == Field(None, None, None, true, 0)
    ensures Run(false, s, [Act(t, Read(f)), Act(t, Go), Act(t, Go)]) == Some(Loads(s, t, f))
  {
    var s1 := Next(false, s, t, Read(f)).value;
    var s2 := Next(false, s1, t, Go).value;
    var s3 := Next(false, s2, t, Go).value;
    assert s3.threads == Loads(s, t, f).threads && s3.fields == Loads(s, t, f).fields;
    RunTwo(false, s1, Act(t, Go), Act(t, Go));
    assert [Act(t, Read(f)), Act(t, Go), Act(t, Go)][1..] == [Act(t, Go), Act(t, Go)];
  }

  /** Without the refusal, two loaders that read each other's field block each other for good. */
  lemma UnrefusedReadsDeadlock() returns (s: State, es: seq<Event>, end: State)
    ensures Initial(s) && Run(false, s, es) == Some(end)
    ensures WaitsFor(end, 0, 1) && WaitsFor(end, 1, 0)
    ensures forall t, m :: Next(false, end, t, m).None?
  {
    var idle, cold := Thread(Empty, 0), Field(None, None, None, true, 0);
    s := State([idle, idle], [cold, cold], map[], [], false);
    var a, b := [Act(0, Read(0)), Act(0, Go), Act(0, Go)], [Act(1, Read(1)), Act(1, Go), Act(1, Go)];
    var c := [Act(0, Read(1)), Act(1, Read(0))];
    var s1 := Loads(s, 0, 0);
    var s2 := Loads(s1, 1, 1);
    end := CrossRead(s2);
    es := a + b + c;
    assert Run(false, s, es) == Some(end) by {
      hide Run, Step;
      StartsLoading(s, 0, 0);
      StartsLoading(s1, 1, 1);
      RunJoins(false, s, a, b);
      RunJoins(false, s, a + b, c);
    }
  }

  /** Two loaders each read the field the other is loading. */
  lemma CrossRead(s: State) returns (end: State)
    requires |s.threads| == 2 && |s.fields| == 2
    requires s.threads[0] == Thread(Push(FieldFrame(0, Loading), Empty), 1)
    requires s.threads[1] == Thread(Push(FieldFrame(1, Loading), Empty), 1)
    requires s.fields[0] == Field(None, Some(0), Some(0), true, 0) && s.fields[1] == Field(None, Some(1), Some(1), true, 0)
    ensures Run(false, s, [Act(0, Read(1)), Act(1, Read(0))]) == Some(end)
    ensures WaitsFor(end, 0, 1) && WaitsFor(end, 1, 0)
    ensures forall t, m :: Next(false, end, t, m).None?
  {
    RunTwo(false, s, Act(0, Read(1)), Act(1, Read(0)));
    var s1 := SetThread(s, 0, Push(FieldFrame(1, Wanting), s.threads[0].stack), 2);
    end := SetThread(s1, 1, Push(FieldFrame(0, Wanting), s.threads[1].stack), 2);
  }
}
