/** `PagableArc` and `PinnedPagableArc` under completed, uninterleaved operations. */
module PagableArc {
  import opened Options

  type Key = nat

  datatype Residency<+T> = Pinned(v: T) | Unpinned(v: T) | PagedOut

  /** The shared allocation: pin count, storage key, value, and how many unpinned handles
      have been handed to storage for paging out. */
  datatype Inner<+T> = Inner(count: nat, key: Option<Key>, value: Residency<T>, scheduled: nat)

  /** How a call that may fail ends: it may return an error, or stop the process. */
  datatype Outcome<+T> = Done(result: T) | Failed | Panicked {
    predicate IsFailure() {
      !Done?
    }

    function PropagateFailure<U>(): Outcome<U>
      requires IsFailure()
    {
      if Failed? then Failed else Panicked
    }

    function Extract(): T
      requires !IsFailure()
    {
      result
    }
  }

  // ----- What each operation does to the allocation -----

  function NewPinned<T>(v: T): Inner<T> {
    Inner(1, None, Pinned(v), 0)
  }

  function NewPagedOut<T>(key: Key): Inner<T> {
    Inner(0, Some(key), PagedOut, 0)
  }

  function TryPin<T>(value: Residency<T>): Residency<T> {
    match value
    case Pinned(v) => Pinned(v)
    case Unpinned(v) => Pinned(v)
    case PagedOut => PagedOut
  }

  function TryAllocPinned<T>(i: Inner<T>): (r: (bool, Inner<T>)) {
    if i.count > 0 then (true, i.(count := i.count + 1))
    else if TryPin(i.value).Pinned? then (true, i.(count := i.count + 1, value := TryPin(i.value)))
    else (false, i)
  }

  /** Where count and value agree, trying succeeds exactly while the value is in memory. */
  lemma TryAllocPinnedEffect<T>(i: Inner<T>)
    requires i.value.Pinned? <==> i.count > 0
    ensures TryAllocPinned(i) ==
            if i.value.PagedOut? then (false, i) else (true, i.(count := i.count + 1, value := Pinned(i.value.v)))
  {
  }

  function AllocPinned<T>(i: Inner<T>, storage: map<Key, T>): Outcome<Inner<T>> {
    var (ok, j) := TryAllocPinned(i);
    if ok then Done(j)
    else if i.key.None? then Panicked
    else if i.key.value !in storage then Failed
    else Done(i.(count := i.count + 1, value := Pinned(storage[i.key.value])))
  }

  /** Allocating a pin fails only for a paged-out value that storage lost; otherwise it adds one
      pin and leaves the value resident. */
  lemma AllocPinnedEffect<T>(i: Inner<T>, storage: map<Key, T>)
    requires (i.value.Pinned? <==> i.count > 0) && (i.value.PagedOut? ==> i.key.Some?)
    ensures AllocPinned(i, storage) ==
            if !i.value.PagedOut? then Done(i.(count := i.count + 1, value := Pinned(i.value.v)))
            else if i.key.value in storage then
              Done(i.(count := i.count + 1, value := Pinned(storage[i.key.value])))
            else Failed
  {
  }

  function AddPinnedUnchecked<T>(i: Inner<T>): Outcome<Inner<T>> {
    if i.count >= 1 then Done(i.(count := i.count + 1)) else Panicked
  }

  /** The transition of `release_pin` once the count has dropped to zero. */
  function Evict<T>(i: Inner<T>): Outcome<Inner<T>> {
    if i.key.Some? then Done(i.(value := PagedOut))
    else if i.value.Pinned? then Done(i.(value := Unpinned(i.value.v), scheduled := i.scheduled + 1))
    else Panicked
  }

  function ReleasePin<T>(i: Inner<T>): Outcome<Inner<T>> {
    if i.count == 0 then Panicked
    else if i.count == 1 then Evict(i.(count := 0))
    else Done(i.(count := i.count - 1))
  }

  function SetDataKey<T>(i: Inner<T>, key: Key): Inner<T> {
    i.(key := Some(key), value := if i.value.Pinned? then i.value else PagedOut)
  }

  // ----- Handles -----

  type Handle = nat

  /** An allocation with its live handles: each `PagableArc` with its pinned flag, and the
      live `PinnedPagableArc`s. */
  datatype World<+T> = World(inner: Inner<T>, arcs: map<Handle, bool>, pins: set<Handle>)

  datatype Op =
    | CloneArc(h: Handle, n: Handle)
    | Pin(h: Handle, n: Handle)
    | Unpin(h: Handle)
    | DropArc(h: Handle)
    | Downgrade(n: Handle)
    | UpgradeWeak(n: Handle)
    | ClonePin(p: Handle, n: Handle)
    | IntoPagable(p: Handle, n: Handle)
    | DropPin(p: Handle)
    | SetKey(key: Key)

  /** Ownership: an operation is called on a live handle and its result is a new one. */
  predicate Allowed(arcs: map<Handle, bool>, pins: set<Handle>, op: Op) {
    match op
    case CloneArc(h, n) => h in arcs && n !in arcs
    case Pin(h, n) => h in arcs && n !in pins
    case Unpin(h) => h in arcs
    case DropArc(h) => h in arcs
    case Downgrade(n) => n !in arcs
    case UpgradeWeak(n) => n !in pins
    case ClonePin(p, n) => p in pins && n !in pins
    case IntoPagable(p, n) => p in pins && n !in arcs
    case DropPin(p) => p in pins
    case SetKey(_) => true
  }

  predicate Enabled<T>(w: World<T>, op: Op) {
    Allowed(w.arcs, w.pins, op)
  }

  function Apply<T>(w: World<T>, storage: map<Key, T>, op: Op): Outcome<World<T>>
    requires Enabled(w, op)
  {
    match op
    case CloneArc(h, n) =>
      if w.arcs[h] then
        var (ok, i) := TryAllocPinned(w.inner);
        Done(w.(inner := i, arcs := w.arcs[n := ok]))
      else Done(w.(arcs := w.arcs[n := false]))
    case Pin(h, n) =>
      var i :- AllocPinned(w.inner, storage);
      if w.arcs[h] then Done(w.(inner := i, pins := w.pins + {n}))
      else
        var j :- AddPinnedUnchecked(i);
        Done(World(j, w.arcs[h := true], w.pins + {n}))
    case Unpin(h) =>
      if w.arcs[h] then
        var i :- ReleasePin(w.inner);
        Done(w.(inner := i, arcs := w.arcs[h := false]))
      else Done(w)
    case DropArc(h) =>
      if w.arcs[h] then
        var i :- ReleasePin(w.inner);
        Done(w.(inner := i, arcs := w.arcs - {h}))
      else Done(w.(arcs := w.arcs - {h}))
    case Downgrade(n) => Done(w.(arcs := w.arcs[n := false]))
    case UpgradeWeak(n) =>
      var (ok, i) := TryAllocPinned(w.inner);
      Done(w.(inner := i, pins := if ok then w.pins + {n} else w.pins))
    case ClonePin(p, n) =>
      var i :- AddPinnedUnchecked(w.inner);
      Done(w.(inner := i, pins := w.pins + {n}))
    case IntoPagable(p, n) =>
      var i :- AddPinnedUnchecked(w.inner);
      var j :- ReleasePin(i);
      Done(World(j, w.arcs[n := true], w.pins - {p}))
    case DropPin(p) =>
      var i :- ReleasePin(w.inner);
      Done(w.(inner := i, pins := w.pins - {p}))
    case SetKey(k) => Done(w.(inner := SetDataKey(w.inner, k)))
  }

  // ----- What the handles say -----

  function PinnedArcs(arcs: map<Handle, bool>): set<Handle> {
    set h | h in arcs && arcs[h]
  }

  /** The same operations without count and value: who is pinned, the last key set, and how often the
      last pin went while there was none. */
  datatype Owners = Owners(arcs: map<Handle, bool>, pins: set<Handle>, key: Option<Key>, scheduled: nat) {
    predicate AnyPinned() {
      pins != {} || PinnedArcs(arcs) != {}
    }

    /** Nobody has it pinned and storage has it. */
    predicate Out() {
      !AnyPinned() && key.Some?
    }
  }

  /** What an operation does to the handles. */
  function Moved(o: Owners, op: Op): Owners
    requires Allowed(o.arcs, o.pins, op)
  {
    match op
    case CloneArc(h, n) => o.(arcs := o.arcs[n := o.arcs[h]])
    case Pin(h, n) => o.(arcs := o.arcs[h := true], pins := o.pins + {n})
    case Unpin(h) => o.(arcs := o.arcs[h := false])
    case DropArc(h) => o.(arcs := o.arcs - {h})
    case Downgrade(n) => o.(arcs := o.arcs[n := false])
    case UpgradeWeak(n) => if o.Out() then o else o.(pins := o.pins + {n})
    case ClonePin(_, n) => o.(pins := o.pins + {n})
    case IntoPagable(p, n) => o.(arcs := o.arcs[n := true], pins := o.pins - {p})
    case DropPin(p) => o.(pins := o.pins - {p})
    case SetKey(k) => o.(key := Some(k))
  }

  /** Pinning what storage has lost fails; losing the last pin without a key is noted. */
  function After<T>(o: Owners, storage: map<Key, T>, op: Op): Option<Owners>
    requires Allowed(o.arcs, o.pins, op)
  {
    var n := Moved(o, op);
    if op.Pin? && o.Out() && o.key.value !in storage then None
    else if o.AnyPinned() && !n.AnyPinned() && o.key.None? then Some(n.(scheduled := o.scheduled + 1))
    else Some(n)
  }

  function OwnersOf<T>(w: World<T>): Owners {
    Owners(w.arcs, w.pins, w.inner.key, w.inner.scheduled)
  }

  /** Where the value is: resident while somebody has it pinned, and otherwise in storage if that has
      a key for it. */
  function Residence<T>(o: Owners, original: T): Residency<T> {
    if o.AnyPinned() then Pinned(original) else if o.key.Some? then PagedOut else Unpinned(original)
  }

  // ----- The invariant -----

  /** Count and value are what the handles say, and storage has the original value if any. */
  ghost predicate Inv<T>(w: World<T>, storage: map<Key, T>, original: T) {
    && w.inner.count == |PinnedArcs(w.arcs)| + |w.pins|
    && w.inner.value == Residence(OwnersOf(w), original)
    && (w.inner.key.Some? && w.inner.key.value in storage ==> storage[w.inner.key.value] == original)
  }

  /** Storage assigns this allocation only keys that it maps to the original value. */
  predicate Faithful<T(==)>(storage: map<Key, T>, original: T, op: Op) {
    op.SetKey? && op.key in storage ==> storage[op.key] == original
  }

  lemma PinnedArcsUpdate(arcs: map<Handle, bool>, h: Handle, b: bool)
    ensures h in arcs && arcs[h] == b ==> PinnedArcs(arcs[h := b]) == PinnedArcs(arcs)
    ensures (h !in arcs || !arcs[h]) && b ==> |PinnedArcs(arcs[h := b])| == |PinnedArcs(arcs)| + 1
    ensures (h !in arcs || !arcs[h]) && !b ==> PinnedArcs(arcs[h := b]) == PinnedArcs(arcs)
    ensures h in arcs && arcs[h] ==>
              |PinnedArcs(arcs)| > 0 && (!b ==> |PinnedArcs(arcs[h := b])| == |PinnedArcs(arcs)| - 1)
    ensures h in arcs ==>
              |PinnedArcs(arcs - {h})| == |PinnedArcs(arcs)| - if arcs[h] then 1 else 0
  {
    var p := PinnedArcs(arcs);
    if b {
      assert PinnedArcs(arcs[h := b]) == p + {h};
    } else {
      assert PinnedArcs(arcs[h := b]) == p - {h};
    }
    if h in arcs {
      assert PinnedArcs(arcs - {h}) == p - {h};
    }
  }

  ghost predicate KeepsInv<T>(w: World<T>, storage: map<Key, T>, original: T, op: Op)
    requires Enabled(w, op)
  {
    match Apply(w, storage, op)
    case Done(u) => Inv(u, storage, original) && After(OwnersOf(w), storage, op) == Some(OwnersOf(u))
    case Failed => After(OwnersOf(w), storage, op) == None
    case Panicked => false
  }

  /** Some handle is pinned exactly when the count is positive. */
  lemma CountTells<T>(w: World<T>)
    requires w.inner.count == |PinnedArcs(w.arcs)| + |w.pins|
    ensures OwnersOf(w).AnyPinned() <==> w.inner.count > 0
  {
  }

  lemma ArcOpKeepsInv<T>(w: World<T>, storage: map<Key, T>, original: T, op: Op)
    requires Inv(w, storage, original) && Enabled(w, op)
    requires op.CloneArc? || op.Unpin? || op.DropArc? || op.Downgrade?
    ensures KeepsInv(w, storage, original, op)
  {
    match op
    case CloneArc(h, n) =>
      PinnedArcsUpdate(w.arcs, n, w.arcs[h]);
      PinnedArcsUpdate(w.arcs, h, w.arcs[h]);
    case Unpin(h) =>
      PinnedArcsUpdate(w.arcs, h, false);
      assert w.arcs[h := w.arcs[h]] == w.arcs;
    case DropArc(h) => PinnedArcsUpdate(w.arcs, h, false);
    case Downgrade(n) => PinnedArcsUpdate(w.arcs, n, false);
  }

  lemma PinKeepsInv<T>(w: World<T>, storage: map<Key, T>, original: T, op: Op)
    requires Inv(w, storage, original) && Enabled(w, op) && op.Pin?
    ensures KeepsInv(w, storage, original, op)
  {
    hide PinnedArcs, Owners.AnyPinned, AllocPinned;
    CountTells(w);
    AllocPinnedEffect(w.inner, storage);
    PinnedArcsUpdate(w.arcs, op.h, true);
    assert |w.pins + {op.n}| == |w.pins| + 1;
    assert w.arcs[op.h := w.arcs[op.h]] == w.arcs;
    match Apply(w, storage, op)
    case Done(u) => CountTells(u);
    case Failed =>
  }

  lemma UpgradeKeepsInv<T>(w: World<T>, storage: map<Key, T>, original: T, op: Op)
    requires Inv(w, storage, original) && Enabled(w, op) && op.UpgradeWeak?
    ensures KeepsInv(w, storage, original, op)
  {
    hide PinnedArcs, TryAllocPinned, ReleasePin, AllocPinned, AddPinnedUnchecked;
    CountTells(w);
    TryAllocPinnedEffect(w.inner);
    assert |w.pins + {op.n}| == |w.pins| + 1;
  }

  lemma ClonePinKeepsInv<T>(w: World<T>, storage: map<Key, T>, original: T, op: Op)
    requires Inv(w, storage, original) && Enabled(w, op) && op.ClonePin?
    ensures KeepsInv(w, storage, original, op)
  {
    hide PinnedArcs, TryAllocPinned, ReleasePin, AllocPinned;
    CountTells(w);
    assert |w.pins - {op.p}| == |w.pins| - 1;
    assert |w.pins + {op.n}| == |w.pins| + 1;
  }

  lemma DropPinKeepsInv<T>(w: World<T>, storage: map<Key, T>, original: T, op: Op)
    requires Inv(w, storage, original) && Enabled(w, op) && op.DropPin?
    ensures KeepsInv(w, storage, original, op)
  {
    hide PinnedArcs, TryAllocPinned, AllocPinned, AddPinnedUnchecked;
    CountTells(w);
    assert |w.pins - {op.p}| == |w.pins| - 1;
  }

  lemma IntoPagableKeepsInv<T>(w: World<T>, storage: map<Key, T>, original: T, op: Op)
    requires Inv(w, storage, original) && Enabled(w, op) && op.IntoPagable?
    ensures KeepsInv(w, storage, original, op)
  {
    PinnedArcsUpdate(w.arcs, op.n, true);
    CountTells(w);
  }

  /** Every operation does to the handles what it says and keeps count and value in order, none of the
      asserts and unwraps on its way fails, and only pinning a value that storage has lost returns an
      error. */
  lemma ApplyKeepsInv<T>(w: World<T>, storage: map<Key, T>, original: T, op: Op)
    requires Inv(w, storage, original) && Enabled(w, op) && Faithful(storage, original, op)
    ensures KeepsInv(w, storage, original, op)
  {
    match op
    case Pin(_, _) =>
      hide *;
      PinKeepsInv(w, storage, original, op);
    case IntoPagable(_, _) =>
      hide *;
      IntoPagableKeepsInv(w, storage, original, op);
    case SetKey(_) =>
    case UpgradeWeak(_) =>
      hide *;
      UpgradeKeepsInv(w, storage, original, op);
    case ClonePin(_, _) =>
      hide *;
      ClonePinKeepsInv(w, storage, original, op);
    case DropPin(_) =>
      hide *;
      DropPinKeepsInv(w, storage, original, op);
    case _ =>
      hide *;
      ArcOpKeepsInv(w, storage, original, op);
  }

  // ----- Whole runs -----

  /** `u` results from `w` by performing `ops`; failed pins leave everything as it was. */
  ghost predicate Run<T>(w: World<T>, storage: map<Key, T>, original: T, ops: seq<Op>, u: World<T>)
    decreases |ops|
  {
    if ops == [] then u == w
    else
      && Enabled(w, ops[0]) && Faithful(storage, original, ops[0])
      && match Apply(w, storage, ops[0])
         case Done(n) => Run(n, storage, original, ops[1..], u)
         case Failed => Run(w, storage, original, ops[1..], u)
         case Panicked => true
  }

  function FirstArc<T>(v: T): World<T> {
    World(NewPinned(v), map[0 := true], {})
  }

  function FirstPin<T>(v: T): World<T> {
    World(NewPinned(v), map[], {0})
  }

  function FirstPagedOut<T>(key: Key): World<T> {
    World(NewPagedOut(key), map[0 := false], {})
  }

  /** What `ops` do to the handles. */
  ghost predicate AfterAll<T>(o: Owners, storage: map<Key, T>, ops: seq<Op>, n: Owners)
    decreases |ops|
  {
    if ops == [] then n == o
    else
      && Allowed(o.arcs, o.pins, ops[0])
      && var next := After(o, storage, ops[0]);
         AfterAll(if next.Some? then next.value else o, storage, ops[1..], n)
  }

  lemma {:induction false} RunKeepsInv<T>(w: World<T>, storage: map<Key, T>, original: T, ops: seq<Op>, u: World<T>)
    requires Inv(w, storage, original) && Run(w, storage, original, ops, u)
    ensures Inv(u, storage, original) && AfterAll(OwnersOf(w), storage, ops, OwnersOf(u))
    decreases |ops|
  {
    hide Inv, Apply, After;
    if ops != [] {
      ApplyKeepsInv(w, storage, original, ops[0]);
      match Apply(w, storage, ops[0])
      case Done(n) => RunKeepsInv(n, storage, original, ops[1..], u);
      case Failed => RunKeepsInv(w, storage, original, ops[1..], u);
    }
  }

  /** The last key set. */
  function LastKey(key: Option<Key>, ops: seq<Op>): Option<Key> {
    if ops == [] then key
    else if ops[|ops| - 1].SetKey? then Some(ops[|ops| - 1].key)
    else LastKey(key, ops[..|ops| - 1])
  }

  lemma {:induction false} LastKeyThen(key: Option<Key>, ops: seq<Op>)
    requires ops != []
    ensures LastKey(key, ops) == LastKey(if ops[0].SetKey? then Some(ops[0].key) else key, ops[1..])
    decreases |ops|
  {
    if |ops| > 1 {
      LastKeyThen(key, ops[..|ops| - 1]);
      assert ops[1..][..|ops| - 2] == ops[..|ops| - 1][1..];
    } else {
      assert ops[..0] == [] && ops[1..] == [];
    }
  }

  lemma {:induction false} KeyIsLast<T>(o: Owners, storage: map<Key, T>, ops: seq<Op>, n: Owners)
    requires AfterAll(o, storage, ops, n)
    ensures n.key == LastKey(o.key, ops)
    decreases |ops|
  {
    if ops != [] {
      var next := After(o, storage, ops[0]);
      KeyIsLast(if next.Some? then next.value else o, storage, ops[1..], n);
      LastKeyThen(o.key, ops);
    }
  }

  lemma FirstInv<T>(v: T, key: Key, storage: map<Key, T>)
    requires key in storage ==> storage[key] == v
    ensures Inv(FirstArc(v), storage, v) && Inv(FirstPin(v), storage, v) && Inv(FirstPagedOut(key), storage, v)
  {
    assert PinnedArcs(map[0 := true]) == {0};
    assert PinnedArcs(map[0 := false]) == {} && PinnedArcs(map[]) == {};
  }

  /** After every sequence of operations the handles are what the operations made them, the pin count
      is the number of pinned ones, the key is the last one set, and the value is the one the
      allocation was created with, resident while any handle is pinned; once the last pin is gone it is
      in storage if a key was set and unpinned if not. */
  lemma EveryRun<T>(v: T, key: Key, storage: map<Key, T>, ops: seq<Op>, w: World<T>, u: World<T>)
    requires w == FirstArc(v) || w == FirstPin(v) || w == FirstPagedOut(key)
    requires key in storage ==> storage[key] == v
    requires Run(w, storage, v, ops, u)
    ensures AfterAll(OwnersOf(w), storage, ops, OwnersOf(u))
    ensures u.inner.count == |PinnedArcs(u.arcs)| + |u.pins| && u.inner.key == LastKey(w.inner.key, ops)
    ensures forall p :: p in u.pins ==> u.inner.value == Pinned(v)
    ensures forall h :: h in u.arcs && u.arcs[h] ==> u.inner.value == Pinned(v)
    ensures u.inner.count == 0 ==> u.inner.value == if LastKey(w.inner.key, ops).Some? then PagedOut else Unpinned(v)
  {
    hide Run, AfterAll, LastKey;
    FirstInv(v, key, storage);
    RunKeepsInv(w, storage, v, ops, u);
    KeyIsLast(OwnersOf(w), storage, ops, OwnersOf(u));
    forall h | h in u.arcs && u.arcs[h] ensures u.inner.value == Pinned(v) {
      assert h in PinnedArcs(u.arcs);
    }
  }
}
