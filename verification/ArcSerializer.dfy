/** The inline arc serializer of `pagable/src/testing.rs`: it writes each shared allocation once,
    and reading the words back rebuilds the same graph with the same sharing. */
module ArcSerializer {
  import opened Options

  type TypeId = nat
  type Identity = nat
  type Address = nat

  /** An arc as the serializer sees it: its type and its address. */
  datatype Ref = Ref(ty: TypeId, id: Identity)

  /** The contents of a value: plain data with arcs among it. */
  datatype Value =
    | Num(n: nat)
    | Unit
    | Pair(left: Value, right: Value)
    | Alt(second: bool, payload: Value)
    | List(items: seq<Value>)
    | Arc(ref: Ref)

  /** What a type's deserializer expects to find. */
  datatype Shape =
    | NumShape
    | UnitShape
    | PairShape(left: Shape, right: Shape)
    | AltShape(first: Shape, second: Shape)
    | ListShape(item: Shape)
    | ArcShape(ty: TypeId)

  type Schema = map<TypeId, Shape>

  predicate Conforms(v: Value, s: Shape) {
    match (v, s)
    case (Num(_), NumShape) => true
    case (Unit, UnitShape) => true
    case (Pair(a, b), PairShape(p, q)) => Conforms(a, p) && Conforms(b, q)
    case (Alt(second, w), AltShape(p, q)) => Conforms(w, if second then q else p)
    case (List(items), ListShape(p)) => forall i :: 0 <= i < |items| ==> Conforms(items[i], p)
    case (Arc(ref), ArcShape(ty)) => ref.ty == ty
    case _ => false
  }

  /** The arcs in memory. `heap` has the contents of those that serialize inline; an arc outside it
      answers with the key of a stored copy. `rank` orders the arcs. */
  datatype World = World(heap: map<Ref, Value>, schema: Schema, rank: Ref -> nat) {
    /** Allocations only hold arcs ranked below them, so no arc reaches itself; each holds what its
        type says. */
    predicate Acyclic() {
      forall k :: k in heap ==> k.ty in schema && Conforms(heap[k], schema[k.ty]) && Below(heap[k], rank(k))
    }

    /** Every arc `v` holds is below `bound` in the order. */
    predicate Below(v: Value, bound: nat) {
      match v
      case Num(_) => true
      case Unit => true
      case Pair(a, b) => Below(a, bound) && Below(b, bound)
      case Alt(_, p) => Below(p, bound)
      case List(items) => forall i :: 0 <= i < |items| ==> Below(items[i], bound)
      case Arc(k) => rank(k) < bound
    }
  }

  // ----- Writing -----

  datatype Writer = Writer(output: seq<nat>, seen: set<Ref>, arcCount: nat) {
    function Put(n: nat): Writer {
      this.(output := output + [n])
    }

    function Mark(k: Ref): Writer {
      this.(seen := seen + {k})
    }

    function Count(): Writer {
      this.(arcCount := arcCount + 1)
    }
  }

  ghost function Write(x: World, bound: nat, v: Value, w: Writer): Option<Writer>
    requires x.Acyclic() && x.Below(v, bound)
    decreases bound, v
  {
    match v
    case Num(n) => Some(w.Put(n))
    case Unit => Some(w)
    case Pair(a, b) =>
      var w1 := Write(x, bound, a, w);
      if w1.None? then None else Write(x, bound, b, w1.value)
    case Alt(second, p) => Write(x, bound, p, w.Put(if second then 1 else 0))
    case List(items) => WriteAll(x, bound, items, w.Put(|items|))
    case Arc(k) =>
      if k in w.seen then Some(w.Put(k.id).Count())
      else if k !in x.heap then None
      else
        var w1 := Write(x, x.rank(k), x.heap[k], w.Put(k.id).Mark(k));
        if w1.None? then None else Some(w1.value.Count())
  }

  ghost function WriteAll(x: World, bound: nat, vs: seq<Value>, w: Writer): Option<Writer>
    requires x.Acyclic() && forall i :: 0 <= i < |vs| ==> x.Below(vs[i], bound)
    decreases bound, vs
  {
    if vs == [] then Some(w)
    else
      var w1 := Write(x, bound, vs[0], w);
      if w1.None? then None else WriteAll(x, bound, vs[1..], w1.value)
  }

  // ----- Reading -----

  /** A rebuilt value: arcs are addresses of new allocations. */
  datatype Rebuilt =
    | RNum(n: nat)
    | RUnit
    | RPair(left: Rebuilt, right: Rebuilt)
    | RAlt(second: bool, payload: Rebuilt)
    | RList(items: seq<Rebuilt>)
    | RArc(address: Address)

  datatype Allocation = Allocation(ty: TypeId, contents: Rebuilt)

  datatype Reader = Reader(pos: nat, seen: map<Ref, Address>, allocs: seq<Allocation>, arcIndex: nat) {
    function Next(): Reader {
      this.(pos := pos + 1)
    }

    function NextArc(): Reader {
      this.(pos := pos + 1, arcIndex := arcIndex + 1)
    }

    function Allocate(k: Ref, contents: Rebuilt): Reader {
      this.(allocs := allocs + [Allocation(k.ty, contents)], seen := seen[k := |allocs|])
    }
  }

  function Read(schema: Schema, s: Shape, bytes: seq<nat>, r: Reader): (o: Option<(Rebuilt, Reader)>)
    requires r.pos <= |bytes|
    ensures o.Some? ==> r.pos <= o.value.1.pos <= |bytes|
    decreases |bytes| - r.pos, s, 0
  {
    match s
    case NumShape =>
      if r.pos == |bytes| then None else Some((RNum(bytes[r.pos]), r.Next()))
    case UnitShape => Some((RUnit, r))
    case PairShape(p, q) =>
      var a := Read(schema, p, bytes, r);
      if a.None? then None else
      var b := Read(schema, q, bytes, a.value.1);
      if b.None? then None else Some((RPair(a.value.0, b.value.0), b.value.1))
    case AltShape(p, q) =>
      if r.pos == |bytes| || bytes[r.pos] > 1 then None else
      var second := bytes[r.pos] == 1;
      var a := Read(schema, if second then q else p, bytes, r.Next());
      if a.None? then None else Some((RAlt(second, a.value.0), a.value.1))
    case ListShape(p) =>
      if r.pos == |bytes| then None else
      var a := ReadAll(schema, p, bytes[r.pos], bytes, r.Next());
      if a.None? then None else Some((RList(a.value.0), a.value.1))
    case ArcShape(ty) =>
      if r.pos == |bytes| then None else
      var k := Ref(ty, bytes[r.pos]);
      if k in r.seen then Some((RArc(r.seen[k]), r.NextArc()))
      else if ty !in schema then None
      else
        var a := Read(schema, schema[ty], bytes, r.NextArc());
        if a.None? then None else
        Some((RArc(|a.value.1.allocs|), a.value.1.Allocate(k, a.value.0)))
  }

  function ReadAll(schema: Schema, s: Shape, count: nat, bytes: seq<nat>, r: Reader)
    : (o: Option<(seq<Rebuilt>, Reader)>)
    requires r.pos <= |bytes|
    ensures o.Some? ==> r.pos <= o.value.1.pos <= |bytes|
    decreases |bytes| - r.pos, s, count + 1
  {
    if count == 0 then Some(([], r))
    else
      var a := Read(schema, s, bytes, r);
      if a.None? then None else
      var b := ReadAll(schema, s, count - 1, bytes, a.value.1);
      if b.None? then None else Some(([a.value.0] + b.value.0, b.value.1))
  }

  // ----- Isomorphism -----

  /** Every arc `v` holds has been rebuilt. */
  ghost predicate Known(v: Value, to: map<Ref, Address>) {
    match v
    case Num(_) => true
    case Unit => true
    case Pair(a, b) => Known(a, to) && Known(b, to)
    case Alt(_, p) => Known(p, to)
    case List(items) => AllKnown(items, to)
    case Arc(k) => k in to
  }

  ghost predicate AllKnown(vs: seq<Value>, to: map<Ref, Address>) {
    forall i :: 0 <= i < |vs| ==> Known(vs[i], to)
  }

  /** `v` with every arc replaced by the allocation it became. */
  ghost function Rename(v: Value, to: map<Ref, Address>): Rebuilt
    requires Known(v, to)
  {
    match v
    case Num(n) => RNum(n)
    case Unit => RUnit
    case Pair(a, b) => RPair(Rename(a, to), Rename(b, to))
    case Alt(second, w) => RAlt(second, Rename(w, to))
    case List(items) => RList(RenameAll(items, to))
    case Arc(k) => RArc(to[k])
  }

  ghost function RenameAll(vs: seq<Value>, to: map<Ref, Address>): seq<Rebuilt>
    requires AllKnown(vs, to)
  {
    if vs == [] then [] else [Rename(vs[0], to)] + RenameAll(vs[1..], to)
  }

  ghost predicate Extends(to: map<Ref, Address>, from: map<Ref, Address>) {
    forall k :: k in from ==> k in to && to[k] == from[k]
  }

  lemma {:induction false} RenameStable(v: Value, from: map<Ref, Address>, to: map<Ref, Address>)
    requires Known(v, from) && Extends(to, from)
    ensures Known(v, to) && Rename(v, to) == Rename(v, from)
    decreases v
  {
    match v
    case Num(_) =>
    case Unit =>
    case Pair(a, b) =>
      RenameStable(a, from, to);
      RenameStable(b, from, to);
    case Alt(_, p) => RenameStable(p, from, to);
    case List(items) => RenameAllStable(items, from, to);
    case Arc(k) =>
  }

  lemma {:induction false} RenameAllStable(vs: seq<Value>, from: map<Ref, Address>, to: map<Ref, Address>)
    requires AllKnown(vs, from) && Extends(to, from)
    ensures AllKnown(vs, to) && RenameAll(vs, to) == RenameAll(vs, from)
    decreases vs
  {
    if vs != [] {
      RenameStable(vs[0], from, to);
      RenameAllStable(vs[1..], from, to);
      assert vs == [vs[0]] + vs[1..];
    }
  }

  /** What has been rebuilt so far: one allocation per arc, holding that arc's type and contents,
      and no two arcs sharing one. */
  ghost predicate Faithful(x: World, r: Reader) {
    && |r.allocs| == |r.seen|
    && (forall k {:trigger RebuiltAt(x, r, k)} :: k in r.seen ==> RebuiltAt(x, r, k))
    && (forall j, k {:trigger r.seen[j], r.seen[k]} :: j in r.seen && k in r.seen && r.seen[j] == r.seen[k] ==> j == k)
  }

  ghost predicate RebuiltAt(x: World, r: Reader, k: Ref)
    requires k in r.seen
  {
    && k in x.heap && r.seen[k] < |r.allocs| && Known(x.heap[k], r.seen)
    && r.allocs[r.seen[k]] == Allocation(k.ty, Rename(x.heap[k], r.seen))
  }

  ghost predicate Splits(marked: set<Ref>, rebuilt: set<Ref>, unfinished: set<Ref>) {
    marked == rebuilt + unfinished && rebuilt !! unfinished
  }

  /** The reader is where the writer was: it knows what the writer had seen, except the arcs whose
      bodies are still being written, which the reader has counted and the writer has not. */
  ghost predicate InStep(x: World, w: Writer, r: Reader, unfinished: set<Ref>, bound: nat) {
    && r.pos == |w.output| && Splits(w.seen, r.seen.Keys, unfinished)
    && r.arcIndex == w.arcCount + |unfinished|
    && (forall k :: k in unfinished ==> bound <= x.rank(k))
    && Faithful(x, r)
  }

  ghost predicate Prefix(a: seq<nat>, b: seq<nat>) {
    |a| <= |b| && b[..|a|] == a
  }

  lemma PrefixTrans(a: seq<nat>, b: seq<nat>, c: seq<nat>)
    requires Prefix(a, b) && Prefix(b, c)
    ensures Prefix(a, c)
  {
    assert c[..|a|] == c[..|b|][..|a|];
  }

  lemma PrefixDrop(a: seq<nat>, n: nat, b: seq<nat>)
    requires Prefix(a + [n], b)
    ensures Prefix(a, b)
  {
    assert b[..|a|] == b[..|a| + 1][..|a|];
  }

  lemma BodyBelow(x: World, k: Ref)
    requires x.Acyclic() && k in x.heap
    ensures k.ty in x.schema && Conforms(x.heap[k], x.schema[k.ty]) && x.Below(x.heap[k], x.rank(k))
  {
  }

  lemma {:induction false} WriteExtends(x: World, bound: nat, v: Value, w: Writer)
    requires x.Acyclic() && x.Below(v, bound) && Write(x, bound, v, w).Some?
    ensures Prefix(w.output, Write(x, bound, v, w).value.output)
    decreases bound, v
  {
    hide World.Acyclic;
    var end := Write(x, bound, v, w).value.output;
    match v
    case Num(n) =>
    case Unit =>
    case Pair(a, b) =>
      var w1 := Write(x, bound, a, w).value;
      WriteExtends(x, bound, a, w);
      WriteExtends(x, bound, b, w1);
      PrefixTrans(w.output, w1.output, end);
    case Alt(second, p) =>
      var n := if second then 1 else 0;
      WriteExtends(x, bound, p, w.Put(n));
      PrefixDrop(w.output, n, end);
    case List(items) =>
      WriteAllExtends(x, bound, items, w.Put(|items|));
      PrefixDrop(w.output, |items|, end);
    case Arc(k) =>
      if k !in w.seen {
        BodyBelow(x, k);
        WriteExtends(x, x.rank(k), x.heap[k], w.Put(k.id).Mark(k));
        PrefixDrop(w.output, k.id, end);
      }
  }

  lemma {:induction false} WriteAllExtends(x: World, bound: nat, vs: seq<Value>, w: Writer)
    requires x.Acyclic() && (forall i :: 0 <= i < |vs| ==> x.Below(vs[i], bound))
    requires WriteAll(x, bound, vs, w).Some?
    ensures Prefix(w.output, WriteAll(x, bound, vs, w).value.output)
    decreases bound, vs
  {
    hide World.Acyclic;
    if vs != [] {
      var w1 := Write(x, bound, vs[0], w).value;
      WriteExtends(x, bound, vs[0], w);
      WriteAllExtends(x, bound, vs[1..], w1);
      PrefixTrans(w.output, w1.output, WriteAll(x, bound, vs, w).value.output);
    }
  }

  // ----- Reading back what was written -----

  /** Recording the allocation of a body just read keeps everything rebuilt so far faithful. */
  lemma AddAllocation(x: World, r: Reader, k: Ref)
    requires Faithful(x, r) && k !in r.seen && k in x.heap && Known(x.heap[k], r.seen)
    ensures Faithful(x, r.Allocate(k, Rename(x.heap[k], r.seen)))
    ensures Extends(r.Allocate(k, Rename(x.heap[k], r.seen)).seen, r.seen)
  {
    var n := r.Allocate(k, Rename(x.heap[k], r.seen));
    forall j | j in n.seen ensures RebuiltAt(x, n, j) {
      if j != k {
        assert RebuiltAt(x, r, j);
      }
      RenameStable(x.heap[j], r.seen, n.seen);
    }
    assert n.seen.Keys == r.seen.Keys + {k};
    assert |n.seen| == |n.seen.Keys| && |r.seen| == |r.seen.Keys|;
    forall i, j | i in n.seen && j in n.seen && n.seen[i] == n.seen[j] ensures i == j {
      assert i != k ==> RebuiltAt(x, r, i);
      assert j != k ==> RebuiltAt(x, r, j);
    }
  }

  lemma PutInStep(x: World, w: Writer, r: Reader, unfinished: set<Ref>, bound: nat, n: nat, bytes: seq<nat>)
    requires InStep(x, w, r, unfinished, bound) && Prefix(w.Put(n).output, bytes)
    ensures r.pos < |bytes| && bytes[r.pos] == n
    ensures InStep(x, w.Put(n), r.Next(), unfinished, bound)
  {
    assert bytes[r.pos] == bytes[..r.pos + 1][r.pos];
    FaithfulMoves(x, r, r.Next());
  }

  lemma FaithfulMoves(x: World, r: Reader, n: Reader)
    requires Faithful(x, r) && n.seen == r.seen && n.allocs == r.allocs
    ensures Faithful(x, n)
  {
    forall k | k in n.seen ensures RebuiltAt(x, n, k) {
      assert RebuiltAt(x, r, k);
    }
  }

  /** The writer marks an arc before its body; the reader only counts it. */
  lemma EnterArc(x: World, w: Writer, r: Reader, unfinished: set<Ref>, bound: nat, k: Ref, bytes: seq<nat>)
    requires InStep(x, w, r, unfinished, bound) && Prefix(w.Put(k.id).output, bytes)
    requires k !in w.seen && x.rank(k) < bound
    ensures InStep(x, w.Put(k.id).Mark(k), r.NextArc(), unfinished + {k}, x.rank(k))
  {
    hide Faithful, Splits;
    FaithfulMoves(x, r, r.NextArc());
    SplitEnter(w.seen, r.seen.Keys, unfinished, k);
  }

  lemma SplitEnter(marked: set<Ref>, rebuilt: set<Ref>, unfinished: set<Ref>, k: Ref)
    requires Splits(marked, rebuilt, unfinished) && k !in marked
    ensures Splits(marked + {k}, rebuilt, unfinished + {k})
    ensures |unfinished + {k}| == |unfinished| + 1
  {
  }

  lemma SplitLeave(marked: set<Ref>, rebuilt: set<Ref>, unfinished: set<Ref>, k: Ref)
    requires Splits(marked, rebuilt, unfinished + {k}) && k !in unfinished
    ensures k !in rebuilt && Splits(marked, rebuilt + {k}, unfinished)
    ensures |unfinished + {k}| == |unfinished| + 1
  {
  }

  /** The reader records the arc once its body is rebuilt; the writer counts it. */
  lemma LeaveArc(x: World, w: Writer, r: Reader, unfinished: set<Ref>, bound: nat, k: Ref, n: Reader)
    requires InStep(x, w, r, unfinished + {k}, x.rank(k)) && k !in unfinished
    requires k in x.heap && Known(x.heap[k], r.seen) && n == r.Allocate(k, Rename(x.heap[k], r.seen))
    requires forall j :: j in unfinished ==> bound <= x.rank(j)
    ensures InStep(x, w.Count(), n, unfinished, bound) && Extends(n.seen, r.seen) && k in n.seen
  {
    hide Faithful, RebuiltAt, Known, Rename, Splits, Extends;
    SplitLeave(w.seen, r.seen.Keys, unfinished, k);
    AddAllocation(x, r, k);
    assert n.seen.Keys == r.seen.Keys + {k};
  }

  lemma SeenArc(x: World, w: Writer, r: Reader, unfinished: set<Ref>, bound: nat, k: Ref)
    requires InStep(x, w, r, unfinished, bound) && k in w.seen && x.rank(k) < bound
    ensures k in r.seen && InStep(x, w.Put(k.id).Count(), r.NextArc(), unfinished, bound)
  {
    hide Faithful;
    FaithfulMoves(x, r, r.NextArc());
  }

  lemma NewArc(x: World, w: Writer, r: Reader, unfinished: set<Ref>, bound: nat, k: Ref)
    requires InStep(x, w, r, unfinished, bound) && k !in w.seen
    ensures k !in r.seen && k !in unfinished && forall j :: j in unfinished ==> bound <= x.rank(j)
  {
  }

  lemma ExtendsTrans(a: map<Ref, Address>, b: map<Ref, Address>, c: map<Ref, Address>)
    requires Extends(c, b) && Extends(b, a)
    ensures Extends(c, a)
  {
  }

  lemma ExtendsSelf(a: map<Ref, Address>)
    ensures Extends(a, a)
  {
  }

  /** Reading gave back `v` and left the reader in step with the writer after `v`. */
  ghost predicate ReadsBack(x: World, v: Value, w2: Writer, r: Reader, o: Option<(Rebuilt, Reader)>,
                            unfinished: set<Ref>, bound: nat)
  {
    && o.Some?
    && var (rv, r2) := o.value;
       && InStep(x, w2, r2, unfinished, bound) && Extends(r2.seen, r.seen)
       && Known(v, r2.seen) && rv == Rename(v, r2.seen)
  }

  ghost predicate ReadsAllBack(x: World, vs: seq<Value>, w2: Writer, r: Reader,
                               o: Option<(seq<Rebuilt>, Reader)>, unfinished: set<Ref>, bound: nat)
  {
    && o.Some?
    && var (rvs, r2) := o.value;
       && InStep(x, w2, r2, unfinished, bound) && Extends(r2.seen, r.seen)
       && AllKnown(vs, r2.seen) && rvs == RenameAll(vs, r2.seen)
  }

  lemma {:induction false} ReadBack(x: World, bound: nat, v: Value, s: Shape,
                                    w: Writer, bytes: seq<nat>, r: Reader, unfinished: set<Ref>)
    requires x.Acyclic() && x.Below(v, bound) && Conforms(v, s)
    requires Write(x, bound, v, w).Some? && Prefix(Write(x, bound, v, w).value.output, bytes)
    requires InStep(x, w, r, unfinished, bound) && r.pos <= |bytes|
    ensures ReadsBack(x, v, Write(x, bound, v, w).value, r, Read(x.schema, s, bytes, r), unfinished, bound)
    decreases bound, v, 1
  {
    hide World.Acyclic, Faithful, InStep, Extends, Prefix;
    match v
    case Num(n) =>
      PutInStep(x, w, r, unfinished, bound, n, bytes);
      ExtendsSelf(r.seen);
    case Unit => ExtendsSelf(r.seen);
    case Pair(a, b) => ReadBackPair(x, bound, a, b, s, w, bytes, r, unfinished);
    case Alt(second, p) =>
      var n := if second then 1 else 0;
      WriteExtends(x, bound, p, w.Put(n));
      PrefixTrans(w.Put(n).output, Write(x, bound, v, w).value.output, bytes);
      PutInStep(x, w, r, unfinished, bound, n, bytes);
      ReadBack(x, bound, p, if second then s.second else s.first, w.Put(n), bytes, r.Next(), unfinished);
    case List(items) =>
      WriteAllExtends(x, bound, items, w.Put(|items|));
      PrefixTrans(w.Put(|items|).output, Write(x, bound, v, w).value.output, bytes);
      PutInStep(x, w, r, unfinished, bound, |items|, bytes);
      ReadBackAll(x, bound, items, s.item, w.Put(|items|), bytes, r.Next(), unfinished);
    case Arc(k) => ReadBackArc(x, bound, k, w, bytes, r, unfinished);
  }

  lemma {:induction false} ReadBackPair(x: World, bound: nat, a: Value, b: Value, s: Shape,
                                        w: Writer, bytes: seq<nat>, r: Reader, unfinished: set<Ref>)
    requires x.Acyclic() && x.Below(Pair(a, b), bound) && Conforms(Pair(a, b), s)
    requires Write(x, bound, Pair(a, b), w).Some? && Prefix(Write(x, bound, Pair(a, b), w).value.output, bytes)
    requires InStep(x, w, r, unfinished, bound) && r.pos <= |bytes|
    ensures ReadsBack(x, Pair(a, b), Write(x, bound, Pair(a, b), w).value, r, Read(x.schema, s, bytes, r), unfinished, bound)
    decreases bound, Pair(a, b), 0
  {
    hide World.Acyclic, Faithful, InStep, Extends, Prefix;
    var w1 := Write(x, bound, a, w).value;
    WriteExtends(x, bound, b, w1);
    PrefixTrans(w1.output, Write(x, bound, b, w1).value.output, bytes);
    ReadBack(x, bound, a, s.left, w, bytes, r, unfinished);
    var r1 := Read(x.schema, s.left, bytes, r).value.1;
    ReadBack(x, bound, b, s.right, w1, bytes, r1, unfinished);
    var r2 := Read(x.schema, s.right, bytes, r1).value.1;
    RenameStable(a, r1.seen, r2.seen);
    ExtendsTrans(r.seen, r1.seen, r2.seen);
  }

  lemma {:induction false} ReadBackArc(x: World, bound: nat, k: Ref,
                                       w: Writer, bytes: seq<nat>, r: Reader, unfinished: set<Ref>)
    requires x.Acyclic() && x.rank(k) < bound
    requires Write(x, bound, Arc(k), w).Some? && Prefix(Write(x, bound, Arc(k), w).value.output, bytes)
    requires InStep(x, w, r, unfinished, bound) && r.pos <= |bytes|
    ensures ReadsBack(x, Arc(k), Write(x, bound, Arc(k), w).value, r,
                      Read(x.schema, ArcShape(k.ty), bytes, r), unfinished, bound)
    decreases bound, Arc(k), 0
  {
    hide World.Acyclic, Faithful, InStep, Extends, Prefix;
    if k in w.seen {
      PutInStep(x, w, r, unfinished, bound, k.id, bytes);
      SeenArc(x, w, r, unfinished, bound, k);
      ExtendsSelf(r.seen);
    } else {
      var w2 := w.Put(k.id).Mark(k);
      BodyBelow(x, k);
      WriteExtends(x, x.rank(k), x.heap[k], w2);
      PrefixTrans(w2.output, Write(x, x.rank(k), x.heap[k], w2).value.output, bytes);
      PutInStep(x, w, r, unfinished, bound, k.id, bytes);
      NewArc(x, w, r, unfinished, bound, k);
      EnterArc(x, w, r, unfinished, bound, k, bytes);
      ReadBack(x, x.rank(k), x.heap[k], x.schema[k.ty], w2, bytes, r.NextArc(), unfinished + {k});
      var (contents, r2) := Read(x.schema, x.schema[k.ty], bytes, r.NextArc()).value;
      LeaveArc(x, Write(x, x.rank(k), x.heap[k], w2).value, r2, unfinished, bound, k, r2.Allocate(k, contents));
      ExtendsTrans(r.seen, r2.seen, r2.Allocate(k, contents).seen);
    }
  }

  lemma {:induction false} ReadBackAll(x: World, bound: nat, vs: seq<Value>, s: Shape,
                                       w: Writer, bytes: seq<nat>, r: Reader, unfinished: set<Ref>)
    requires x.Acyclic() && forall i :: 0 <= i < |vs| ==> x.Below(vs[i], bound) && Conforms(vs[i], s)
    requires WriteAll(x, bound, vs, w).Some? && Prefix(WriteAll(x, bound, vs, w).value.output, bytes)
    requires InStep(x, w, r, unfinished, bound) && r.pos <= |bytes|
    ensures ReadsAllBack(x, vs, WriteAll(x, bound, vs, w).value, r,
                         ReadAll(x.schema, s, |vs|, bytes, r), unfinished, bound)
    decreases bound, vs, 0
  {
    hide World.Acyclic, Faithful, InStep, Extends, Prefix;
    if vs == [] {
      ExtendsSelf(r.seen);
    } else {
      var w1 := Write(x, bound, vs[0], w).value;
      WriteAllExtends(x, bound, vs[1..], w1);
      PrefixTrans(w1.output, WriteAll(x, bound, vs[1..], w1).value.output, bytes);
      ReadBack(x, bound, vs[0], s, w, bytes, r, unfinished);
      var r1 := Read(x.schema, s, bytes, r).value.1;
      ReadBackAll(x, bound, vs[1..], s, w1, bytes, r1, unfinished);
      var r2 := ReadAll(x.schema, s, |vs| - 1, bytes, r1).value.1;
      RenameStable(vs[0], r1.seen, r2.seen);
      ExtendsTrans(r.seen, r1.seen, r2.seen);
      assert vs == [vs[0]] + vs[1..];
    }
  }

  // ----- Exactly the arcs reached -----

  /** Arc `k` is held by `v`, or by an arc `v` reaches. */
  ghost predicate Reaches(x: World, bound: nat, v: Value, k: Ref)
    requires x.Acyclic() && x.Below(v, bound)
    decreases bound, v
  {
    match v
    case Num(_) => false
    case Unit => false
    case Pair(a, b) => Reaches(x, bound, a, k) || Reaches(x, bound, b, k)
    case Alt(_, p) => Reaches(x, bound, p, k)
    case List(items) => AnyReaches(x, bound, items, k)
    case Arc(j) => j == k || (j in x.heap && Reaches(x, x.rank(j), x.heap[j], k))
  }

  ghost predicate AnyReaches(x: World, bound: nat, vs: seq<Value>, k: Ref)
    requires x.Acyclic() && forall i :: 0 <= i < |vs| ==> x.Below(vs[i], bound)
    decreases bound, vs
  {
    vs != [] && (Reaches(x, bound, vs[0], k) || AnyReaches(x, bound, vs[1..], k))
  }

  lemma {:induction false} MarksOnlyReached(x: World, bound: nat, v: Value, w: Writer, k: Ref)
    requires x.Acyclic() && x.Below(v, bound) && Write(x, bound, v, w).Some?
    requires k in Write(x, bound, v, w).value.seen && k !in w.seen
    ensures Reaches(x, bound, v, k)
    decreases bound, v
  {
    hide World.Acyclic;
    match v
    case Num(_) =>
    case Unit =>
    case Pair(a, b) =>
      var w1 := Write(x, bound, a, w).value;
      if k in w1.seen {
        MarksOnlyReached(x, bound, a, w, k);
      } else {
        MarksOnlyReached(x, bound, b, w1, k);
      }
    case Alt(second, p) => MarksOnlyReached(x, bound, p, w.Put(if second then 1 else 0), k);
    case List(items) => AllMarkOnlyReached(x, bound, items, w.Put(|items|), k);
    case Arc(j) =>
      if j !in w.seen && j != k {
        BodyBelow(x, j);
        MarksOnlyReached(x, x.rank(j), x.heap[j], w.Put(j.id).Mark(j), k);
      }
  }

  lemma {:induction false} AllMarkOnlyReached(x: World, bound: nat, vs: seq<Value>, w: Writer, k: Ref)
    requires x.Acyclic() && (forall i :: 0 <= i < |vs| ==> x.Below(vs[i], bound)) && WriteAll(x, bound, vs, w).Some?
    requires k in WriteAll(x, bound, vs, w).value.seen && k !in w.seen
    ensures AnyReaches(x, bound, vs, k)
    decreases bound, vs
  {
    hide World.Acyclic;
    if vs != [] {
      var w1 := Write(x, bound, vs[0], w).value;
      if k in w1.seen {
        MarksOnlyReached(x, bound, vs[0], w, k);
      } else {
        AllMarkOnlyReached(x, bound, vs[1..], w1, k);
      }
    }
  }

  lemma {:induction false} ReachedIsRebuilt(x: World, bound: nat, v: Value, r: Reader, k: Ref)
    requires x.Acyclic() && x.Below(v, bound) && Faithful(x, r) && Known(v, r.seen) && Reaches(x, bound, v, k)
    ensures k in r.seen
    decreases bound, v
  {
    hide World.Acyclic;
    match v
    case Pair(a, b) =>
      if Reaches(x, bound, a, k) {
        ReachedIsRebuilt(x, bound, a, r, k);
      } else {
        ReachedIsRebuilt(x, bound, b, r, k);
      }
    case Alt(_, p) => ReachedIsRebuilt(x, bound, p, r, k);
    case List(items) => AnyReachedIsRebuilt(x, bound, items, r, k);
    case Arc(j) =>
      if j != k {
        assert RebuiltAt(x, r, j);
        BodyBelow(x, j);
        ReachedIsRebuilt(x, x.rank(j), x.heap[j], r, k);
      }
  }

  lemma {:induction false} AnyReachedIsRebuilt(x: World, bound: nat, vs: seq<Value>, r: Reader, k: Ref)
    requires x.Acyclic() && forall i :: 0 <= i < |vs| ==> x.Below(vs[i], bound)
    requires Faithful(x, r) && AllKnown(vs, r.seen) && AnyReaches(x, bound, vs, k)
    ensures k in r.seen
    decreases bound, vs
  {
    hide World.Acyclic, Faithful;
    if Reaches(x, bound, vs[0], k) {
      ReachedIsRebuilt(x, bound, vs[0], r, k);
    } else {
      AnyReachedIsRebuilt(x, bound, vs[1..], r, k);
    }
  }

  // ----- The round trip -----

  /** Deserializing what was serialized gives an isomorphic graph: everything is read, every
      arc the value reaches, and no other, is rebuilt once with its type and contents, and two
      arcs share an allocation afterwards exactly when they were the same arc before. */
  lemma RoundTrip(x: World, bound: nat, v: Value, s: Shape)
    requires x.Acyclic() && x.Below(v, bound) && Conforms(v, s)
    requires Write(x, bound, v, Writer([], {}, 0)).Some?
    ensures var w := Write(x, bound, v, Writer([], {}, 0)).value;
            var o := Read(x.schema, s, w.output, Reader(0, map[], [], 0));
            && o.Some?
            && var (rv, r) := o.value;
               && r.pos == |w.output| && r.arcIndex == w.arcCount && r.seen.Keys == w.seen
               && |r.allocs| == |r.seen|
               && (forall k :: k in r.seen <==> Reaches(x, bound, v, k))
               && Known(v, r.seen) && rv == Rename(v, r.seen)
               && (forall k :: k in r.seen ==> RebuiltAt(x, r, k))
               && (forall j, k :: j in r.seen && k in r.seen ==> (r.seen[j] == r.seen[k] <==> j == k))
  {
    hide World.Acyclic;
    var w := Write(x, bound, v, Writer([], {}, 0)).value;
    ReadBack(x, bound, v, s, Writer([], {}, 0), w.output, Reader(0, map[], [], 0), {});
    var r := Read(x.schema, s, w.output, Reader(0, map[], [], 0)).value.1;
    forall k ensures k in r.seen <==> Reaches(x, bound, v, k) {
      if k in r.seen {
        MarksOnlyReached(x, bound, v, Writer([], {}, 0), k);
      }
      if Reaches(x, bound, v, k) {
        ReachedIsRebuilt(x, bound, v, r, k);
      }
    }
  }

  // ----- When writing succeeds -----

  /** No arc reached from `v` answers with the key of a stored copy. */
  ghost predicate Inline(x: World, bound: nat, v: Value)
    requires x.Acyclic() && x.Below(v, bound)
    decreases bound, v
  {
    match v
    case Num(_) => true
    case Unit => true
    case Pair(a, b) => Inline(x, bound, a) && Inline(x, bound, b)
    case Alt(_, p) => Inline(x, bound, p)
    case List(items) => forall i :: 0 <= i < |items| ==> Inline(x, bound, items[i])
    case Arc(k) => k in x.heap && Inline(x, x.rank(k), x.heap[k])
  }

  /** Arcs below `bound` that the writer has marked are finished and were inline throughout. */
  ghost predicate MarkedInline(x: World, bound: nat, seen: set<Ref>)
    requires x.Acyclic()
  {
    forall k :: k in seen && x.rank(k) < bound ==> k in x.heap && Inline(x, x.rank(k), x.heap[k])
  }

  lemma {:induction false} WritesIff(x: World, bound: nat, v: Value, w: Writer)
    requires x.Acyclic() && x.Below(v, bound) && MarkedInline(x, bound, w.seen)
    ensures Write(x, bound, v, w).Some? <==> Inline(x, bound, v)
    ensures Write(x, bound, v, w).Some? ==> MarkedInline(x, bound, Write(x, bound, v, w).value.seen)
    decreases bound, v
  {
    hide World.Acyclic;
    match v
    case Num(_) =>
    case Unit =>
    case Pair(a, b) =>
      WritesIff(x, bound, a, w);
      if Inline(x, bound, a) {
        WritesIff(x, bound, b, Write(x, bound, a, w).value);
      }
    case Alt(second, p) => WritesIff(x, bound, p, w.Put(if second then 1 else 0));
    case List(items) => WritesAllIff(x, bound, items, w.Put(|items|));
    case Arc(k) =>
      if k !in w.seen && k in x.heap {
        BodyBelow(x, k);
        var w2 := w.Put(k.id).Mark(k);
        WritesIff(x, x.rank(k), x.heap[k], w2);
        if Inline(x, x.rank(k), x.heap[k]) {
          MarksOnlyBelow(x, x.rank(k), x.heap[k], w2);
        }
      }
  }

  lemma {:induction false} WritesAllIff(x: World, bound: nat, vs: seq<Value>, w: Writer)
    requires x.Acyclic() && (forall i :: 0 <= i < |vs| ==> x.Below(vs[i], bound)) && MarkedInline(x, bound, w.seen)
    ensures WriteAll(x, bound, vs, w).Some? <==> forall i :: 0 <= i < |vs| ==> Inline(x, bound, vs[i])
    ensures WriteAll(x, bound, vs, w).Some? ==> MarkedInline(x, bound, WriteAll(x, bound, vs, w).value.seen)
    decreases bound, vs
  {
    hide World.Acyclic;
    if vs != [] {
      WritesIff(x, bound, vs[0], w);
      if Inline(x, bound, vs[0]) {
        WritesAllIff(x, bound, vs[1..], Write(x, bound, vs[0], w).value);
        assert vs == [vs[0]] + vs[1..];
      }
    }
  }

  /** Writing a value marks only arcs below its bound. */
  lemma {:induction false} MarksOnlyBelow(x: World, bound: nat, v: Value, w: Writer)
    requires x.Acyclic() && x.Below(v, bound) && Write(x, bound, v, w).Some?
    ensures forall k :: k in Write(x, bound, v, w).value.seen ==> k in w.seen || x.rank(k) < bound
    decreases bound, v
  {
    hide World.Acyclic;
    match v
    case Num(_) =>
    case Unit =>
    case Pair(a, b) =>
      MarksOnlyBelow(x, bound, a, w);
      MarksOnlyBelow(x, bound, b, Write(x, bound, a, w).value);
    case Alt(second, p) => MarksOnlyBelow(x, bound, p, w.Put(if second then 1 else 0));
    case List(items) => AllMarkOnlyBelow(x, bound, items, w.Put(|items|));
    case Arc(k) =>
      if k !in w.seen {
        BodyBelow(x, k);
        MarksOnlyBelow(x, x.rank(k), x.heap[k], w.Put(k.id).Mark(k));
      }
  }

  lemma {:induction false} AllMarkOnlyBelow(x: World, bound: nat, vs: seq<Value>, w: Writer)
    requires x.Acyclic() && (forall i :: 0 <= i < |vs| ==> x.Below(vs[i], bound)) && WriteAll(x, bound, vs, w).Some?
    ensures forall k :: k in WriteAll(x, bound, vs, w).value.seen ==> k in w.seen || x.rank(k) < bound
    decreases bound, vs
  {
    hide World.Acyclic;
    if vs != [] {
      MarksOnlyBelow(x, bound, vs[0], w);
      AllMarkOnlyBelow(x, bound, vs[1..], Write(x, bound, vs[0], w).value);
    }
  }

  /** Serializing from scratch fails exactly when some arc reached has only a stored copy. */
  lemma SerializesIff(x: World, bound: nat, v: Value)
    requires x.Acyclic() && x.Below(v, bound)
    ensures Write(x, bound, v, Writer([], {}, 0)).Some? <==> Inline(x, bound, v)
  {
    WritesIff(x, bound, v, Writer([], {}, 0));
  }
}
