/** How much the inline arc serializer writes: the contents of every arc reached, once. */
module ArcSerializerSizes {
  import opened Options
  import opened ArcSerializer

  /** Words a value takes without the contents of its arcs. */
  function Words(v: Value): nat {
    match v
    case Num(_) => 1
    case Unit => 0
    case Pair(a, b) => Words(a) + Words(b)
    case Alt(_, p) => 1 + Words(p)
    case List(items) => 1 + AllWords(items)
    case Arc(_) => 1
  }

  /** Arcs a value holds itself, with repetition. */
  function Arcs(v: Value): nat {
    match v
    case Num(_) => 0
    case Unit => 0
    case Pair(a, b) => Arcs(a) + Arcs(b)
    case Alt(_, p) => Arcs(p)
    case List(items) => AllArcs(items)
    case Arc(_) => 1
  }

  function AllWords(vs: seq<Value>): nat {
    if vs == [] then 0 else Words(vs[0]) + AllWords(vs[1..])
  }

  function AllArcs(vs: seq<Value>): nat {
    if vs == [] then 0 else Arcs(vs[0]) + AllArcs(vs[1..])
  }

  /** `f` of the contents of all arcs in `ks`. */
  ghost function Total(heap: map<Ref, Value>, ks: set<Ref>, f: Value -> nat): nat
    requires ks <= heap.Keys
    decreases |ks|
  {
    if ks == {} then 0
    else
      var k :| k in ks;
      f(heap[k]) + Total(heap, ks - {k}, f)
  }

  lemma {:induction false} TotalWithout(heap: map<Ref, Value>, ks: set<Ref>, f: Value -> nat, k: Ref)
    requires ks <= heap.Keys && k in ks
    ensures Total(heap, ks, f) == f(heap[k]) + Total(heap, ks - {k}, f)
    decreases |ks|
  {
    var j :| j in ks && Total(heap, ks, f) == f(heap[j]) + Total(heap, ks - {j}, f);
    if j != k {
      TotalWithout(heap, ks - {j}, f, k);
      TotalWithout(heap, ks - {k}, f, j);
      assert ks - {j} - {k} == ks - {k} - {j};
    }
  }

  lemma {:induction false} TotalJoins(heap: map<Ref, Value>, a: set<Ref>, b: set<Ref>, f: Value -> nat)
    requires a <= heap.Keys && b <= heap.Keys && a !! b
    ensures Total(heap, a + b, f) == Total(heap, a, f) + Total(heap, b, f)
    decreases |a|
  {
    if a == {} {
      assert a + b == b;
    } else {
      var k :| k in a;
      TotalWithout(heap, a, f, k);
      TotalWithout(heap, a + b, f, k);
      assert a + b - {k} == (a - {k}) + b;
      TotalJoins(heap, a - {k}, b, f);
    }
  }

  /** Writing took `words` and `arcs` for the value itself, and the contents of each arc met for the
      first time. */
  ghost predicate Grew(x: World, w: Writer, n: Writer, words: nat, arcs: nat) {
    && w.seen <= n.seen && n.seen - w.seen <= x.heap.Keys
    && |n.output| == |w.output| + words + Total(x.heap, n.seen - w.seen, Words)
    && n.arcCount == w.arcCount + arcs + Total(x.heap, n.seen - w.seen, Arcs)
  }

  lemma GrewPut(x: World, w: Writer, n: nat)
    ensures Grew(x, w, w, 0, 0) && Grew(x, w, w.Put(n), 1, 0) && Grew(x, w, w.Put(n).Count(), 1, 1)
  {
    assert w.seen - w.seen == {};
  }

  lemma GrewThen(x: World, w: Writer, m: Writer, n: Writer, words: nat, arcs: nat, words2: nat, arcs2: nat)
    requires Grew(x, w, m, words, arcs) && Grew(x, m, n, words2, arcs2)
    ensures Grew(x, w, n, words + words2, arcs + arcs2)
  {
    assert n.seen - w.seen == (m.seen - w.seen) + (n.seen - m.seen);
    TotalJoins(x.heap, m.seen - w.seen, n.seen - m.seen, Words);
    TotalJoins(x.heap, m.seen - w.seen, n.seen - m.seen, Arcs);
  }

  /** An arc met for the first time, once its contents are written. */
  lemma GrewArc(x: World, w: Writer, k: Ref, n: Writer)
    requires k !in w.seen && k in x.heap
    requires Grew(x, w.Put(k.id).Mark(k), n, Words(x.heap[k]), Arcs(x.heap[k]))
    ensures Grew(x, w, n.Count(), 1, 1)
  {
    var added := n.seen - w.seen;
    assert added - {k} == n.seen - (w.seen + {k});
    TotalWithout(x.heap, added, Words, k);
    TotalWithout(x.heap, added, Arcs, k);
  }

  lemma WriteUnfolds(x: World, bound: nat, v: Value, w: Writer)
    requires x.Acyclic() && x.Below(v, bound) && Write(x, bound, v, w).Some?
    ensures match v
            case Num(n) => Write(x, bound, v, w).value == w.Put(n) && Words(v) == 1 && Arcs(v) == 0
            case Unit => Write(x, bound, v, w).value == w && Words(v) == Arcs(v) == 0
            case Pair(a, b) =>
              && Write(x, bound, a, w).Some? && Write(x, bound, v, w) == Write(x, bound, b, Write(x, bound, a, w).value)
              && Words(v) == Words(a) + Words(b) && Arcs(v) == Arcs(a) + Arcs(b)
            case Alt(second, p) =>
              && Write(x, bound, v, w) == Write(x, bound, p, w.Put(if second then 1 else 0))
              && Words(v) == 1 + Words(p) && Arcs(v) == Arcs(p)
            case List(items) =>
              && Write(x, bound, v, w) == WriteAll(x, bound, items, w.Put(|items|))
              && Words(v) == 1 + AllWords(items) && Arcs(v) == AllArcs(items)
            case Arc(_) => Words(v) == Arcs(v) == 1
  {
    hide World.Acyclic, WriteAll, AllWords, AllArcs;
  }

  lemma {:induction false} WriteGrows(x: World, bound: nat, v: Value, w: Writer)
    requires x.Acyclic() && x.Below(v, bound) && Write(x, bound, v, w).Some?
    ensures Grew(x, w, Write(x, bound, v, w).value, Words(v), Arcs(v))
    decreases bound, v, 1
  {
    hide World.Acyclic, Grew, Write, WriteAll, Words, Arcs, AllWords, AllArcs;
    WriteUnfolds(x, bound, v, w);
    match v
    case Num(n) => GrewPut(x, w, n);
    case Unit => GrewPut(x, w, 0);
    case Pair(a, b) =>
      var w1 := Write(x, bound, a, w).value;
      WriteGrows(x, bound, a, w);
      WriteGrows(x, bound, b, w1);
      GrewThen(x, w, w1, Write(x, bound, v, w).value, Words(a), Arcs(a), Words(b), Arcs(b));
    case Alt(second, p) =>
      var n := if second then 1 else 0;
      GrewPut(x, w, n);
      WriteGrows(x, bound, p, w.Put(n));
      GrewThen(x, w, w.Put(n), Write(x, bound, v, w).value, 1, 0, Words(p), Arcs(p));
    case List(items) =>
      GrewPut(x, w, |items|);
      WriteAllGrows(x, bound, items, w.Put(|items|));
      GrewThen(x, w, w.Put(|items|), Write(x, bound, v, w).value, 1, 0, AllWords(items), AllArcs(items));
    case Arc(k) => ArcGrows(x, bound, k, w);
  }

  lemma {:induction false} ArcGrows(x: World, bound: nat, k: Ref, w: Writer)
    requires x.Acyclic() && x.rank(k) < bound && Write(x, bound, Arc(k), w).Some?
    ensures Grew(x, w, Write(x, bound, Arc(k), w).value, 1, 1)
    decreases bound, Arc(k), 0
  {
    hide World.Acyclic, Grew, Words, Arcs;
    if k in w.seen {
      GrewPut(x, w, k.id);
    } else {
      BodyBelow(x, k);
      var w1 := w.Put(k.id).Mark(k);
      assert Write(x, bound, Arc(k), w) == Some(Write(x, x.rank(k), x.heap[k], w1).value.Count());
      hide Write;
      WriteGrows(x, x.rank(k), x.heap[k], w1);
      GrewArc(x, w, k, Write(x, x.rank(k), x.heap[k], w1).value);
    }
  }

  lemma WriteAllUnfolds(x: World, bound: nat, vs: seq<Value>, w: Writer)
    requires x.Acyclic() && (forall i :: 0 <= i < |vs| ==> x.Below(vs[i], bound)) && WriteAll(x, bound, vs, w).Some?
    ensures vs == [] ==> WriteAll(x, bound, vs, w).value == w && AllWords(vs) == 0 && AllArcs(vs) == 0
    ensures vs != [] ==>
              && Write(x, bound, vs[0], w).Some?
              && WriteAll(x, bound, vs, w) == WriteAll(x, bound, vs[1..], Write(x, bound, vs[0], w).value)
              && AllWords(vs) == Words(vs[0]) + AllWords(vs[1..]) && AllArcs(vs) == Arcs(vs[0]) + AllArcs(vs[1..])
  {
    hide World.Acyclic, Write, Words, Arcs;
  }

  lemma {:induction false} WriteAllGrows(x: World, bound: nat, vs: seq<Value>, w: Writer)
    requires x.Acyclic() && (forall i :: 0 <= i < |vs| ==> x.Below(vs[i], bound)) && WriteAll(x, bound, vs, w).Some?
    ensures Grew(x, w, WriteAll(x, bound, vs, w).value, AllWords(vs), AllArcs(vs))
    decreases bound, vs, 0
  {
    hide World.Acyclic, Grew, Write, WriteAll, AllWords, AllArcs, Words, Arcs;
    WriteAllUnfolds(x, bound, vs, w);
    if vs == [] {
      GrewPut(x, w, 0);
    } else {
      var w1 := Write(x, bound, vs[0], w).value;
      WriteGrows(x, bound, vs[0], w);
      WriteAllGrows(x, bound, vs[1..], w1);
      GrewThen(x, w, w1, WriteAll(x, bound, vs, w).value, Words(vs[0]), Arcs(vs[0]), AllWords(vs[1..]), AllArcs(vs[1..]));
    }
  }

  /** The output holds the value and, once each, the contents of exactly the arcs it reaches; every
      arc written, first or repeated, was counted. */
  lemma WrittenOnce(x: World, bound: nat, v: Value, s: Shape) returns (reached: set<Ref>)
    requires x.Acyclic() && x.Below(v, bound) && Conforms(v, s)
    requires Write(x, bound, v, Writer([], {}, 0)).Some?
    ensures (forall k :: k in reached <==> Reaches(x, bound, v, k)) && reached <= x.heap.Keys
    ensures var w := Write(x, bound, v, Writer([], {}, 0)).value;
            && |w.output| == Words(v) + Total(x.heap, reached, Words)
            && w.arcCount == Arcs(v) + Total(x.heap, reached, Arcs)
  {
    hide World.Acyclic, Write, Read, Reaches, Conforms, Words, Arcs;
    RoundTrip(x, bound, v, s);
    WriteGrows(x, bound, v, Writer([], {}, 0));
    reached := Write(x, bound, v, Writer([], {}, 0)).value.seen;
    assert reached - {} == reached;
  }
}
