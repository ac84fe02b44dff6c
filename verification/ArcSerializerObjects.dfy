/** The serializer and deserializer objects, whose fields change as values are written and read. */
module ArcSerializerObjects {
  import opened Options
  import opened ArcSerializer

  class TestingSerializer {
    var output: seq<nat>
    var seenArcs: set<Ref>
    var arcCount: nat

    constructor ()
      ensures State() == Writer([], {}, 0)
    {
      output, seenArcs, arcCount := [], {}, 0;
    }

    ghost function State(): Writer
      reads this
    {
      Writer(output, seenArcs, arcCount)
    }

    /** A failed call leaves what it wrote before the failure. */
    method Serialize(x: World, ghost bound: nat, v: Value) returns (ok: bool)
      requires x.Acyclic() && x.Below(v, bound)
      modifies this
      ensures Write(x, bound, v, old(State())) == if ok then Some(State()) else None
      decreases bound, v, 1
    {
      hide World.Acyclic;
      match v
      case Num(n) =>
        output := output + [n];
        ok := true;
      case Unit =>
        ok := true;
      case Pair(a, b) =>
        ok := Serialize(x, bound, a);
        if ok {
          ok := Serialize(x, bound, b);
        }
      case Alt(second, p) =>
        output := output + [if second then 1 else 0];
        ok := Serialize(x, bound, p);
      case List(items) =>
        output := output + [|items|];
        ok := SerializeAll(x, bound, items);
      case Arc(k) =>
        ok := SerializeArc(x, bound, k);
    }

    method SerializeArc(x: World, ghost bound: nat, k: Ref) returns (ok: bool)
      requires x.Acyclic() && x.rank(k) < bound
      modifies this
      ensures Write(x, bound, Arc(k), old(State())) == if ok then Some(State()) else None
      decreases bound, Arc(k), 0
    {
      hide World.Acyclic;
      output := output + [k.id];
      if k !in seenArcs {
        seenArcs := seenArcs + {k};
        if k !in x.heap {
          return false;
        }
        BodyBelow(x, k);
        ok := Serialize(x, x.rank(k), x.heap[k]);
        if !ok {
          return;
        }
      }
      arcCount := arcCount + 1;
      ok := true;
    }

    method SerializeAll(x: World, ghost bound: nat, vs: seq<Value>) returns (ok: bool)
      requires x.Acyclic() && forall i :: 0 <= i < |vs| ==> x.Below(vs[i], bound)
      modifies this
      ensures WriteAll(x, bound, vs, old(State())) == if ok then Some(State()) else None
      decreases bound, vs, 0
    {
      hide World.Acyclic;
      if vs == [] {
        return true;
      }
      ok := Serialize(x, bound, vs[0]);
      if ok {
        ok := SerializeAll(x, bound, vs[1..]);
      }
    }
  }

  class TestingDeserializer {
    const bytes: seq<nat>
    var pos: nat
    var seenArcs: map<Ref, Address>
    var allocs: seq<Allocation>
    var arcIndex: nat

    constructor (bytes: seq<nat>)
      ensures this.bytes == bytes && State() == Reader(0, map[], [], 0)
    {
      this.bytes := bytes;
      pos, seenArcs, allocs, arcIndex := 0, map[], [], 0;
    }

    ghost function State(): Reader
      reads this
    {
      Reader(pos, seenArcs, allocs, arcIndex)
    }

    /** The next word, or nothing at the end of the input. */
    method Take() returns (o: Option<nat>)
      requires pos <= |bytes|
      modifies this`pos
      ensures if old(pos) == |bytes| then o.None? && pos == old(pos) else o == Some(bytes[old(pos)]) && pos == old(pos) + 1
    {
      if pos == |bytes| {
        return None;
      }
      o := Some(bytes[pos]);
      pos := pos + 1;
    }

    method Deserialize(schema: Schema, s: Shape) returns (o: Option<Rebuilt>)
      requires pos <= |bytes|
      modifies this
      ensures Read(schema, s, bytes, old(State())) == if o.Some? then Some((o.value, State())) else None
      ensures old(pos) <= pos <= |bytes|
      decreases |bytes| - pos, s, 1
    {
      match s
      case NumShape =>
        var n := Take();
        o := if n.None? then None else Some(RNum(n.value));
      case UnitShape =>
        o := Some(RUnit);
      case PairShape(p, q) =>
        var a := Deserialize(schema, p);
        if a.None? {
          return None;
        }
        var b := Deserialize(schema, q);
        o := if b.None? then None else Some(RPair(a.value, b.value));
      case AltShape(p, q) =>
        var n := Take();
        if n.None? || n.value > 1 {
          return None;
        }
        var a := Deserialize(schema, if n.value == 1 then q else p);
        o := if a.None? then None else Some(RAlt(n.value == 1, a.value));
      case ListShape(p) =>
        var n := Take();
        if n.None? {
          return None;
        }
        var a := DeserializeAll(schema, p, n.value);
        o := if a.None? then None else Some(RList(a.value));
      case ArcShape(ty) =>
        o := DeserializeArc(schema, ty);
    }

    method DeserializeArc(schema: Schema, ty: TypeId) returns (o: Option<Rebuilt>)
      requires pos <= |bytes|
      modifies this
      ensures Read(schema, ArcShape(ty), bytes, old(State())) == if o.Some? then Some((o.value, State())) else None
      ensures old(pos) <= pos <= |bytes|
      decreases |bytes| - pos, ArcShape(ty), 0
    {
      var id := Take();
      if id.None? {
        return None;
      }
      arcIndex := arcIndex + 1;
      var k := Ref(ty, id.value);
      if k in seenArcs {
        return Some(RArc(seenArcs[k]));
      }
      if ty !in schema {
        return None;
      }
      var contents := Deserialize(schema, schema[ty]);
      if contents.None? {
        return None;
      }
      o := Some(RArc(|allocs|));
      seenArcs := seenArcs[k := |allocs|];
      allocs := allocs + [Allocation(ty, contents.value)];
    }

    method DeserializeAll(schema: Schema, s: Shape, count: nat) returns (o: Option<seq<Rebuilt>>)
      requires pos <= |bytes|
      modifies this
      ensures ReadAll(schema, s, count, bytes, old(State())) == if o.Some? then Some((o.value, State())) else None
      ensures old(pos) <= pos <= |bytes|
      decreases |bytes| - pos, s, count + 1
    {
      if count == 0 {
        return Some([]);
      }
      var a := Deserialize(schema, s);
      if a.None? {
        return None;
      }
      var b := DeserializeAll(schema, s, count - 1);
      o := if b.None? then None else Some([a.value] + b.value);
    }
  }

  /** Writing a value with a new serializer and reading it with a new deserializer. */
  method Copy(x: World, ghost bound: nat, v: Value, s: Shape)
    returns (o: Option<Rebuilt>, seen: map<Ref, Address>, allocs: seq<Allocation>)
    requires x.Acyclic() && x.Below(v, bound) && Conforms(v, s)
    ensures o.Some? <==> Inline(x, bound, v)
    ensures o.Some? ==>
              && Known(v, seen) && o.value == Rename(v, seen)
              && (forall k :: k in seen <==> Reaches(x, bound, v, k))
              && |allocs| == |seen|
              && (forall k :: k in seen ==> RebuiltAt(x, Reader(0, seen, allocs, 0), k))
              && (forall j, k :: j in seen && k in seen ==> (seen[j] == seen[k] <==> j == k))
  {
    hide World.Acyclic, Write, Read, Inline, Known, Rename, Reaches, Conforms;
    SerializesIff(x, bound, v);
    var ser := new TestingSerializer();
    var ok := ser.Serialize(x, bound, v);
    if !ok {
      return None, map[], [];
    }
    var de := new TestingDeserializer(ser.output);
    RoundTrip(x, bound, v, s);
    o := de.Deserialize(x.schema, s);
    seen, allocs := de.seenArcs, de.allocs;
    forall k | k in seen ensures RebuiltAt(x, Reader(0, seen, allocs, 0), k) {
      assert RebuiltAt(x, de.State(), k);
    }
  }
}
