/** The same operations as methods of the objects themselves: a shared allocation updated in
    place through `PagableArc` and `PinnedPagableArc` handles. */
module PagableArcObjects {
  import opened Options
  import Spec = PagableArc
  import opened PagableArc

  /** The value once one of its pins is gone: the last one pages it out, or leaves it unpinned if it
      has no key. */
  function OnePinLess<T>(i: Inner<T>): Residency<T> {
    if i.count > 1 || i.value.PagedOut? then i.value
    else if i.key.Some? then PagedOut
    else Unpinned(i.value.v)
  }

  class ArcInner<T> {
    var pinnedCount: nat
    var key: Option<Key>
    var value: Residency<T>
    var scheduled: nat
    ghost var arcs: set<Arc<T>>
    ghost var pins: set<PinnedArc<T>>

    ghost function View(): Inner<T>
      reads this
    {
      Inner(pinnedCount, key, value, scheduled)
    }

    ghost function Pinning(): set<Arc<T>>
      reads this, arcs
    {
      set a | a in arcs && a.pinned
    }

    /** The pin count is the number of pinned handles, and decides where the value is. */
    ghost predicate Valid()
      reads this, arcs
    {
      && (forall a :: a in arcs ==> a.pointer == this)
      && (forall p :: p in pins ==> p.pointer == this)
      && pinnedCount == |Pinning()| + |pins|
      && (value.Pinned? <==> pinnedCount > 0)
      && (value.PagedOut? ==> key.Some?) && (value.Unpinned? ==> key.None?)
    }

    constructor New(v: T)
      ensures View() == NewPinned(v) && arcs == {} && pins == {}
    {
      pinnedCount, key, value, scheduled := 1, None, Pinned(v), 0;
      arcs, pins := {}, {};
    }

    constructor NewPagedOut(k: Key)
      ensures View() == Spec.NewPagedOut(k) && arcs == {} && pins == {}
    {
      pinnedCount, key, value, scheduled := 0, Some(k), PagedOut, 0;
      arcs, pins := {}, {};
    }

    method AddPinnedUnchecked()
      requires pinnedCount >= 1
      modifies this`pinnedCount
      ensures Done(View()) == Spec.AddPinnedUnchecked(old(View()))
      ensures pinnedCount == old(pinnedCount) + 1
    {
      var s := pinnedCount;
      pinnedCount := pinnedCount + 1;
      assert s >= 1;
    }

    method TryAllocPinned() returns (ok: bool)
      modifies this`pinnedCount, this`value
      ensures (ok, View()) == Spec.TryAllocPinned(old(View()))
      ensures ok <==> old(pinnedCount) > 0 || !old(value).PagedOut?
      ensures pinnedCount == old(pinnedCount) + if ok then 1 else 0
      ensures value == if ok && old(pinnedCount) == 0 then Pinned(old(value).v) else old(value)
    {
      if pinnedCount != 0 {
        pinnedCount := pinnedCount + 1;
        return true;
      }
      value := TryPin(value);
      if value.Pinned? {
        pinnedCount := pinnedCount + 1;
        return true;
      }
      return false;
    }

    method AllocPinned(storage: map<Key, T>) returns (ok: bool)
      requires !Spec.AllocPinned(View(), storage).Panicked?
      modifies this`pinnedCount, this`value
      ensures ok ==> Done(View()) == Spec.AllocPinned(old(View()), storage)
      ensures !ok ==> Spec.AllocPinned(old(View()), storage).Failed? && View() == old(View())
      ensures !ok <==> old(pinnedCount) == 0 && old(value).PagedOut? && key.value !in storage
      ensures ok ==> pinnedCount == old(pinnedCount) + 1
      ensures ok ==> value == if old(pinnedCount) > 0 then old(value)
                              else Pinned(if old(value).PagedOut? then storage[key.value] else old(value).v)
    {
      var quick := TryAllocPinned();
      if quick {
        return true;
      }
      value := TryPin(value);
      if !value.Pinned? {
        var k := key.value;
        if k !in storage {
          return false;
        }
        var data := storage[k];
        value := match value
          case Pinned(v) => Pinned(v)
          case Unpinned(v) => Pinned(v)
          case PagedOut => Pinned(data);
      }
      pinnedCount := pinnedCount + 1;
      return true;
    }

    method ReleasePin()
      requires !Spec.ReleasePin(View()).Panicked?
      modifies this`pinnedCount, this`value, this`scheduled
      ensures Done(View()) == Spec.ReleasePin(old(View()))
      ensures pinnedCount == old(pinnedCount) - 1
      ensures pinnedCount > 0 ==> value == old(value) && scheduled == old(scheduled)
      ensures pinnedCount == 0 && key.Some? ==> value == PagedOut && scheduled == old(scheduled)
      ensures pinnedCount == 0 && key.None? ==> value == Unpinned(old(value).v) && scheduled == old(scheduled) + 1
    {
      var before := pinnedCount;
      pinnedCount := pinnedCount - 1;
      if before == 1 {
        if pinnedCount == 0 {
          if key.Some? {
            value := PagedOut;
          } else {
            value := Unpinned(value.v);
            scheduled := scheduled + 1;
          }
        }
      }
    }

    method SetDataKey(k: Key)
      modifies this`key, this`value
      ensures View() == Spec.SetDataKey(old(View()), k)
      ensures key == Some(k) && value == if old(value).Pinned? then old(value) else PagedOut
      ensures old(Valid()) ==> Valid()
    {
      ghost var pinning := Pinning();
      key := Some(k);
      value := if value.Pinned? then value else PagedOut;
      assert Pinning() == pinning;
    }
  }

  class Arc<T> {
    var pinned: bool
    const pointer: ArcInner<T>

    constructor (inner: ArcInner<T>, state: bool)
      ensures pointer == inner && pinned == state
    {
      pointer := inner;
      pinned := state;
    }

    ghost predicate Live()
      reads this, pointer, pointer.arcs
    {
      this in pointer.arcs && pointer.Valid()
    }

    /** A clone is pinned exactly when this handle is. */
    method Clone() returns (c: Arc<T>)
      requires Live()
      modifies pointer
      ensures fresh(c) && c.pointer == pointer && c.Live() && Live()
      ensures pointer.arcs == old(pointer.arcs) + {c} && pointer.pins == old(pointer.pins)
      ensures c.pinned == pinned && pointer.value == old(pointer.value) && pointer.key == old(pointer.key)
    {
      ghost var before := pointer.Pinning();
      var state := CloneState();
      assert pointer.Pinning() == before;
      c := new Arc(pointer, state);
      pointer.arcs := pointer.arcs + {c};
      assert pointer.Pinning() == if pinned then before + {c} else before;
    }

    /** The flag of a clone; a pinned handle takes one more pin for it. */
    method CloneState() returns (state: bool)
      requires Live()
      modifies pointer`pinnedCount, pointer`value
      ensures state == pinned && pointer.value == old(pointer.value)
      ensures pointer.pinnedCount == old(pointer.pinnedCount) + if state then 1 else 0
    {
      if pinned {
        PinningHolds(this);
        state := pointer.TryAllocPinned();
      } else {
        state := false;
      }
    }

    /** Pins the value, reading it back from storage when it was paged out. */
    method Pin(storage: map<Key, T>) returns (r: Option<PinnedArc<T>>)
      requires Live()
      modifies this, pointer
      ensures Live() && pointer.arcs == old(pointer.arcs) && pointer.key == old(pointer.key)
      ensures r.None? <==> old(pointer.value).PagedOut? && old(pointer.key).value !in storage
      ensures r.Some? ==>
                && fresh(r.value) && pinned && r.value.pointer == pointer
                && pointer.pins == old(pointer.pins) + {r.value}
                && pointer.value == Pinned(if old(pointer.value).PagedOut? then storage[old(pointer.key).value]
                                           else old(pointer.value).v)
      ensures r.None? ==> pinned == old(pinned) && pointer.View() == old(pointer.View()) && pointer.pins == old(pointer.pins)
    {
      var ok := TakePin(storage);
      if !ok {
        return None;
      }
      ghost var before := pointer.Pinning();
      var p := new PinnedArc(pointer);
      pointer.pins := pointer.pins + {p};
      assert pointer.Pinning() == before;
      return Some(p);
    }

    /** Everything `pin` does to the count and the flag before it builds the new pin. */
    method TakePin(storage: map<Key, T>) returns (ok: bool)
      requires Live()
      modifies this`pinned, pointer`pinnedCount, pointer`value
      ensures ok <==> !(old(pointer.value).PagedOut? && old(pointer.key).value !in storage)
      ensures !ok ==> pinned == old(pinned) && pointer.View() == old(pointer.View())
      ensures ok ==>
                && pinned && pointer.pinnedCount == |pointer.Pinning()| + |pointer.pins| + 1
                && pointer.value == Pinned(if old(pointer.value).PagedOut? then storage[old(pointer.key).value]
                                           else old(pointer.value).v)
    {
      hide Spec.AllocPinned;
      ghost var before := pointer.Pinning();
      AllocPinnedEffect(pointer.View(), storage);
      ok := pointer.AllocPinned(storage);
      if ok {
        if !pinned {
          pinned := true;
          pointer.AddPinnedUnchecked();
        }
        assert pointer.Pinning() == before + {this};
      }
    }

    method Unpin()
      requires Live()
      modifies this, pointer
      ensures Live() && !pinned && pointer.arcs == old(pointer.arcs) && pointer.pins == old(pointer.pins)
      ensures pointer.key == old(pointer.key)
      ensures pointer.value == if old(pinned) then OnePinLess(old(pointer.View())) else old(pointer.value)
      ensures pointer.scheduled == old(pointer.scheduled) + if pointer.value != old(pointer.value) && pointer.key.None? then 1 else 0
    {
      ghost var before := pointer.Pinning();
      if pinned {
        PinningHolds(this);
        pinned := false;
        pointer.ReleasePin();
      }
      assert pointer.Pinning() == before - {this};
    }

    method Drop()
      requires Live()
      modifies pointer
      ensures pointer.Valid() && pointer.arcs == old(pointer.arcs) - {this} && pointer.pins == old(pointer.pins)
      ensures pointer.key == old(pointer.key)
      ensures pointer.value == if pinned then OnePinLess(old(pointer.View())) else old(pointer.value)
      ensures pointer.scheduled == old(pointer.scheduled) + if pointer.value != old(pointer.value) && pointer.key.None? then 1 else 0
    {
      ghost var before := pointer.Pinning();
      if pinned {
        PinningHolds(this);
        pointer.ReleasePin();
      }
      pointer.arcs := pointer.arcs - {this};
      assert pointer.Pinning() == before - {this};
    }
  }

  /** A new allocation with one pinned handle. */
  method NewArc<T>(v: T) returns (a: Arc<T>)
    ensures fresh(a) && fresh(a.pointer) && a.Live() && a.pinned && a.pointer.arcs == {a} && a.pointer.pins == {}
    ensures a.pointer.View() == NewPinned(v)
  {
    var inner := new ArcInner<T>.New(v);
    a := new Arc(inner, true);
    inner.arcs := {a};
    assert inner.Pinning() == {a};
  }

  /** A handle on a value in storage. */
  method NewPagedOutArc<T>(k: Key) returns (a: Arc<T>)
    ensures fresh(a) && fresh(a.pointer) && a.Live() && !a.pinned && a.pointer.arcs == {a} && a.pointer.pins == {}
    ensures a.pointer.View() == Spec.NewPagedOut(k)
  {
    var inner := new ArcInner<T>.NewPagedOut(k);
    a := new Arc(inner, false);
    inner.arcs := {a};
    assert inner.Pinning() == {};
  }

  /** A new allocation with one pin. */
  method NewPinnedArc<T>(v: T) returns (p: PinnedArc<T>)
    ensures fresh(p) && fresh(p.pointer) && p.Live() && p.pointer.arcs == {} && p.pointer.pins == {p}
    ensures p.pointer.View() == NewPinned(v)
  {
    var inner := new ArcInner<T>.New(v);
    p := new PinnedArc(inner);
    inner.pins := {p};
    assert inner.Pinning() == {};
  }

  lemma PinningHolds<T>(a: Arc<T>)
    requires a.Live() && a.pinned
    ensures a in a.pointer.Pinning() && |a.pointer.Pinning()| > 0 && a.pointer.value.Pinned?
  {
  }

  class PinnedArc<T> {
    const pointer: ArcInner<T>

    constructor (inner: ArcInner<T>)
      ensures pointer == inner
    {
      pointer := inner;
    }

    ghost predicate Live()
      reads this, pointer, pointer.arcs
    {
      this in pointer.pins && pointer.Valid()
    }

    /** A live pin can always be read. */
    method Deref() returns (v: T)
      requires Live()
      ensures pointer.value == Pinned(v)
    {
      assert |pointer.pins| > 0;
      v := pointer.value.v;
    }

    method Clone() returns (c: PinnedArc<T>)
      requires Live()
      modifies pointer
      ensures fresh(c) && c.pointer == pointer && Live()
      ensures pointer.pins == old(pointer.pins) + {c} && pointer.arcs == old(pointer.arcs)
      ensures pointer.value == old(pointer.value) && pointer.key == old(pointer.key)
    {
      assert |pointer.pins| > 0;
      ghost var before := pointer.Pinning();
      pointer.AddPinnedUnchecked();
      c := new PinnedArc(pointer);
      pointer.pins := pointer.pins + {c};
      assert pointer.Pinning() == before;
    }

    /** Consumes this pin; the value stays resident throughout. */
    method IntoPagable() returns (a: Arc<T>)
      requires Live()
      modifies pointer
      ensures fresh(a) && a.pointer == pointer && a.pinned && a.Live()
      ensures pointer.pins == old(pointer.pins) - {this} && pointer.arcs == old(pointer.arcs) + {a}
      ensures pointer.View() == old(pointer.View())
    {
      assert |pointer.pins| > 0;
      ghost var before := pointer.Pinning();
      pointer.AddPinnedUnchecked();
      a := new Arc(pointer, true);
      pointer.arcs := pointer.arcs + {a};
      pointer.pins := pointer.pins - {this};
      pointer.ReleasePin();
      assert pointer.Pinning() == before + {a};
    }

    method Drop()
      requires Live()
      modifies pointer
      ensures pointer.Valid() && pointer.pins == old(pointer.pins) - {this} && pointer.arcs == old(pointer.arcs)
      ensures pointer.key == old(pointer.key)
      ensures pointer.value == OnePinLess(old(pointer.View()))
      ensures pointer.scheduled == old(pointer.scheduled) + if pointer.value != old(pointer.value) && pointer.key.None? then 1 else 0
    {
      assert |pointer.pins| > 0;
      ghost var before := pointer.Pinning();
      pointer.ReleasePin();
      pointer.pins := pointer.pins - {this};
      assert pointer.Pinning() == before;
    }
  }
}
