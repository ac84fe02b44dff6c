/** Distances of a layered breadth-first search, for any start set and step relation. */
module Layers {

  /** `s` is `n` steps away from some start, along some path. */
  ghost predicate After<T(!new)>(start: T -> bool, step: (T, T) -> bool, n: nat, s: T)
    decreases n
  {
    if n == 0 then start(s) else exists p :: After(start, step, n - 1, p) && step(p, s)
  }

  ghost predicate Within<T(!new)>(start: T -> bool, step: (T, T) -> bool, n: nat, s: T) {
    exists m: nat :: m <= n && After(start, step, m, s)
  }

  /** `n` is the least number of steps that reaches `s`. */
  ghost predicate At<T(!new)>(start: T -> bool, step: (T, T) -> bool, n: nat, s: T) {
    After(start, step, n, s) && forall m: nat :: m < n ==> !After(start, step, m, s)
  }

  ghost predicate NoneAt<T(!new)>(start: T -> bool, step: (T, T) -> bool, n: nat) {
    forall s :: !At(start, step, n, s)
  }

  /** Everything reachable at all is within `n` steps. */
  ghost predicate AllWithin<T(!new)>(start: T -> bool, step: (T, T) -> bool, n: nat) {
    forall m: nat, s :: After(start, step, m, s) ==> Within(start, step, n, s)
  }

  // ----- What a layered search holds -----

  ghost predicate IsLayer<T(!new)>(start: T -> bool, step: (T, T) -> bool, n: nat, layer: set<T>) {
    forall s :: s in layer <==> At(start, step, n, s)
  }

  ghost predicate IsBall<T(!new)>(start: T -> bool, step: (T, T) -> bool, n: nat, ball: set<T>) {
    forall s :: s in ball <==> Within(start, step, n, s)
  }

  ghost predicate IsImage<T(!new)>(step: (T, T) -> bool, from: set<T>, to: set<T>) {
    forall t :: t in to <==> exists s :: s in from && step(s, t)
  }

  lemma FirstLayer<T(!new)>(start: T -> bool, step: (T, T) -> bool, starts: set<T>)
    requires forall s :: s in starts <==> start(s)
    ensures IsLayer(start, step, 0, starts) && IsBall(start, step, 0, starts)
  {
    forall s ensures s in starts <==> Within(start, step, 0, s) {
      assert s in starts <==> After(start, step, 0, s);
    }
  }

  lemma NextLayerOf<T(!new)>(start: T -> bool, step: (T, T) -> bool, n: nat, s: T)
    ensures At(start, step, n + 1, s) <==>
            (exists p :: At(start, step, n, p) && step(p, s)) && !Within(start, step, n, s)
  {
    if At(start, step, n + 1, s) {
      var p :| After(start, step, n, p) && step(p, s);
      forall m: nat | m < n ensures !After(start, step, m, p) {
        if After(start, step, m, p) {
          assert After(start, step, m + 1, s);
        }
      }
      assert At(start, step, n, p);
    }
  }

  lemma WithinGrows<T(!new)>(start: T -> bool, step: (T, T) -> bool, n: nat, s: T)
    ensures Within(start, step, n + 1, s) <==> Within(start, step, n, s) || At(start, step, n + 1, s)
  {
    if Within(start, step, n + 1, s) && !Within(start, step, n, s) {
      var m: nat :| m <= n + 1 && After(start, step, m, s);
      assert m == n + 1;
    }
  }

  /** The unseen part of a layer's image is exactly the next layer. */
  lemma NextLayer<T(!new)>(start: T -> bool, step: (T, T) -> bool, n: nat,
                           layer: set<T>, ball: set<T>, image: set<T>)
    requires IsLayer(start, step, n, layer) && IsBall(start, step, n, ball) && IsImage(step, layer, image)
    ensures IsLayer(start, step, n + 1, image - ball)
    ensures IsBall(start, step, n + 1, ball + (image - ball))
  {
    forall s ensures s in image - ball <==> At(start, step, n + 1, s) {
      NextLayerOf(start, step, n, s);
    }
    forall s ensures s in ball + (image - ball) <==> Within(start, step, n + 1, s) {
      WithinGrows(start, step, n, s);
    }
  }

  /** Nothing lies beyond the first empty layer. */
  lemma EmptyLayerEnds<T(!new)>(start: T -> bool, step: (T, T) -> bool, n: nat)
    requires NoneAt(start, step, n + 1)
    ensures AllWithin(start, step, n)
  {
    forall m: nat, s | After(start, step, m, s) ensures Within(start, step, n, s) {
      EmptyLayerEndsAt(start, step, n, m, s);
    }
  }

  lemma {:induction false} EmptyLayerEndsAt<T(!new)>(start: T -> bool, step: (T, T) -> bool, n: nat, m: nat, s: T)
    requires After(start, step, m, s) && NoneAt(start, step, n + 1)
    ensures Within(start, step, n, s)
    decreases m
  {
    if m > n {
      var p :| After(start, step, m - 1, p) && step(p, s);
      EmptyLayerEndsAt(start, step, n, m - 1, p);
      var j: nat :| j <= n && After(start, step, j, p);
      assert After(start, step, j + 1, s);
      WithinGrows(start, step, n, s);
      assert Within(start, step, n + 1, s);
    }
  }

  lemma NothingBeyond<T(!new)>(start: T -> bool, step: (T, T) -> bool, n: nat, m: nat)
    requires AllWithin(start, step, n) && m > n
    ensures NoneAt(start, step, m)
  {
    forall s ensures !At(start, step, m, s) {
      if After(start, step, m, s) {
        var j: nat :| j <= n && After(start, step, j, s);
      }
    }
  }

  lemma LaterLayerNeedsFirst<T(!new)>(start: T -> bool, step: (T, T) -> bool)
    requires NoneAt(start, step, 0)
    ensures NoneAt(start, step, 1)
  {
    forall s ensures !At(start, step, 1, s) {
      NextLayerOf(start, step, 0, s);
    }
  }

  /** What starts satisfy and steps keep holds everywhere the search can get. */
  lemma {:induction false} Invariance<T(!new)>(start: T -> bool, step: (T, T) -> bool, inv: T -> bool, n: nat, s: T)
    requires forall t :: start(t) ==> inv(t)
    requires forall t, u :: inv(t) && step(t, u) ==> inv(u)
    requires After(start, step, n, s)
    ensures inv(s)
    decreases n
  {
    if n > 0 {
      var p :| After(start, step, n - 1, p) && step(p, s);
      Invariance(start, step, inv, n - 1, p);
    }
  }
}
