/** The flame graph builder as a stack of stacks over the arena, driven by nested visits
    (`allocative/allocative/src/flamegraph.rs`, `allocative/allocative/src/visitor.rs`). */
module FlameBuilder {
  import opened Options
  import opened FlameGraphs
  import opened FlameArena

  type Pointer = nat

  /** What an `Allocative` implementation does with its visitor. Visitors borrow each other, so a
      child's enter and exit lie within its parent's. `kids` of a shared pointer are visited only
      when `enter_shared` answers with a visitor. */
  datatype Visit =
    | Inline(name: Key, size: nat, kids: seq<Visit>)
    | Unique(name: Key, size: nat, kids: seq<Visit>)
    | Shared(name: Key, size: nat, pointer: Pointer, kids: seq<Visit>)

  datatype TreeStack = TreeStack(stack: seq<TreeId>, tree: TreeId)

  datatype Builder = Builder(visited: set<Pointer>, trees: Trees, current: TreeStack, shared: seq<TreeStack>,
                             entered: bool)

  const FRESH := Builder({}, [NEW_TREE], TreeStack([], 0), [], false)

  // ----- Steps -----

  function Down(b: Builder, key: Key): Builder
    requires b.current.tree < |b.trees|
  {
    var t := b.current.tree;
    var i := FindEdge(b.trees[t].children, key);
    if i < |b.trees[t].children| then
      b.(current := TreeStack(b.current.stack + [t], b.trees[t].children[i].id))
    else
      b.(current := TreeStack(b.current.stack + [t], |b.trees|), trees := AddLeaf(b.trees, t, key))
  }

  function Up(s: TreeStack): Option<TreeStack> {
    if s.stack == [] then None
    else Some(TreeStack(s.stack[..|s.stack| - 1], s.stack[|s.stack| - 1]))
  }

  /** `None` where an assertion of `exit_impl` fails. */
  function Exit(b: Builder): Option<Builder> {
    if !b.entered then None
    else
      var up := Up(b.current);
      if up.Some? then Some(b.(current := up.value))
      else if b.shared == [] then Some(b.(entered := false))
      else
        var last := Up(b.shared[|b.shared| - 1]);
        if last.None? then None
        else Some(b.(current := last.value, shared := b.shared[..|b.shared| - 1]))
  }

  function Enter(b: Builder, key: Key, size: nat): Builder
    requires Downward(b.trees) && b.current.tree < |b.trees|
  {
    var d := Down(b, key);
    d.(trees := Grow(d.trees, d.current.tree, size))
  }

  function EnterUnique(b: Builder, key: Key, size: nat): Builder
    requires Downward(b.trees) && b.current.tree < |b.trees|
  {
    var d := Enter(b, key, size);
    d.(trees := MarkUnique(d.trees, d.current.tree))
  }

  /** The builder, and whether the pointee is to be visited. */
  function EnterShared(b: Builder, key: Key, size: nat, p: Pointer): Option<(Builder, bool)>
    requires Downward(b.trees) && b.current.tree < |b.trees|
  {
    var d := Enter(b, key, size);
    if p in d.visited then
      var e := Exit(d);
      if e.None? then None else Some((e.value, false))
    else
      Some((d.(visited := d.visited + {p}, shared := d.shared + [d.current], current := TreeStack([], 0)), true))
  }

  // ----- Visits -----

  ghost predicate Ready(b: Builder) {
    Downward(b.trees) && b.current.tree < |b.trees| && b.entered
  }

  ghost function Run(b: Builder, v: Visit): Option<Builder>
    decreases v
  {
    if !Ready(b) then None
    else
      match v
      case Inline(name, size, kids) => RunThenExit(Enter(b, name, size), kids)
      case Unique(name, size, kids) => RunThenExit(EnterUnique(b, name, size), kids)
      case Shared(name, size, p, kids) =>
        var d := EnterShared(b, name, size, p);
        if d.None? then None
        else if d.value.1 then RunThenExit(d.value.0, kids)
        else Some(d.value.0)
  }

  ghost function RunThenExit(b: Builder, vs: seq<Visit>): Option<Builder>
    decreases vs, 1
  {
    var d := RunAll(b, vs);
    if d.None? then None else Exit(d.value)
  }

  ghost function RunAll(b: Builder, vs: seq<Visit>): Option<Builder>
    decreases vs, 0
  {
    if vs == [] then Some(b)
    else
      var d := Run(b, vs[0]);
      if d.None? then None else RunAll(d.value, vs[1..])
  }

  /** `visit_root`; `None` where its assertion fails. */
  ghost function VisitRoot(b: Builder, vs: seq<Visit>): Option<Builder> {
    if b.entered then None else RunThenExit(b.(entered := true), vs)
  }

  ghost function VisitRoots(b: Builder, roots: seq<seq<Visit>>): Option<Builder>
    decreases |roots|
  {
    if roots == [] then Some(b)
    else
      var d := VisitRoot(b, roots[0]);
      if d.None? then None else VisitRoots(d.value, roots[1..])
  }

  // ----- Every visit restores the stacks -----

  /** Where `b` stood, with whatever arena `d` has. */
  ghost predicate Back(b: Builder, d: Builder) {
    && Ready(d) && d.current == b.current && d.shared == b.shared && |b.trees| <= |d.trees|
  }

  lemma EnterDown(b: Builder, key: Key, size: nat)
    requires Ready(b)
    ensures Ready(Enter(b, key, size)) && Ready(EnterUnique(b, key, size))
    ensures Enter(b, key, size).current.stack == b.current.stack + [b.current.tree]
    ensures EnterUnique(b, key, size).current == Enter(b, key, size).current
    ensures |b.trees| <= |Enter(b, key, size).trees|
  {
    LeafDownward(b.trees, b.current.tree, key);
    var d := Down(b, key);
    assert Downward(d.trees) && d.current.tree < |d.trees|;
  }

  lemma LeafDownward(ts: Trees, c: TreeId, key: Key)
    requires Downward(ts) && c < |ts|
    ensures Downward(AddLeaf(ts, c, key))
  {
  }

  /** Leaving a node entered from `b` comes back to where `b` stood. */
  lemma ExitUp(b: Builder, d: Builder)
    requires Ready(d) && b.current.tree < |b.trees| <= |d.trees|
    requires d.current.stack == b.current.stack + [b.current.tree] && d.shared == b.shared
    ensures Exit(d).Some? && Back(b, Exit(d).value)
    ensures Exit(d).value == d.(current := b.current)
  {
  }

  /** Leaving a shared pointee comes back to where the pointer was entered from. */
  lemma ExitShared(b: Builder, inner: TreeStack, d: Builder)
    requires Ready(d) && b.current.tree < |b.trees| <= |d.trees|
    requires inner.stack == b.current.stack + [b.current.tree]
    requires d.current.stack == [] && d.shared == b.shared + [inner]
    ensures Exit(d).Some? && Back(b, Exit(d).value)
    ensures Exit(d).value == d.(current := b.current, shared := b.shared)
  {
  }

  lemma {:induction false} Restores(b: Builder, v: Visit)
    requires Ready(b)
    ensures Run(b, v).Some? && Back(b, Run(b, v).value)
    decreases v
  {
    hide Downward, Enter, Exit;
    EnterDown(b, v.name, v.size);
    var d := Enter(b, v.name, v.size);
    EnterSame(b, v.name, v.size);
    match v
    case Inline(name, size, kids) =>
      RestoresAll(d, kids);
      ExitUp(b, RunAll(d, kids).value);
    case Unique(name, size, kids) =>
      var u := EnterUnique(b, name, size);
      RestoresAll(u, kids);
      ExitUp(b, RunAll(u, kids).value);
    case Shared(name, size, p, kids) =>
      if p in d.visited {
        ExitUp(b, d);
      } else {
        var e := d.(visited := d.visited + {p}, shared := d.shared + [d.current], current := TreeStack([], 0));
        RestoresAll(e, kids);
        ExitShared(b, d.current, RunAll(e, kids).value);
      }
  }

  lemma EnterSame(b: Builder, key: Key, size: nat)
    requires Ready(b)
    ensures Enter(b, key, size).shared == b.shared && EnterUnique(b, key, size).shared == b.shared
    ensures Enter(b, key, size).visited == b.visited && EnterUnique(b, key, size).visited == b.visited
    ensures |EnterUnique(b, key, size).trees| == |Enter(b, key, size).trees|
  {
  }

  lemma {:induction false} RestoresAll(b: Builder, vs: seq<Visit>)
    requires Ready(b)
    ensures RunAll(b, vs).Some? && Back(b, RunAll(b, vs).value)
    decreases vs
  {
    hide Ready;
    if vs != [] {
      Restores(b, vs[0]);
      RestoresAll(Run(b, vs[0]).value, vs[1..]);
    }
  }

  /** Between roots: nothing entered, nothing on any stack. */
  ghost predicate Idle(b: Builder) {
    !b.entered && b.current == TreeStack([], 0) && b.shared == [] && b.trees != [] && Downward(b.trees)
  }

  /** Any visits to any roots end where they began, so the assertions of `finish` hold. */
  lemma {:induction false} RootsRestore(b: Builder, roots: seq<seq<Visit>>)
    requires Idle(b)
    ensures VisitRoots(b, roots).Some? && Idle(VisitRoots(b, roots).value)
    decreases |roots|
  {
    if roots != [] {
      RestoresAll(b.(entered := true), roots[0]);
      RootsRestore(VisitRoot(b, roots[0]).value, roots[1..]);
    }
  }
}
