/** Any number of requests taking semaphores from one broker, one at a time, under any
    schedule. */
module HostSharingBroker {
  import opened Options
  import opened HostSharing

  type Rid = nat

  /** What a request is doing: waiting for its `next`-th semaphore (the host permits come after
      all names), `queued` once it stands in line; running with everything; or done. */
  datatype Phase = Waiting(next: nat, queued: bool) | Running | Finished

  datatype Sem = Name(token: Token) | Host

  /** `held` maps each taken name to its holder; `free` counts untaken host permits; each
      semaphore lines up its waiters in arrival order. `fifo` is the host-sharing strategy. */
  datatype Broker = Broker(
    machine: nat, fifo: bool, plans: seq<Plan>,
    phases: seq<Phase>, held: map<Token, Rid>, free: int, lines: map<Sem, seq<Rid>>)
  {
    function Line(s: Sem): seq<Rid> {
      if s in lines then lines[s] else []
    }

    /** The semaphore request `r` needs next. */
    function Wants(r: Rid): Sem
      requires r < |plans| == |phases| && phases[r].Waiting?
    {
      if phases[r].next < |plans[r].names| then Name(plans[r].names[phases[r].next]) else Host
    }

    /** Enough permits are free, and in a fair semaphore `r` is first in line. */
    predicate CanTake(r: Rid)
      requires r < |plans| == |phases| && phases[r].Waiting?
    {
      var s := Wants(r);
      && r in Line(s)
      && (if s.Name? then s.token !in held else plans[r].permits <= free)
      && (s.Name? || fifo ==> Line(s)[0] == r)
    }
  }

  datatype Step = Queue(r: Rid) | Take(r: Rid) | Finish(r: Rid)

  function Without(s: seq<Rid>, r: Rid): (t: seq<Rid>)
    ensures forall x :: x in t <==> x in s && x != r
  {
    if s == [] then []
    else if s[0] == r then Without(s[1..], r)
    else [s[0]] + Without(s[1..], r)
  }

  function Next(b: Broker, st: Step): Option<Broker>
    requires |b.plans| == |b.phases|
  {
    var r := st.r;
    if r >= |b.phases| then None
    else match st
      case Queue(_) =>
        if b.phases[r].Waiting? && !b.phases[r].queued then
          var s := b.Wants(r);
          Some(b.(phases := b.phases[r := Waiting(b.phases[r].next, true)],
                  lines := b.lines[s := b.Line(s) + [r]]))
        else None
      case Take(_) =>
        if b.phases[r].Waiting? && b.phases[r].queued && b.CanTake(r) then
          var s := b.Wants(r);
          var rest := b.lines[s := Without(b.Line(s), r)];
          if s.Name? then
            Some(b.(phases := b.phases[r := Waiting(b.phases[r].next + 1, false)],
                    held := b.held[s.token := r], lines := rest))
          else
            Some(b.(phases := b.phases[r := Running], free := b.free - b.plans[r].permits, lines := rest))
        else None
      case Finish(_) =>
        if b.phases[r].Running? then
          Some(b.(phases := b.phases[r := Finished],
                  held := map t | t in b.held && b.held[t] != r :: b.held[t],
                  free := b.free + b.plans[r].permits))
        else None
  }

  function Start(machine: nat, fifo: bool, plans: seq<Plan>): Broker {
    Broker(machine, fifo, plans, seq(|plans|, _ => Waiting(0, false)), map[], machine, map[])
  }

  // ----- Invariant -----

  predicate Holds(b: Broker, r: Rid, t: Token)
    requires r < |b.plans| == |b.phases|
  {
    match b.phases[r]
    case Waiting(next, _) => exists j :: 0 <= j < next && j < |b.plans[r].names| && b.plans[r].names[j] == t
    case Running => t in b.plans[r].names
    case Finished => false
  }

  function HostHeld(b: Broker, n: nat): int
    requires n <= |b.plans| == |b.phases|
  {
    if n == 0 then 0
    else HostHeld(b, n - 1) + if b.phases[n - 1].Running? then b.plans[n - 1].permits else 0
  }

  ghost predicate PlansOk(b: Broker) {
    && |b.plans| == |b.phases|
    && (forall r :: 0 <= r < |b.plans| ==> PlanOk(b.plans[r], b.machine))
    && (forall r :: 0 <= r < |b.plans| ==> (b.phases[r].Waiting? ==> b.phases[r].next <= |b.plans[r].names|))
  }

  /** A name is taken exactly while its recorded holder holds it. */
  ghost predicate HeldOk(b: Broker)
    requires |b.plans| == |b.phases|
  {
    && (forall t :: t in b.held ==> b.held[t] < |b.plans|)
    && (forall r, t :: 0 <= r < |b.plans| ==> (Holds(b, r, t) <==> t in b.held && b.held[t] == r))
  }

  /** Exactly the queued requests stand in line, each for the semaphore it wants. */
  ghost predicate LinesOk(b: Broker)
    requires |b.plans| == |b.phases|
  {
    forall s, r: Rid :: LineOk(b, s, r)
  }

  ghost predicate LineOk(b: Broker, s: Sem, r: Rid)
    requires |b.plans| == |b.phases|
  {
    r in b.Line(s) <==> r < |b.plans| && b.phases[r].Waiting? && b.phases[r].queued && b.Wants(r) == s
  }

  ghost predicate Inv(b: Broker) {
    PlansOk(b) && HeldOk(b) && LinesOk(b) && b.free >= 0 && b.free + HostHeld(b, |b.plans|) == b.machine
  }

  lemma {:induction false} HostHeldUpdate(b: Broker, c: Broker, r: Rid, n: nat)
    requires n <= |b.plans| == |b.phases| && b.plans == c.plans && r < |b.plans|
    requires |c.phases| == |b.phases| && c.phases == b.phases[r := c.phases[r]]
    ensures HostHeld(c, n) == HostHeld(b, n)
              + (if r < n && c.phases[r].Running? then b.plans[r].permits else 0)
              - (if r < n && b.phases[r].Running? then b.plans[r].permits else 0)
    decreases n
  {
    if n > 0 {
      HostHeldUpdate(b, c, r, n - 1);
    }
  }

  lemma StartInv(machine: nat, fifo: bool, plans: seq<Plan>)
    requires forall p :: p in plans ==> PlanOk(p, machine)
    ensures Inv(Start(machine, fifo, plans))
  {
    NothingHeld(Start(machine, fifo, plans), |plans|);
  }

  lemma {:induction false} NothingHeld(b: Broker, n: nat)
    requires n <= |b.plans| == |b.phases| && forall r :: 0 <= r < |b.phases| ==> !b.phases[r].Running?
    ensures HostHeld(b, n) == 0
    decreases n
  {
    if n > 0 {
      NothingHeld(b, n - 1);
    }
  }

  /** A step changes nobody else's place. */
  lemma OthersStayInLine(b: Broker, st: Step, s: Sem, q: Rid)
    requires PlansOk(b) && LineOk(b, s, q) && Next(b, st).Some? && q != st.r
    ensures LineOk(Next(b, st).value, s, q)
  {
    hide PlanOk;
    var c := Next(b, st).value;
    assert q in c.Line(s) <==> q in b.Line(s);
    assert c.plans == b.plans && (q < |b.plans| ==> c.phases[q] == b.phases[q]);
  }

  lemma OwnPlaceInLine(b: Broker, st: Step, s: Sem)
    requires PlansOk(b) && Next(b, st).Some? && LineOk(b, s, st.r)
    ensures LineOk(Next(b, st).value, s, st.r)
  {
    hide PlanOk;
    var c := Next(b, st).value;
    var r := st.r;
    match st
    case Queue(_) =>
      assert c.Wants(r) == b.Wants(r);
      assert r in c.Line(s) <==> s == b.Wants(r) || r in b.Line(s);
    case Take(_) =>
      assert r !in c.Line(s);
    case Finish(_) =>
      assert c.Line(s) == b.Line(s);
  }

  lemma StepKeepsLines(b: Broker, st: Step)
    requires PlansOk(b) && LinesOk(b) && Next(b, st).Some?
    ensures LinesOk(Next(b, st).value)
  {
    hide LineOk, Next, PlanOk;
    NextSizes(b, st);
    var c := Next(b, st).value;
    forall s, q: Rid ensures LineOk(c, s, q) {
      if q == st.r {
        OwnPlaceInLine(b, st, s);
      } else {
        OthersStayInLine(b, st, s, q);
      }
    }
  }

  lemma NextSizes(b: Broker, st: Step)
    requires |b.plans| == |b.phases| && Next(b, st).Some?
    ensures |Next(b, st).value.plans| == |Next(b, st).value.phases|
  {
  }

  lemma StepKeepsHeld(b: Broker, st: Step)
    requires PlansOk(b) && HeldOk(b) && Next(b, st).Some?
    ensures HeldOk(Next(b, st).value)
  {
    var c := Next(b, st).value;
    var r := st.r;
    forall q, t | 0 <= q < |c.plans| ensures Holds(c, q, t) <==> t in c.held && c.held[t] == q {
      assert Holds(b, q, t) <==> t in b.held && b.held[t] == q;
      if q == r && st.Take? && b.Wants(r).Name? {
        assert Holds(c, r, t) <==> Holds(b, r, t) || t == b.Wants(r).token by {
          var next := b.phases[r].next;
          if Holds(b, r, t) {
            var j :| 0 <= j < next && j < |b.plans[r].names| && b.plans[r].names[j] == t;
            assert 0 <= j < next + 1;
          }
          assert b.plans[r].names[next] == b.Wants(r).token;
        }
      }
    }
  }

  lemma StepKeepsInv(b: Broker, st: Step)
    requires Inv(b) && Next(b, st).Some?
    ensures Inv(Next(b, st).value)
  {
    StepKeepsLines(b, st);
    StepKeepsHeld(b, st);
    HostHeldUpdate(b, Next(b, st).value, st.r, |b.plans|);
  }

  // ----- Runs -----

  ghost predicate Leads(b: Broker, steps: seq<Step>, c: Broker)
    decreases |steps|
  {
    if steps == [] then c == b
    else |b.plans| == |b.phases| && Next(b, steps[0]).Some? && Leads(Next(b, steps[0]).value, steps[1..], c)
  }

  lemma {:induction false} RunKeepsInv(b: Broker, steps: seq<Step>, c: Broker)
    requires Inv(b) && Leads(b, steps, c)
    ensures Inv(c) && c.machine == b.machine && c.plans == b.plans && c.fifo == b.fifo
    decreases |steps|
  {
    if steps != [] {
      StepKeepsInv(b, steps[0]);
      RunKeepsInv(Next(b, steps[0]).value, steps[1..], c);
    }
  }

  // ----- Exclusion -----

  lemma {:induction false} HostHeldCovers(b: Broker, r: Rid, q: Rid, n: nat)
    requires n <= |b.plans| == |b.phases| && r < n && q < n
    requires b.phases[r].Running? && b.phases[q].Running?
    ensures HostHeld(b, n) >= b.plans[r].permits + if q != r then b.plans[q].permits else 0
    decreases n
  {
    if n - 1 != r && n - 1 != q {
      HostHeldCovers(b, r, q, n - 1);
    } else if n - 1 != q {
      HostHeldCovers(b, q, q, n - 1);
    } else if n - 1 != r {
      HostHeldCovers(b, r, r, n - 1);
    } else {
      HostHeldNonNegative(b, n - 1);
    }
  }

  lemma {:induction false} HostHeldNonNegative(b: Broker, n: nat)
    requires n <= |b.plans| == |b.phases|
    ensures HostHeld(b, n) >= 0
    decreases n
  {
    if n > 0 {
      HostHeldNonNegative(b, n - 1);
    }
  }

  /** In every reachable state no two requests hold the same token, permits are neither lost nor
      invented, and a request holding all of them leaves every other runner with none. */
  lemma EveryReachableState(machine: nat, fifo: bool, plans: seq<Plan>, steps: seq<Step>, b: Broker)
    requires (forall p :: p in plans ==> PlanOk(p, machine)) && Leads(Start(machine, fifo, plans), steps, b)
    ensures |b.plans| == |b.phases| == |plans|
    ensures forall r: Rid, q: Rid, t :: r < |plans| && q < |plans| && Holds(b, r, t) && Holds(b, q, t) ==> r == q
    ensures b.free + HostHeld(b, |plans|) == machine && b.free >= 0
    ensures forall r: Rid, q: Rid :: r < |plans| && q < |plans| && r != q
              && b.phases[r].Running? && b.phases[q].Running? && b.plans[r].permits == machine
              ==> b.plans[q].permits == 0
  {
    StartInv(machine, fifo, plans);
    RunKeepsInv(Start(machine, fifo, plans), steps, b);
    forall r: Rid, q: Rid | r < |plans| && q < |plans| && r != q
        && b.phases[r].Running? && b.phases[q].Running? && b.plans[r].permits == machine
      ensures b.plans[q].permits == 0
    {
      HostHeldCovers(b, r, q, |plans|);
    }
  }

  // ----- No deadlock -----

  predicate WaitsForName(b: Broker, r: Rid)
    requires |b.plans| == |b.phases|
  {
    r < |b.plans| && b.phases[r].Waiting? && b.Wants(r).Name?
  }

  /** Among the requests waiting for a name, one waits for the greatest. */
  lemma {:induction false} GreatestName(b: Broker, n: nat) returns (r: Rid)
    requires n <= |b.plans| == |b.phases| && exists q: Rid :: q < n && WaitsForName(b, q)
    ensures r < n && WaitsForName(b, r)
    ensures forall q: Rid :: q < n && WaitsForName(b, q) ==> !Less(b.Wants(r).token, b.Wants(q).token)
    decreases n
  {
    var last := n - 1;
    if !(exists q: Rid :: q < n - 1 && WaitsForName(b, q)) {
      r := n - 1;
      LessIrreflexive(b.Wants(r).token);
    } else {
      var m := GreatestName(b, n - 1);
      r := m;
      if WaitsForName(b, n - 1) && Less(b.Wants(m).token, b.Wants(n - 1).token) {
        r := n - 1;
        LessIrreflexive(b.Wants(r).token);
        forall q: Rid | q < n && WaitsForName(b, q) ensures !Less(b.Wants(r).token, b.Wants(q).token) {
          if q < n - 1 && Less(b.Wants(r).token, b.Wants(q).token) {
            LessTrans(b.Wants(m).token, b.Wants(r).token, b.Wants(q).token);
          }
        }
      }
    }
  }

  /** The first in line for a semaphore with enough permits can take it. */
  lemma FirstInLine(b: Broker, r: Rid) returns (st: Step)
    requires PlansOk(b) && LinesOk(b) && r < |b.plans| && b.phases[r].Waiting?
    requires b.Wants(r).Name? ==> b.Wants(r).token !in b.held
    requires b.Wants(r).Host? ==> b.free == b.machine
    ensures Next(b, st).Some?
  {
    var s := b.Wants(r);
    if !b.phases[r].queued {
      st := Queue(r);
    } else {
      assert LineOk(b, s, r);
      var first := b.Line(s)[0];
      assert LineOk(b, s, first);
      assert b.Wants(first) == s && b.plans[first].permits <= b.machine;
      st := Take(first);
    }
  }

  /** A holder that still waits for a name waits for one greater than any it holds. */
  lemma HolderWantsMore(b: Broker, t: Token)
    requires Inv(b) && t in b.held && WaitsForName(b, b.held[t])
    ensures Less(t, b.Wants(b.held[t]).token)
  {
    var q := b.held[t];
    assert Holds(b, q, t);
    var j :| 0 <= j < b.phases[q].next && j < |b.plans[q].names| && b.plans[q].names[j] == t;
    assert PlanOk(b.plans[q], b.machine);
  }

  /** The greatest wanted name is free when nobody runs or waits for the host: its holder would
      be waiting for a greater one. */
  lemma GreatestIsFree(b: Broker, r: Rid)
    requires Inv(b) && WaitsForName(b, r)
    requires forall q: Rid :: q < |b.plans| ==> b.phases[q].Finished? || WaitsForName(b, q)
    requires forall q: Rid :: q < |b.plans| && WaitsForName(b, q) ==> !Less(b.Wants(r).token, b.Wants(q).token)
    ensures b.Wants(r).token !in b.held
  {
    forall t | t in b.held
      ensures WaitsForName(b, b.held[t]) && Less(t, b.Wants(b.held[t]).token)
    {
      assert Holds(b, b.held[t], t);
      HolderWantsMore(b, t);
    }
  }

  /** Whatever the requests and the schedule, while some request is unfinished some request can
      move on: join the line it needs, take its next semaphore, or finish. */
  lemma NeverDeadlocks(b: Broker, r: Rid) returns (st: Step)
    requires Inv(b) && r < |b.plans| && !b.phases[r].Finished?
    ensures Next(b, st).Some?
  {
    if q: Rid :| q < |b.plans| && b.phases[q].Running? {
      st := Finish(q);
    } else if q: Rid :| q < |b.plans| && b.phases[q].Waiting? && b.Wants(q).Host? {
      NothingHeld(b, |b.plans|);
      st := FirstInLine(b, q);
    } else {
      assert WaitsForName(b, r);
      var g := GreatestName(b, |b.plans|);
      GreatestIsFree(b, g);
      st := FirstInLine(b, g);
    }
  }

  // ----- Every run ends with everything finished -----

  function WorkOf(p: Plan, ph: Phase): int {
    match ph
    case Waiting(next, queued) => 2 * (|p.names| - next) + if queued then 2 else 3
    case Running => 1
    case Finished => 0
  }

  function Work(b: Broker, n: nat): int
    requires n <= |b.plans| == |b.phases|
  {
    if n == 0 then 0 else Work(b, n - 1) + WorkOf(b.plans[n - 1], b.phases[n - 1])
  }

  lemma {:induction false} WorkUpdate(b: Broker, c: Broker, r: Rid, n: nat)
    requires n <= |b.plans| == |b.phases| == |c.phases| && b.plans == c.plans && r < |b.plans|
    requires c.phases == b.phases[r := c.phases[r]]
    ensures Work(c, n) - Work(b, n)
            == if r < n then WorkOf(b.plans[r], c.phases[r]) - WorkOf(b.plans[r], b.phases[r]) else 0
    decreases n
  {
    if n > 0 {
      WorkUpdate(b, c, r, n - 1);
    }
  }

  lemma {:induction false} WorkCountsSteps(b: Broker, steps: seq<Step>, c: Broker)
    requires Inv(b) && Leads(b, steps, c)
    ensures |c.plans| == |c.phases| == |b.plans|
    ensures |steps| + Work(c, |c.plans|) == Work(b, |b.plans|)
    decreases |steps|
  {
    if steps != [] {
      var n := Next(b, steps[0]).value;
      StepKeepsInv(b, steps[0]);
      WorkUpdate(b, n, steps[0].r, |b.plans|);
      WorkCountsSteps(n, steps[1..], c);
    }
  }

  lemma {:induction false} WorkNonNegative(b: Broker, n: nat)
    requires PlansOk(b) && n <= |b.plans|
    ensures Work(b, n) >= 0
    decreases n
  {
    if n > 0 {
      WorkNonNegative(b, n - 1);
    }
  }

  /** No run is longer than the work of its requests, and a run that cannot be continued has
      finished every request and returned every token and permit. */
  lemma EveryRunFinishes(machine: nat, fifo: bool, plans: seq<Plan>, steps: seq<Step>, b: Broker)
    requires (forall p :: p in plans ==> PlanOk(p, machine)) && Leads(Start(machine, fifo, plans), steps, b)
    ensures |b.plans| == |b.phases| == |plans|
    ensures |steps| <= Work(Start(machine, fifo, plans), |plans|)
    ensures (forall st :: Next(b, st).None?) ==>
              (forall r: Rid :: r < |plans| ==> b.phases[r].Finished?) && b.held == map[] && b.free == machine
  {
    var start := Start(machine, fifo, plans);
    StartInv(machine, fifo, plans);
    RunKeepsInv(start, steps, b);
    WorkCountsSteps(start, steps, b);
    WorkNonNegative(b, |plans|);
    if forall st :: Next(b, st).None? {
      forall r: Rid | r < |plans| ensures b.phases[r].Finished? {
        if !b.phases[r].Finished? {
          var st := NeverDeadlocks(b, r);
        }
      }
      NothingHeld(b, |plans|);
      assert forall t :: t in b.held ==> Holds(b, b.held[t], t);
    }
  }

  // ----- Arrival order -----

  /** When `r` last joined a line, counted in steps; zero if it never did. */
  function JoinedAt(past: seq<Step>, r: Rid): (n: nat)
    ensures n <= |past|
  {
    if past == [] then 0
    else if past[|past| - 1] == Queue(r) then |past|
    else JoinedAt(past[..|past| - 1], r)
  }

  ghost predicate InOrder(past: seq<Step>, line: seq<Rid>) {
    forall i, j :: 0 <= i < j < |line| ==> JoinedAt(past, line[i]) < JoinedAt(past, line[j])
  }

  lemma JoinedLater(past: seq<Step>, st: Step, r: Rid)
    ensures JoinedAt(past + [st], r) == if st == Queue(r) then |past| + 1 else JoinedAt(past, r)
  {
    assert (past + [st])[..|past|] == past;
  }

  lemma {:induction false} WithoutInOrder(past: seq<Step>, line: seq<Rid>, r: Rid)
    requires InOrder(past, line)
    ensures InOrder(past, Without(line, r))
  {
    if line != [] {
      WithoutInOrder(past, line[1..], r);
      var rest := Without(line[1..], r);
      forall j | 0 <= j < |rest| ensures JoinedAt(past, line[0]) < JoinedAt(past, rest[j]) {
        assert rest[j] in rest;
        var k :| 0 <= k < |line[1..]| && line[1..][k] == rest[j];
        assert line[k + 1] == rest[j];
      }
    }
  }

  /** Every line stays in the order its requests joined it. */
  lemma StepKeepsOrder(b: Broker, past: seq<Step>, st: Step, s: Sem)
    requires Inv(b) && Next(b, st).Some? && InOrder(past, b.Line(s))
    ensures InOrder(past + [st], Next(b, st).value.Line(s))
  {
    hide PlanOk, HeldOk, HostHeld;
    var line, r := b.Line(s), st.r;
    forall q: Rid | st != Queue(q) ensures JoinedAt(past + [st], q) == JoinedAt(past, q) {
      JoinedLater(past, st, q);
    }
    if st.Queue? {
      JoinedLater(past, st, r);
      assert LineOk(b, s, r);
    } else if st.Take? && s == b.Wants(r) {
      WithoutInOrder(past, line, r);
    }
  }

  lemma {:induction false} RunKeepsOrder(b: Broker, past: seq<Step>, steps: seq<Step>, c: Broker, s: Sem)
    requires Inv(b) && Leads(b, steps, c) && InOrder(past, b.Line(s))
    ensures InOrder(past + steps, c.Line(s))
    decreases |steps|
  {
    hide Inv, Next, InOrder;
    if steps == [] {
      assert past + steps == past;
    } else {
      StepKeepsInv(b, steps[0]);
      StepKeepsOrder(b, past, steps[0], s);
      RunKeepsOrder(Next(b, steps[0]).value, past + [steps[0]], steps[1..], c, s);
      assert past + [steps[0]] + steps[1..] == past + steps;
    }
  }

  /** A token, and under the fair strategy the host too, goes to the request that has waited for it
      longest. */
  lemma ServedInOrder(machine: nat, fifo: bool, plans: seq<Plan>, steps: seq<Step>, b: Broker, r: Rid, q: Rid)
    requires (forall p :: p in plans ==> PlanOk(p, machine)) && Leads(Start(machine, fifo, plans), steps, b)
    requires |b.plans| == |b.phases| && Next(b, Take(r)).Some? && (b.Wants(r).Name? || fifo)
    requires q < |b.plans| && b.phases[q].Waiting? && b.phases[q].queued && b.Wants(q) == b.Wants(r) && q != r
    ensures JoinedAt(steps, r) < JoinedAt(steps, q)
  {
    var start, s := Start(machine, fifo, plans), b.Wants(r);
    StartInv(machine, fifo, plans);
    RunKeepsInv(start, steps, b);
    RunKeepsOrder(start, [], steps, b, s);
    assert [] + steps == steps;
    assert LineOk(b, s, q);
    var line := b.Line(s);
    var j :| 0 <= j < |line| && line[j] == q;
    assert line[0] == r;
  }

  // ----- Why the names are sorted -----

  /** Two requests, each holding the name the other waits for. */
  ghost predicate Crossed(b: Broker, s: Token, t: Token) {
    && s != t && |b.plans| == |b.phases| == 2
    && b.plans[0].names == [s, t] && b.plans[1].names == [t, s]
    && b.phases == [Waiting(1, true), Waiting(1, true)]
    && s in b.held && t in b.held
  }

  lemma CrossedIsStuck(b: Broker, s: Token, t: Token, st: Step)
    requires Crossed(b, s, t)
    ensures Next(b, st).None?
  {
  }

  lemma Then(b: Broker, steps: seq<Step>, c: Broker, st: Step)
    requires Leads(b, steps, c) && |c.plans| == |c.phases| && Next(c, st).Some?
    ensures Leads(b, steps + [st], Next(c, st).value)
    decreases |steps|
  {
    hide Next;
    if steps == [] {
      assert steps + [st] == [st] && [st][1..] == [];
      assert Leads(Next(c, st).value, [], Next(c, st).value);
    } else {
      assert (steps + [st])[1..] == steps[1..] + [st];
      Then(Next(b, steps[0]).value, steps[1..], c, st);
    }
  }

  /** Joining an empty line for a free name and taking it. */
  lemma TakesFirst(b: Broker, steps: seq<Step>, c: Broker, r: Rid) returns (longer: seq<Step>, d: Broker)
    requires Leads(b, steps, c) && |c.plans| == |c.phases| && r < |c.plans| && c.phases[r] == Waiting(0, false)
    requires |c.plans[r].names| > 0 && c.plans[r].names[0] !in c.held && c.Line(Name(c.plans[r].names[0])) == []
    ensures Leads(b, longer, d) && d.plans == c.plans && d.phases == c.phases[r := Waiting(1, false)]
    ensures d.held == c.held[c.plans[r].names[0] := r]
    ensures forall s :: s != Name(c.plans[r].names[0]) ==> d.Line(s) == c.Line(s)
  {
    var e := Next(c, Queue(r)).value;
    Then(b, steps, c, Queue(r));
    assert e.Line(e.Wants(r)) == [r];
    Then(b, steps + [Queue(r)], e, Take(r));
    longer, d := steps + [Queue(r)] + [Take(r)], Next(e, Take(r)).value;
  }

  lemma JoinsLine(b: Broker, steps: seq<Step>, c: Broker, r: Rid) returns (longer: seq<Step>, d: Broker)
    requires Leads(b, steps, c) && |c.plans| == |c.phases| && r < |c.plans| && c.phases[r] == Waiting(1, false)
    ensures Leads(b, longer, d) && d.plans == c.plans && d.phases == c.phases[r := Waiting(1, true)] && d.held == c.held
  {
    Then(b, steps, c, Queue(r));
    longer, d := steps + [Queue(r)], Next(c, Queue(r)).value;
  }

  /** Requests that take two names in opposite orders can stop for good, so that names are taken in
      one order is what rules deadlock out. */
  lemma UnsortedPlansDeadlock(machine: nat, fifo: bool, s: Token, t: Token) returns (steps: seq<Step>, b: Broker)
    requires s != t
    ensures Leads(Start(machine, fifo, [Plan([s, t], 0), Plan([t, s], 0)]), steps, b)
    ensures |b.phases| == 2 && |b.plans| == 2 && forall r :: 0 <= r < 2 ==> !b.phases[r].Finished?
    ensures forall st :: Next(b, st).None?
  {
    hide Next, Leads;
    var start := Start(machine, fifo, [Plan([s, t], 0), Plan([t, s], 0)]);
    LeadsSelf(start);
    steps, b := TakesFirst(start, [], start, 0);
    steps, b := TakesFirst(start, steps, b, 1);
    steps, b := JoinsLine(start, steps, b, 0);
    steps, b := JoinsLine(start, steps, b, 1);
    assert Crossed(b, s, t);
    forall st ensures Next(b, st).None? {
      CrossedIsStuck(b, s, t, st);
    }
  }

  lemma LeadsSelf(b: Broker)
    ensures Leads(b, [], b)
  {
  }
}
