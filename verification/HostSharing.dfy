/** What a host-sharing request asks for: weights, tokens, and the order they are taken in. */
module HostSharing {
  import opened Options

  // ----- Weights -----

  datatype WeightClass = Permits(permits: nat) | Percentage(percent: nat)

  /** Percentages are checked to be at most 100 when built. */
  function TryNewPercentage(value: int): (r: Option<WeightClass>)
    ensures r.Some? <==> 0 <= value <= 100
    ensures r.Some? ==> r.value == Percentage(value)
  {
    if !(0 <= value < 256) then None
    else if value > 100 then None
    else Some(Percentage(value))
  }

  predicate WeightOk(w: WeightClass) {
    w.Percentage? ==> w.percent <= 100
  }

  function DivCeil(a: nat, b: nat): nat
    requires b > 0
  {
    if a % b == 0 then a / b else a / b + 1
  }

  datatype RequestedPermits = RequestedPermits(count: nat, cap: nat) {
    function IntoCount(): nat {
      if count < cap then count else cap
    }
  }

  function Requested(machine: nat, w: WeightClass): RequestedPermits {
    RequestedPermits(if w.Permits? then w.permits else DivCeil(machine * w.percent, 100), machine)
  }

  /** A percentage is the least number of permits that is at least that share of the machine,
      never more than all of it, so capping leaves it alone; any request is capped. */
  lemma PercentageIsLeastShare(machine: nat, p: nat)
    requires p <= 100
    ensures var c := Requested(machine, Percentage(p)).count;
            && Requested(machine, Percentage(p)).IntoCount() == c <= machine
            && 100 * c >= machine * p && (c > 0 ==> 100 * (c - 1) < machine * p)
  {
    var product := machine * p;
    assert product <= machine * 100 by {
      MulMonotone(machine, p, 100);
    }
  }

  /** What a request of weight `w` takes from the machine: as many permits as it asks for, or the least
      number that is at least its share, and all there are if that is more. */
  ghost predicate TakesFor(machine: nat, w: WeightClass, c: nat) {
    match w
    case Permits(n) => c == if n <= machine then n else machine
    case Percentage(p) => c <= machine && 100 * c >= machine * p && forall d: nat :: 100 * d >= machine * p ==> c <= d
  }

  lemma RequestTakes(machine: nat, w: WeightClass)
    requires WeightOk(w)
    ensures TakesFor(machine, w, Requested(machine, w).IntoCount())
  {
    if w.Percentage? {
      PercentageIsLeastShare(machine, w.percent);
    }
  }

  lemma MulMonotone(a: nat, b: nat, c: nat)
    requires b <= c
    ensures a * b <= a * c
  {
  }

  // ----- Tokens -----

  type Token = string

  predicate Less(a: Token, b: Token) {
    if b == [] then false
    else if a == [] then true
    else a[0] < b[0] || (a[0] == b[0] && Less(a[1..], b[1..]))
  }

  lemma {:induction false} LessIrreflexive(a: Token)
    ensures !Less(a, a)
  {
    if a != [] {
      LessIrreflexive(a[1..]);
    }
  }

  lemma {:induction false} LessTotal(a: Token, b: Token)
    ensures a != b ==> Less(a, b) || Less(b, a)
    ensures !(Less(a, b) && Less(b, a))
  {
    if a != [] && b != [] {
      LessTotal(a[1..], b[1..]);
      assert a == [a[0]] + a[1..] && b == [b[0]] + b[1..];
    }
  }

  lemma {:induction false} LessTrans(a: Token, b: Token, c: Token)
    requires Less(a, b) && Less(b, c)
    ensures Less(a, c)
    decreases |a|
  {
    if a != [] && a[0] == b[0] == c[0] {
      LessTrans(a[1..], b[1..], c[1..]);
    }
  }

  /** The order `SortedVec` keeps: repeats allowed, nothing out of place. */
  ghost predicate Sorted(s: seq<Token>) {
    forall i, j :: 0 <= i < j < |s| ==> !Less(s[j], s[i])
  }

  ghost predicate StrictlySorted(s: seq<Token>) {
    forall i, j :: 0 <= i < j < |s| ==> Less(s[i], s[j])
  }

  /** The loop over the identifiers: each one taken once, in order, repeats skipped. */
  method NamesToTake(sorted: seq<Token>) returns (names: seq<Token>)
    requires Sorted(sorted)
    ensures StrictlySorted(names)
    ensures forall t :: t in names <==> t in sorted
  {
    names := [];
    var previous: Option<Token> := None;
    for i := 0 to |sorted|
      invariant StrictlySorted(names)
      invariant forall t :: t in names <==> t in sorted[..i]
      invariant previous == if i == 0 then None else Some(sorted[i - 1])
      invariant i == 0 ==> names == []
      invariant i > 0 ==> names != [] && names[|names| - 1] == sorted[i - 1]
    {
      if previous == Some(sorted[i]) {
        continue;
      }
      previous := Some(sorted[i]);
      if i > 0 {
        LessTotal(sorted[i - 1], sorted[i]);
        assert !Less(sorted[i], sorted[i - 1]);
        forall k | 0 <= k < |names| ensures Less(names[k], sorted[i]) {
          if k < |names| - 1 {
            LessTrans(names[k], sorted[i - 1], sorted[i]);
          }
        }
      }
      names := names + [sorted[i]];
    }
  }

  lemma SingleName(names: seq<Token>, t: Token)
    requires StrictlySorted(names) && forall u :: u in names <==> u in [t]
    ensures names == [t]
  {
    assert t in [t] && t in names;
    assert forall i :: 0 <= i < |names| ==> names[i] in [t];
    assert |names| > 1 ==> Less(names[0], names[1]);
    LessIrreflexive(t);
  }

  datatype Requirements =
    | ExclusiveAccess
    | OnePerToken(token: Token, weight: WeightClass)
    | OnePerTokens(tokens: seq<Token>, weight: WeightClass)
    | Shared(weight: WeightClass)

  ghost predicate RequirementsOk(r: Requirements) {
    && (!r.ExclusiveAccess? ==> WeightOk(r.weight))
    && (r.OnePerTokens? ==> Sorted(r.tokens))
  }

  /** The semaphores a request takes: the names in this order, then the permits. */
  datatype Plan = Plan(names: seq<Token>, permits: nat)

  ghost predicate PlanOk(p: Plan, machine: nat) {
    StrictlySorted(p.names) && p.permits <= machine
  }

  method MakePlan(machine: nat, r: Requirements) returns (p: Plan)
    requires RequirementsOk(r)
    ensures PlanOk(p, machine)
    ensures r.ExclusiveAccess? ==> p == Plan([], machine)
    ensures !r.ExclusiveAccess? ==> TakesFor(machine, r.weight, p.permits)
    ensures r.Shared? ==> p.names == []
    ensures r.OnePerToken? ==> p.names == [r.token]
    ensures r.OnePerTokens? ==> forall t :: t in p.names <==> t in r.tokens
  {
    hide TakesFor;
    if !r.ExclusiveAccess? {
      RequestTakes(machine, r.weight);
    }
    match r
    case Shared(w) =>
      p := Plan([], Requested(machine, w).IntoCount());
    case ExclusiveAccess =>
      p := Plan([], machine);
    case OnePerToken(t, w) =>
      var names := NamesToTake([t]);
      SingleName(names, t);
      p := Plan(names, Requested(machine, w).IntoCount());
    case OnePerTokens(ts, w) =>
      var names := NamesToTake(ts);
      p := Plan(names, Requested(machine, w).IntoCount());
  }

  // ----- Named semaphores -----

  class Semaphore {
    var permits: nat

    constructor (n: nat)
      ensures permits == n
    {
      permits := n;
    }
  }

  class NamedSemaphores {
    var buckets: map<Token, Semaphore>

    ghost predicate Valid()
      reads this
    {
      forall a, b :: a in buckets && b in buckets && a != b ==> buckets[a] != buckets[b]
    }

    constructor ()
      ensures Valid() && buckets == map[]
    {
      buckets := map[];
    }

    /** The one semaphore of a name: made with a single permit on first use, the same ever after. */
    method Get(name: Token) returns (s: Semaphore)
      requires Valid()
      modifies this
      ensures Valid() && buckets == old(buckets)[name := s]
      ensures if name in old(buckets) then s == old(buckets[name]) else fresh(s) && s.permits == 1
    {
      if name in buckets {
        return buckets[name];
      }
      s := new Semaphore(1);
      buckets := buckets[name := s];
    }
  }
}
