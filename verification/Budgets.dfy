/** The byte cap under concurrency and across restarts (budget.go, store_write.go). */
module Budgets {
  import opened Wrappers

  // ---- interleaved reserves: add first, back out what overshot ----

  /** `total` as the atomic counter holds it; `held`, what admitted rows cost; `overshot`,
      the adds not yet backed out. */
  datatype Counter = Counter(max: nat, total: int, held: nat, overshot: multiset<nat>)

  datatype Step = Add(cost: nat) | BackOut(cost: nat) | Release(cost: nat) | Adjust(delta: int)

  /** One atomic step. A release gives back what some admitted row holds. */
  function Do(c: Counter, s: Step): Option<Counter> {
    match s
    case Add(cost) =>
      if c.total + cost > c.max then Some(Counter(c.max, c.total + cost, c.held, c.overshot + multiset{cost}))
      else Some(Counter(c.max, c.total + cost, c.held + cost, c.overshot))
    case BackOut(cost) =>
      if cost !in c.overshot then None else Some(Counter(c.max, c.total - cost, c.held, c.overshot - multiset{cost}))
    case Release(cost) =>
      if cost > c.held then None else Some(Counter(c.max, c.total - cost, c.held - cost, c.overshot))
    case Adjust(delta) =>
      if c.held + delta < 0 then None else Some(Counter(c.max, c.total + delta, c.held + delta, c.overshot))
  }

  function Run(c: Counter, steps: seq<Step>): Option<Counter>
    decreases |steps|
  {
    if steps == [] then Some(c)
    else
      match Do(c, steps[0])
      case None => None
      case Some(c') => Run(c', steps[1..])
  }

  ghost function Sum(m: multiset<nat>): nat
    decreases |m|
  {
    if m == multiset{} then 0
    else
      var x :| x in m;
      x + Sum(m - multiset{x})
  }

  lemma {:induction false} SumRemove(m: multiset<nat>, y: nat)
    requires y in m
    ensures Sum(m) == y + Sum(m - multiset{y})
    decreases |m|
  {
    var x :| x in m && Sum(m) == x + Sum(m - multiset{x});
    if x != y {
      RemovalsCommute(m, x, y);
      SumRemove(m - multiset{x}, y);
      SumRemove(m - multiset{y}, x);
    }
  }

  lemma RemovalsCommute(m: multiset<nat>, x: nat, y: nat)
    ensures m - multiset{x} - multiset{y} == m - multiset{y} - multiset{x}
  {}

  /** The counter is what rows hold plus what is still to be backed out. */
  ghost predicate Accounted(c: Counter) {
    c.total == c.held + Sum(c.overshot)
  }

  ghost predicate NoGrowth(steps: seq<Step>) {
    forall i :: 0 <= i < |steps| ==> steps[i].Adjust? ==> steps[i].delta <= 0
  }

  lemma StepAccounts(c: Counter, s: Step)
    requires Accounted(c) && Do(c, s).Some?
    ensures Accounted(Do(c, s).value) && Do(c, s).value.max == c.max
    ensures c.held <= c.max && (s.Adjust? ==> s.delta <= 0) ==> Do(c, s).value.held <= c.max
    ensures Do(c, s).value.held - c.held
         == match s
            case Add(cost) => if c.held + Sum(c.overshot) + cost > c.max then 0 else cost
            case BackOut(_) => 0
            case Release(cost) => 0 - cost
            case Adjust(delta) => delta
  {
    match s
    case Add(cost) =>
      var m := c.overshot + multiset{cost};
      assert m - multiset{cost} == c.overshot;
      SumRemove(m, cost);
    case BackOut(cost) => SumRemove(c.overshot, cost);
    case Release(_) =>
    case Adjust(_) =>
  }

  /** However reserves, back-outs and releases interleave, admitted rows never hold more
      than the cap, as long as no update grows a row. */
  lemma {:induction false} CapHolds(c: Counter, steps: seq<Step>)
    requires Accounted(c) && c.held <= c.max && NoGrowth(steps) && Run(c, steps).Some?
    ensures Accounted(Run(c, steps).value) && Run(c, steps).value.held <= c.max
    decreases |steps|
  {
    if steps != [] {
      StepAccounts(c, steps[0]);
      CapHolds(Do(c, steps[0]).value, steps[1..]);
    }
  }

  /** A reserve that is refused would really not have fitted beside what was held and
      still in flight; one that is admitted fits. */
  lemma RefusalIsHonest(c: Counter, cost: nat)
    requires Accounted(c)
    ensures var c' := Do(c, Add(cost)).value;
            if c'.overshot == c.overshot then c'.held == c.held + cost <= c.max
            else c.held + Sum(c.overshot) + cost > c.max
  {
    if c.total + cost > c.max {
      assert (c.overshot + multiset{cost})[cost] == c.overshot[cost] + 1;
    }
  }

  // ---- loading a store under its cap ----

  function Total(costs: seq<nat>): nat {
    if costs == [] then 0 else costs[0] + Total(costs[1..])
  }

  /** Boot inserts row after row, each reserving its cost: false when one is refused. */
  predicate Loads(max: nat, total: nat, costs: seq<nat>)
    decreases |costs|
  {
    costs == [] || ((max == 0 || total + costs[0] <= max) && Loads(max, total + costs[0], costs[1..]))
  }

  /** A stored state loads under a cap exactly when it fits it: a store that updates grew
      past the cap while running cannot be reopened with the same cap. */
  lemma {:induction false} LoadsIffFits(max: nat, total: nat, costs: seq<nat>)
    requires max != 0 && total <= max
    ensures Loads(max, total, costs) <==> total + Total(costs) <= max
    decreases |costs|
  {
    if costs != [] && total + costs[0] <= max {
      LoadsIffFits(max, total + costs[0], costs[1..]);
    }
  }

  /** The input: a row admitted within the cap, then grown past it, is one that boot refuses. */
  lemma GrowthBlocksReload(max: nat, cost: nat, growth: nat)
    requires 0 < max && cost <= max < cost + growth
    ensures var c := Run(Counter(max, 0, 0, multiset{}), [Add(cost), Adjust(growth)]);
            c.Some? && c.value.held == cost + growth > max && !Loads(max, 0, [c.value.held])
  {
    var c0, steps := Counter(max, 0, 0, multiset{}), [Add(cost), Adjust(growth)];
    assert steps[1..] == [Adjust(growth)] && steps[1..][1..] == [];
    var c1 := Do(c0, Add(cost)).value;
    var c2 := Do(c1, Adjust(growth)).value;
    assert Run(c0, steps) == Run(c1, [Adjust(growth)]) == Run(c2, []) == Some(c2);
    assert [c2.held][0] > max;
  }

  lemma {:induction false} UnlimitedLoads(total: nat, costs: seq<nat>)
    ensures Loads(0, total, costs)
    decreases |costs|
  {
    if costs != [] { UnlimitedLoads(total + costs[0], costs[1..]); }
  }
}
