/**
 Tiered approval chains: a list of tiers worked through one call at a time. Each call looks up the
 current tier by number, may skip it by one of its expressions, and otherwise asks its policy.
 */
module ApprovalChain {
  import opened Outcomes
  import opened ApprovalPolicy
  import Expression
  import ExpressionPrinter

  /** An empty expression or a missing policy stands for an omitted one. */
  datatype Tier = Tier(number: int, canSkipIf: string, requiredIf: string, policy: Option<Policy>)

  datatype TierStatus = TierPending | TierApproved | TierRejected | TierSkipped

  datatype ChainStatus = ChainPending | ChainInProgress | ChainCompleted | ChainFailed

  datatype Chain = Chain(tiers: seq<Tier>, current: int, tierStatus: TierStatus, status: ChainStatus) {
    predicate Closed() {
      status == ChainCompleted || status == ChainFailed
    }
  }

  /** What a call sees: expressions over the case metadata, request counts by tier, the gate's own policy. */
  datatype View = View(eval: string -> Result<bool>, counts: int -> Counts, gatePolicy: Policy)

  /** What a call does to the gate besides updating the chain. */
  datatype Effect = KeepGate | SatisfyGate | FailGate

  function Created(tiers: seq<Tier>): Chain
    requires tiers != []
  {
    Chain(tiers, tiers[0].number, TierPending, ChainPending)
  }

  /** The first tier at or after `i` with this number; `|tiers|` when there is none. */
  function FindTier(tiers: seq<Tier>, number: int, i: nat): (r: nat)
    requires i <= |tiers|
    ensures i <= r <= |tiers| && (r < |tiers| ==> tiers[r].number == number)
    decreases |tiers| - i
  {
    if i == |tiers| then i
    else if tiers[i].number == number then i
    else FindTier(tiers, number, i + 1)
  }

  function NextTier(tiers: seq<Tier>, index: nat): int
    requires index < |tiers|
  {
    if index + 1 < |tiers| then tiers[index + 1].number else tiers[|tiers| - 1].number
  }

  function Move(c: Chain, index: nat, next: int, tierStatus: TierStatus): Chain {
    Chain(c.tiers, next, tierStatus, if index + 1 == |c.tiers| then ChainCompleted else ChainInProgress)
  }

  function AskPolicy(c: Chain, index: nat, view: View): Result<(Chain, Effect)>
    requires index < |c.tiers|
  {
    var tier := c.tiers[index];
    match EvaluateCounts(PolicyOf(tier, view), 0, view.counts(tier.number))
    case Unsupported => Err("unsupported policy")
    case Failed => Ok((c.(tierStatus := TierRejected, status := ChainFailed), FailGate))
    case Satisfied =>
      Ok((Move(c, index, NextTier(c.tiers, index), TierApproved),
          if index + 1 == |c.tiers| then SatisfyGate else KeepGate))
    case Undecided => Ok((c, KeepGate))
  }

  function AskRequired(c: Chain, index: nat, view: View): Result<(Chain, Effect)>
    requires index < |c.tiers|
  {
    var tier := c.tiers[index];
    if tier.requiredIf == "" then AskPolicy(c, index, view)
    else
      var required :- view.eval(tier.requiredIf);
      if required then AskPolicy(c, index, view)
      else Ok((Move(c, index, NextTier(c.tiers, index), TierSkipped), KeepGate))
  }

  /** One evaluation; an error leaves the chain as it was, because the transaction is rolled back. */
  function EvaluateChain(c: Chain, view: View): Result<(Chain, Effect)> {
    if c.Closed() || c.tiers == [] then Ok((c, KeepGate))
    else
      var index := FindTier(c.tiers, c.current, 0);
      if index == |c.tiers| then
        Ok((c.(status := ChainCompleted, tierStatus := TierApproved), KeepGate))
      else
        var tier := c.tiers[index];
        if tier.canSkipIf == "" then AskRequired(c, index, view)
        else
          var skip :- view.eval(tier.canSkipIf);
          if !skip then AskRequired(c, index, view)
          else
            var next := NextTier(c.tiers, index);
            Ok((Move(c, index, if next == 0 then c.current else next, TierSkipped), KeepGate))
  }

  // -------------------------------------------------------------------------------------------
  // Runs
  // -------------------------------------------------------------------------------------------

  function StepChain(c: Chain, view: View): Chain {
    match EvaluateChain(c, view)
    case Ok(r) => r.0
    case Err(_) => c
  }

  /** The chain before every call and after the last one. */
  function Trace(c: Chain, views: seq<View>): (trace: seq<Chain>)
    ensures |trace| == |views| + 1 && trace[0] == c
    decreases |views|
  {
    if views == [] then [c] else [c] + Trace(StepChain(c, views[0]), views[1..])
  }

  lemma {:induction false} TraceStep(c: Chain, views: seq<View>, k: nat)
    requires k < |views|
    ensures Trace(c, views)[k + 1] == StepChain(Trace(c, views)[k], views[k])
    decreases |views|
  {
    if k > 0 {
      TraceStep(StepChain(c, views[0]), views[1..], k - 1);
    }
  }

  /** An expression lets the tier be skipped. */
  predicate SkippedBy(tier: Tier, eval: string -> Result<bool>) {
    || (tier.canSkipIf != "" && eval(tier.canSkipIf) == Ok(true))
    || (tier.requiredIf != "" && eval(tier.requiredIf) == Ok(false))
  }

  function PolicyOf(tier: Tier, view: View): Policy {
    if tier.policy.Some? then tier.policy.value else view.gatePolicy
  }

  /** How a tier leaves the chain behind it: skipped by an expression, or satisfied by its policy. */
  predicate Resolved(tier: Tier, view: View) {
    SkippedBy(tier, view.eval) || EvaluateCounts(PolicyOf(tier, view), 0, view.counts(tier.number)) == Satisfied
  }

  /** The expressions a call comes to ask evaluate: an error rolls the call back. */
  predicate Evaluates(tier: Tier, view: View) {
    && (tier.canSkipIf != "" ==> view.eval(tier.canSkipIf).Ok?)
    && (tier.requiredIf != "" && (tier.canSkipIf == "" || view.eval(tier.canSkipIf) == Ok(false)) ==>
          view.eval(tier.requiredIf).Ok?)
  }

  /** A skip by `can_skip_if` takes a next number of zero for a missing one and stays at the skipped tier. */
  predicate Stalls(tiers: seq<Tier>, i: nat, view: View) {
    && i + 1 < |tiers| && tiers[i + 1].number == 0
    && tiers[i].canSkipIf != "" && view.eval(tiers[i].canSkipIf) == Ok(true)
  }

  /** The call leaves tier `i` behind. */
  predicate Passes(tiers: seq<Tier>, i: nat, view: View)
    requires i < |tiers|
  {
    Evaluates(tiers[i], view) && Resolved(tiers[i], view) && !Stalls(tiers, i, view)
  }

  /** How many tiers the chain has behind it. */
  function Position(c: Chain): nat {
    if c.status == ChainCompleted then |c.tiers| else FindTier(c.tiers, c.current, 0)
  }

  lemma {:induction false} FindTierFirst(tiers: seq<Tier>, number: int, from: nat, i: nat)
    requires from <= i < |tiers| && tiers[i].number == number
    ensures from <= FindTier(tiers, number, from) <= i && tiers[FindTier(tiers, number, from)].number == number
    decreases |tiers| - from
  {
    if tiers[from].number != number {
      FindTierFirst(tiers, number, from + 1, i);
    }
  }

  /** No two of the first `n` tiers have the same number. */
  ghost predicate DistinctUpTo(tiers: seq<Tier>, n: nat) {
    n <= |tiers| && forall i, j | 0 <= i < j < n :: tiers[i].number != tiers[j].number
  }

  /** The chain's current number is that of one of its first `n` tiers, or it is closed after `n` of them. */
  ghost predicate Inside(c: Chain, n: nat) {
    && 0 < n <= |c.tiers|
    && FindTier(c.tiers, c.current, 0) < n
    && (c.status == ChainCompleted ==> n == |c.tiers|)
  }

  /** A number shared with an earlier tier is a wall: the look-up falls back to the earlier one. */
  ghost predicate Wall(tiers: seq<Tier>, n: nat) {
    && DistinctUpTo(tiers, n)
    && (n < |tiers| ==> exists i | 0 <= i < n :: tiers[i].number == tiers[n].number)
  }

  /** The next number always belongs to a tier before the wall, and to the next tier unless that is the wall. */
  lemma NextInside(tiers: seq<Tier>, n: nat, index: nat)
    requires Wall(tiers, n) && index < n
    ensures FindTier(tiers, NextTier(tiers, index), 0) < n
    ensures index + 1 < n ==> FindTier(tiers, NextTier(tiers, index), 0) == index + 1
    ensures index + 1 == |tiers| ==> FindTier(tiers, NextTier(tiers, index), 0) == index
  {
    var number := NextTier(tiers, index);
    if index + 1 < n || index + 1 == |tiers| {
      FindTierFirst(tiers, number, 0, if index + 1 < n then index + 1 else index);
    } else {
      var i :| 0 <= i < n && tiers[i].number == tiers[n].number;
      FindTierFirst(tiers, number, 0, i);
    }
  }

  /**
   What one evaluation does to an open chain: it stays where it is, or it passes the tier it is at and
   moves to the next one (or back, when the next number was used before), or it fails.
   */
  lemma StepInside(c: Chain, n: nat, view: View)
    requires Wall(c.tiers, n) && Inside(c, n)
    ensures var d := StepChain(c, view);
            && d.tiers == c.tiers && Inside(d, n)
            && (c.Closed() ==> d == c)
            && (Position(d) == Position(c)
                || (Passes(c.tiers, FindTier(c.tiers, c.current, 0), view) && Position(d) <= Position(c) + 1))
            && (DistinctUpTo(c.tiers, |c.tiers|) ==> Position(c) <= Position(d))
  {
    var index := FindTier(c.tiers, c.current, 0);
    NextInside(c.tiers, n, index);
  }

  /** Every list of tiers has a wall: its first repeated number, or its end. */
  lemma FindWall(tiers: seq<Tier>) returns (n: nat)
    requires tiers != []
    ensures 0 < n && Wall(tiers, n)
  {
    n := 1;
    while n < |tiers| && forall i | 0 <= i < n :: tiers[i].number != tiers[n].number
      invariant 0 < n && DistinctUpTo(tiers, n)
    {
      n := n + 1;
    }
  }

  /** Call `k` of the run found the chain open at tier `i` and left it behind. */
  ghost predicate ResolvedAt(trace: seq<Chain>, views: seq<View>, tiers: seq<Tier>, i: nat, k: nat)
    requires |trace| == |views| + 1
  {
    && i < |tiers| && k < |views|
    && !trace[k].Closed() && trace[k].tiers == tiers && FindTier(tiers, trace[k].current, 0) == i
    && Passes(tiers, i, views[k])
  }

  ghost predicate ResolvedBefore(trace: seq<Chain>, views: seq<View>, tiers: seq<Tier>, i: nat, k: nat)
    requires |trace| == |views| + 1
  {
    exists j | 0 <= j < k :: ResolvedAt(trace, views, tiers, i, j)
  }

  lemma ResolvedStays(trace: seq<Chain>, views: seq<View>, tiers: seq<Tier>, i: nat, k: nat)
    requires |trace| == |views| + 1 && ResolvedBefore(trace, views, tiers, i, k)
    ensures ResolvedBefore(trace, views, tiers, i, k + 1)
  {
    var j :| 0 <= j < k && ResolvedAt(trace, views, tiers, i, j);
  }

  /** Everything the run has passed was resolved in an earlier call. */
  ghost predicate Behind(trace: seq<Chain>, views: seq<View>, tiers: seq<Tier>, k: nat)
    requires |trace| == |views| + 1 && k <= |views|
  {
    forall i | 0 <= i < Position(trace[k]) :: ResolvedBefore(trace, views, tiers, i, k)
  }

  lemma BehindStep(trace: seq<Chain>, views: seq<View>, tiers: seq<Tier>, n: nat, k: nat)
    requires |trace| == |views| + 1 && 0 < k <= |views| && Wall(tiers, n)
    requires trace[k - 1].tiers == tiers && Inside(trace[k - 1], n)
    requires trace[k] == StepChain(trace[k - 1], views[k - 1]) && Behind(trace, views, tiers, k - 1)
    ensures Behind(trace, views, tiers, k)
  {
    StepInside(trace[k - 1], n, views[k - 1]);
    forall i | 0 <= i < Position(trace[k])
      ensures ResolvedBefore(trace, views, tiers, i, k)
    {
      if i < Position(trace[k - 1]) {
        ResolvedStays(trace, views, tiers, i, k - 1);
      } else {
        assert ResolvedAt(trace, views, tiers, i, k - 1);
      }
    }
  }

  lemma {:induction false} RunInside(tiers: seq<Tier>, n: nat, views: seq<View>, k: nat)
    requires 0 < n && Wall(tiers, n) && k <= |views|
    ensures var trace := Trace(Created(tiers), views);
            trace[k].tiers == tiers && Inside(trace[k], n) && Behind(trace, views, tiers, k)
    decreases k
  {
    var trace := Trace(Created(tiers), views);
    if k == 0 {
      FindTierFirst(tiers, tiers[0].number, 0, 0);
    } else {
      RunInside(tiers, n, views, k - 1);
      TraceStep(Created(tiers), views, k - 1);
      StepInside(trace[k - 1], n, views[k - 1]);
      BehindStep(trace, views, tiers, n, k);
    }
  }

  /** Every run visits the tiers of a list with distinct numbers in order: a call stays or moves to the next. */
  lemma VisitsInOrder(tiers: seq<Tier>, views: seq<View>, k: nat)
    requires tiers != [] && DistinctUpTo(tiers, |tiers|) && k < |views|
    ensures var trace := Trace(Created(tiers), views);
            Position(trace[k]) <= Position(trace[k + 1]) <= Position(trace[k]) + 1
  {
    RunInside(tiers, |tiers|, views, k);
    TraceStep(Created(tiers), views, k);
    StepInside(Trace(Created(tiers), views)[k], |tiers|, views[k]);
  }

  /** A chain that is completed or failed never changes again. */
  lemma {:induction false} ClosedStays(c: Chain, views: seq<View>, k: nat, m: nat)
    requires k <= m <= |views| && Trace(c, views)[k].Closed()
    ensures Trace(c, views)[m] == Trace(c, views)[k]
    decreases m
  {
    if k < m {
      ClosedStays(c, views, k, m - 1);
      TraceStep(c, views, m - 1);
    }
  }

  /**
   A chain that reaches COMPLETED had distinct tier numbers, and every one of its tiers was skipped by
   an expression or satisfied by its policy in a call that found the chain there.
   */
  lemma CompletedMeansResolved(tiers: seq<Tier>, views: seq<View>, k: nat)
    requires tiers != [] && k <= |views|
    requires Trace(Created(tiers), views)[k].status == ChainCompleted
    ensures DistinctUpTo(tiers, |tiers|)
    ensures forall i | 0 <= i < |tiers| ::
              ResolvedBefore(Trace(Created(tiers), views), views, tiers, i, k)
  {
    var n := FindWall(tiers);
    RunInside(tiers, n, views, k);
  }

  /** So a list that repeats a tier number never completes, however its requests are decided. */
  lemma RepeatedNumberNeverCompletes(tiers: seq<Tier>, i: nat, j: nat, views: seq<View>, k: nat)
    requires i < j < |tiers| && tiers[i].number == tiers[j].number && k <= |views|
    ensures Trace(Created(tiers), views)[k].status != ChainCompleted
  {
    if Trace(Created(tiers), views)[k].status == ChainCompleted {
      CompletedMeansResolved(tiers, views, k);
    }
  }

  /**
   With distinct numbers, a call moves an open chain on exactly when the expressions it asks evaluate,
   its tier is skipped or satisfied, and the skip does not stall.
   */
  lemma AdvancesIffPassed(c: Chain, view: View)
    requires DistinctUpTo(c.tiers, |c.tiers|) && !c.Closed() && Position(c) < |c.tiers|
    ensures Position(StepChain(c, view)) == Position(c) + 1 <==> Passes(c.tiers, Position(c), view)
    ensures Passes(c.tiers, Position(c), view) ==> StepChain(c, view).status != ChainFailed
  {
    StepInside(c, |c.tiers|, view);
    NextInside(c.tiers, |c.tiers|, Position(c));
  }

  /** For as long as the expression holds, a stalled chain stays where it is. */
  lemma {:induction false} StallLasts(c: Chain, views: seq<View>, k: nat)
    requires !c.Closed() && Position(c) < |c.tiers| && k <= |views|
    requires forall j | 0 <= j < |views| :: Stalls(c.tiers, Position(c), views[j])
    ensures var d := Trace(c, views)[k]; d.tiers == c.tiers && d.current == c.current && !d.Closed()
    decreases k
  {
    if k > 0 {
      StallLasts(c, views, k - 1);
      TraceStep(c, views, k - 1);
      assert Stalls(c.tiers, Position(c), views[k - 1]);
    }
  }

  lemma TrueHolds(env: Expression.Env)
    ensures Expression.EvaluateInSteps("true", env) == Ok(true)
  {
    var e := Expression.BoolLit(true);
    assert ExpressionPrinter.Render(ExpressionPrinter.Print(e, 0)) == "true";
    ExpressionPrinter.PrintThenEvaluate(e, env);
  }

  /**
   Two tiers of which the first can always be skipped and the second is numbered 0: with the expression
   evaluator of the program, no number of calls gets the chain past the first.
   */
  lemma StallingChain(env: Expression.Env, counts: int -> Counts, policy: Policy, n: nat)
    ensures var tiers := [Tier(1, "true", "", None), Tier(0, "", "", None)];
            var view := View(e => Expression.EvaluateInSteps(e, env), counts, policy);
            var c := Trace(Created(tiers), seq(n, _ => view))[n];
            DistinctUpTo(tiers, 2) && Resolved(tiers[0], view) && c.current == 1 && !c.Closed()
  {
    var tiers := [Tier(1, "true", "", None), Tier(0, "", "", None)];
    var view := View(e => Expression.EvaluateInSteps(e, env), counts, policy);
    TrueHolds(env);
    assert Position(Created(tiers)) == 0 && Stalls(tiers, 0, view);
    StallLasts(Created(tiers), seq(n, _ => view), n);
  }

  // -------------------------------------------------------------------------------------------
  // Which lists can complete
  // -------------------------------------------------------------------------------------------

  /**
   Some call passes the tier: its policy is a known one, or it can be found not required, or it can be
   skipped without stalling at a next tier numbered 0.
   */
  predicate Passable(tiers: seq<Tier>, i: nat)
    requires i < |tiers|
  {
    || tiers[i].policy.None? || !tiers[i].policy.value.Unknown?
    || tiers[i].requiredIf != ""
    || (tiers[i].canSkipIf != "" && !(i + 1 < |tiers| && tiers[i + 1].number == 0))
  }

  /** A call in which every expression has the same value and every tier one approval and nothing else. */
  function Passing(value: bool): View {
    View(e => if e == "" then Err("expression is empty") else Ok(value), _ => Counts(1, 0, 0, 0), SingleApprover)
  }

  lemma PassableIff(tiers: seq<Tier>, i: nat)
    requires i < |tiers|
    ensures (exists view :: Passes(tiers, i, view)) <==> Passable(tiers, i)
  {
    if Passable(tiers, i) {
      var byPolicy := tiers[i].policy.None? || !tiers[i].policy.value.Unknown? || tiers[i].requiredIf != "";
      assert Passes(tiers, i, Passing(!byPolicy));
    }
  }

  ghost predicate AllPassable(tiers: seq<Tier>) {
    tiers != [] && DistinctUpTo(tiers, |tiers|) && forall i | 0 <= i < |tiers| :: Passable(tiers, i)
  }

  /** The calls so far have passed one tier each. */
  ghost predicate PassedEach(tiers: seq<Tier>, views: seq<View>)
    requires tiers != []
  {
    var c := Trace(Created(tiers), views)[|views|];
    c.tiers == tiers && Position(c) == |views| && c.status != ChainFailed
  }

  lemma PassingStep(tiers: seq<Tier>, views: seq<View>, view: View)
    requires AllPassable(tiers) && |views| < |tiers| && PassedEach(tiers, views) && Passes(tiers, |views|, view)
    ensures PassedEach(tiers, views + [view])
  {
    TraceAppend(Created(tiers), views, view);
    var c := Trace(Created(tiers), views)[|views|];
    AdvancesIffPassed(c, view);
    StepInside(c, |tiers|, view);
  }

  /** The calls that pass the tiers one after the other. */
  lemma PassingRun(tiers: seq<Tier>, k: nat) returns (views: seq<View>)
    requires AllPassable(tiers) && k <= |tiers|
    ensures |views| == k && PassedEach(tiers, views)
  {
    if k == 0 {
      views := [];
      FindTierFirst(tiers, tiers[0].number, 0, 0);
    } else {
      var before := PassingRun(tiers, k - 1);
      assert Passable(tiers, k - 1);
      PassableIff(tiers, k - 1);
      var view :| Passes(tiers, k - 1, view);
      PassingStep(tiers, before, view);
      views := before + [view];
    }
  }

  lemma {:induction false} TraceAppend(c: Chain, views: seq<View>, view: View)
    ensures Trace(c, views + [view]) == Trace(c, views) + [StepChain(Trace(c, views)[|views|], view)]
    decreases |views|
  {
    if views == [] {
      assert views + [view] == [view];
      assert [view][1..] == [];
    } else {
      assert (views + [view])[1..] == views[1..] + [view];
      TraceAppend(StepChain(c, views[0]), views[1..], view);
    }
  }

  ghost predicate Completes(tiers: seq<Tier>, views: seq<View>)
    requires tiers != []
  {
    Trace(Created(tiers), views)[|views|].status == ChainCompleted
  }

  /**
   About the evaluation function alone, whatever counts it is given: a list can complete exactly when its
   numbers are distinct and each of its tiers can be passed. Runs of gate operations complete fewer lists,
   because they only ask the first tier (module ApprovalCompletion).
   */
  lemma CompletesIff(tiers: seq<Tier>)
    requires tiers != []
    ensures (exists views :: Completes(tiers, views))
            <==> DistinctUpTo(tiers, |tiers|) && forall i | 0 <= i < |tiers| :: Passable(tiers, i)
  {
    if DistinctUpTo(tiers, |tiers|) && forall i | 0 <= i < |tiers| :: Passable(tiers, i) {
      var views := PassingRun(tiers, |tiers|);
      RunInside(tiers, |tiers|, views, |tiers|);
      assert Completes(tiers, views);
    } else if exists views :: Completes(tiers, views) {
      var views :| Completes(tiers, views);
      CompletedPassable(tiers, views);
    }
  }

  lemma CompletedPassable(tiers: seq<Tier>, views: seq<View>)
    requires tiers != [] && Completes(tiers, views)
    ensures DistinctUpTo(tiers, |tiers|) && forall i | 0 <= i < |tiers| :: Passable(tiers, i)
  {
    CompletedMeansResolved(tiers, views, |views|);
    var trace := Trace(Created(tiers), views);
    forall i | 0 <= i < |tiers|
      ensures Passable(tiers, i)
    {
      assert ResolvedBefore(trace, views, tiers, i, |views|);
      var j :| 0 <= j < |views| && ResolvedAt(trace, views, tiers, i, j);
      PassableIff(tiers, i);
    }
  }

  lemma PolicySatisfiesGate(c: Chain, index: nat, view: View)
    requires index < |c.tiers| && AskRequired(c, index, view).Ok? && AskRequired(c, index, view).value.1 == SatisfyGate
    ensures index + 1 == |c.tiers|
            && EvaluateCounts(PolicyOf(c.tiers[index], view), 0, view.counts(c.tiers[index].number)) == Satisfied
  {
  }

  /** A gate is satisfied by its chain only when the policy of the last tier is. */
  lemma LastTierSatisfiesGate(c: Chain, view: View)
    requires EvaluateChain(c, view).Ok? && EvaluateChain(c, view).value.1 == SatisfyGate
    ensures var i := FindTier(c.tiers, c.current, 0);
            && i + 1 == |c.tiers|
            && EvaluateCounts(PolicyOf(c.tiers[i], view), 0, view.counts(c.tiers[i].number)) == Satisfied
  {
    PolicySatisfiesGate(c, FindTier(c.tiers, c.current, 0), view);
  }

  /** The gate follows the chain: the policy of the last tier satisfies it, the policy of any tier fails it. */
  lemma GateFollowsChain(c: Chain, view: View)
    requires EvaluateChain(c, view).Ok? && !c.Closed() && Position(c) < |c.tiers|
    ensures var (d, effect) := EvaluateChain(c, view).value;
            && (effect == FailGate <==> d.status == ChainFailed)
            && (effect == SatisfyGate <==> d.status == ChainCompleted && d.tierStatus == TierApproved)
  {
  }
}
