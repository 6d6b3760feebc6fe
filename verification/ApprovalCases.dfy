/**
 What approvals do to cases, told from the events they publish: a rejection sends the case to rework at the
 gate's target stage, or rejects it, and nothing else touches a case.
 */
module ApprovalCases {
  import opened Outcomes
  import opened ApprovalPolicy
  import opened ApprovalChain
  import opened ApprovalGates
  import opened ApprovalLaws
  import opened ApprovalReversal

  /** An event that says what became of the case. */
  predicate Rules(e: Event) {
    e.kind == SentToReworkEvent || e.kind == MaxReworkEvent || e.kind == CaseRejectedEvent
  }

  /** The ruling with which the events of a step end, if they do. */
  function Ruling(s: Store, t: Store): Option<Event> {
    if |s.events| < |t.events| && Rules(t.events[|t.events| - 1]) then Some(t.events[|t.events| - 1]) else None
  }

  /** The case row once the ruling is carried out. */
  function Ruled(row: CaseRow, kind: EventKind, target: string): CaseRow {
    match kind
    case SentToReworkEvent => row.(status := "IN_PROGRESS", stage := target, reworkCount := row.reworkCount + 1)
    case MaxReworkEvent => row.(status := "REJECTED", reworkCount := row.reworkCount + 1)
    case CaseRejectedEvent => row.(status := "REJECTED")
    case _ => row
  }

  function CaseOf(s: Store, g: nat): nat
    requires g in s.gates
  {
    s.gates[g].config.caseId
  }

  /** From `s` to `t` only new events that rule nothing were published, and no case changed. */
  ghost predicate Unruled(s: Store, t: Store) {
    t.cases == s.cases && s.events <= t.events && forall i | |s.events| <= i < |t.events| :: !Rules(t.events[i])
  }

  /** The ruling is the last new event, and the case of its gate, and no other, is changed by it. */
  ghost predicate RuledBy(s: Store, t: Store, e: Event) {
    && |s.events| < |t.events| && s.events <= t.events && t.events[|t.events| - 1] == e && Rules(e)
    && (forall i | |s.events| <= i < |t.events| - 1 :: !Rules(t.events[i]))
    && e.gate in s.gates
    && var c := CaseOf(s, e.gate);
       && (e.kind != CaseRejectedEvent ==> c in s.cases)
       && t.cases == (if c in s.cases then s.cases[c := Ruled(s.cases[c], e.kind, s.gates[e.gate].config.reworkTarget)]
                      else s.cases)
  }

  // -------------------------------------------------------------------------------------------
  // One step
  // -------------------------------------------------------------------------------------------

  lemma PolicyUnruled(s: Store, g: nat, verdict: Verdict)
    requires g in s.gates && ApplyVerdict(s, g, verdict).Ok?
    ensures Unruled(s, ApplyVerdict(s, g, verdict).value.0)
  {
  }

  lemma ChainUnruled(s: Store, g: nat, eval: string -> Result<bool>)
    requires g in s.gates && EvaluateGateChain(s, g, eval).Ok?
    ensures Unruled(s, EvaluateGateChain(s, g, eval).value)
  {
    if g in s.chains {
      var r := EvaluateChain(s.chains[g], ChainView(s, g, eval)).value;
      ApplyChainUnruled(s, g, r.0, r.1);
    }
  }

  lemma ApplyChainUnruled(s: Store, g: nat, chain: Chain, effect: Effect)
    requires g in s.gates
    ensures Unruled(s, ApplyChain(s, g, chain, effect))
  {
  }

  lemma UnruledTwice(s: Store, t: Store, u: Store)
    requires Unruled(s, t) && Unruled(t, u)
    ensures Unruled(s, u)
  {
    forall i | |s.events| <= i < |u.events|
      ensures !Rules(u.events[i])
    {
      if i < |t.events| { assert u.events[i] == t.events[i]; }
    }
  }

  lemma UnruledThenRuled(s: Store, t: Store, u: Store, e: Event)
    requires Unruled(s, t) && RuledBy(t, u, e) && SameSetup(s, t)
    ensures RuledBy(s, u, e)
  {
    forall i | |s.events| <= i < |u.events| - 1
      ensures !Rules(u.events[i])
    {
      if i < |t.events| { assert u.events[i] == t.events[i]; }
    }
  }

  /** The rework limit of the gate's case is used up. */
  predicate Exhausted(s: Store, g: nat)
    requires g in s.gates
  {
    var c := CaseOf(s, g);
    c in s.cases && s.cases[c].maxRework > 0 && s.cases[c].reworkCount >= s.cases[c].maxRework
  }

  /** What a rejection on this gate rules. */
  function RejectionRuling(s: Store, g: nat): Option<Event>
    requires g in s.gates
  {
    match s.gates[g].config.onRejection
    case OtherBehavior(_) => None
    case TerminalFail => Some(Event(CaseRejectedEvent, g))
    case SendToRework => Some(Event(if Exhausted(s, g) then MaxReworkEvent else SentToReworkEvent, g))
  }

  lemma RejectionRules(s: Store, g: nat)
    requires g in s.gates && ExecuteRejection(s, g).Ok?
    ensures var t := ExecuteRejection(s, g).value;
            match RejectionRuling(s, g)
            case None => Unruled(s, t)
            case Some(e) => RuledBy(s, t, e)
  {
  }

  /** The policy has the gate satisfied, with these requests. */
  predicate Passed(s: Store, g: nat, requests: seq<Request>)
    requires g in s.gates
  {
    var config, status := s.gates[g].config, s.Status(g);
    || status == GateSatisfied
    || (&& status != GateFailed && status != GateRejected && status != GateCancelled
        && EvaluateCounts(config.policy, config.required, Tally(requests, OfGate(g))) == Satisfied)
  }

  lemma VerdictPassed(s: Store, g: nat)
    requires g in s.gates && EvaluatePolicy(s, g).Ok?
    ensures EvaluatePolicy(s, g).value.1 <==> Passed(s, g, s.requests)
  {
  }

  lemma SameRuling(s: Store, t: Store, g: nat)
    requires g in s.gates && SameSetup(s, t) && t.cases == s.cases
    ensures RejectionRuling(t, g) == RejectionRuling(s, g)
  {
  }

  lemma AfterDecisionRules(s: Store, g: nat, approve: bool, eval: string -> Result<bool>)
    requires g in s.gates && AfterDecision(s, g, approve, eval).Ok?
    ensures var t := AfterDecision(s, g, approve, eval).value;
            match (if approve || Passed(s, g, s.requests) then None else RejectionRuling(s, g))
            case None => Unruled(s, t)
            case Some(e) => RuledBy(s, t, e)
  {
    var (evaluated, satisfied) := EvaluatePolicy(s, g).value;
    var chained := EvaluateGateChain(evaluated, g, eval).value;
    VerdictPassed(s, g);
    PolicyUnruled(s, g, GateVerdict(s, g));
    ChainUnruled(evaluated, g, eval);
    UnruledTwice(s, evaluated, chained);
    if !approve && !satisfied {
      SameRuling(s, chained, g);
      RejectionRules(chained, g);
      match RejectionRuling(s, g)
      case None => UnruledTwice(s, chained, ExecuteRejection(chained, g).value);
      case Some(e) => UnruledThenRuled(s, chained, ExecuteRejection(chained, g).value, e);
    }
  }

  /** The ruling a step is due: only a rejection that takes effect on a gate that is not passed has one. */
  function Due(s: Store, step: Step): Option<Event> {
    if step.Decide? && !step.approve && DecideRequest(s, step.r, step.actor, false, step.eval).Ok?
       && !Passed(s, s.requests[step.r].gate, Marked(s.requests, step.r, false))
    then RejectionRuling(s, s.requests[step.r].gate)
    else None
  }

  lemma DecideRules(s: Store, r: nat, actor: Actor, approve: bool, eval: string -> Result<bool>)
    requires DecideRequest(s, r, actor, approve, eval).Ok?
    ensures match Due(s, Decide(r, actor, approve, eval))
            case None => Unruled(s, DecideRequest(s, r, actor, approve, eval).value)
            case Some(e) => RuledBy(s, DecideRequest(s, r, actor, approve, eval).value, e)
  {
    var request := s.requests[r];
    var g := request.gate;
    var decided := s.SetRequest(r, if approve then Approved else Rejected, request.delegatedTo)
                    .Publish(if approve then GrantedEvent else RejectedEvent, g);
    var t := AfterDecision(decided, g, approve, eval).value;
    assert decided.requests == Marked(s.requests, r, approve);
    assert Unruled(s, decided);
    AfterDecisionRules(decided, g, approve, eval);
    SameFor(s, decided, g);
    if approve || Passed(decided, g, decided.requests) || RejectionRuling(s, g).None? {
      UnruledTwice(s, decided, t);
    } else {
      RuledAgain(s, decided, t, RejectionRuling(s, g).value);
    }
  }

  lemma SameFor(s: Store, t: Store, g: nat)
    requires g in s.gates && t.gates == s.gates && t.cases == s.cases
    ensures RejectionRuling(t, g) == RejectionRuling(s, g)
    ensures forall requests :: Passed(t, g, requests) <==> Passed(s, g, requests)
  {
  }

  lemma RuledAgain(s: Store, t: Store, u: Store, e: Event)
    requires Unruled(s, t) && RuledBy(t, u, e) && t.gates == s.gates
    ensures RuledBy(s, u, e)
  {
    forall i | |s.events| <= i < |u.events| - 1
      ensures !Rules(u.events[i])
    {
      if i < |t.events| { assert u.events[i] == t.events[i]; }
    }
  }

  lemma {:induction false} RequestAllUnruled(s: Store, g: nat, approvers: seq<string>)
    requires g in s.gates
    ensures Unruled(s, RequestAll(s, g, approvers))
    decreases |approvers|
  {
    if approvers != [] { RequestAllUnruled(s, g, approvers[..|approvers| - 1]); }
  }

  lemma ExpireUnruled(s: Store, r: nat, escalateTo: string)
    ensures Unruled(s, ExpireRequest(s, r, escalateTo))
  {
    if r < |s.requests| && s.requests[r].gate in s.gates && s.requests[r].status == Pending {
      var g := s.requests[r].gate;
      var requests := TimedOut(s.requests, r, s.gates[g].config.onTimeout, escalateTo);
      var t := s.(requests := requests).Publish(ExpiredEvent, g);
      if EvaluatePolicy(t, g).Ok? {
        PolicyUnruled(t, g, GateVerdict(t, g));
        UnruledTwice(s, t, EvaluatePolicy(t, g).value.0);
      }
    }
  }

  lemma CreateUnruled(s: Store, g: nat, config: GateConfig)
    ensures Unruled(s, CreateGate(s, g, config))
  {
  }

  lemma ActivateUnruled(s: Store, g: nat, approvers: seq<string>)
    requires ActivateGate(s, g, approvers).Ok?
    ensures Unruled(s, ActivateGate(s, g, approvers).value)
  {
    RequestAllUnruled(s, g, approvers);
  }

  lemma DelegateUnruled(s: Store, r: nat, actor: Actor, to: string)
    requires DelegateRequest(s, r, actor, to).Ok?
    ensures Unruled(s, DelegateRequest(s, r, actor, to).value)
  {
  }

  /** From `s` to `t` this ruling was published and carried out, or none. */
  ghost predicate Obeys(s: Store, t: Store, ruling: Option<Event>) {
    match ruling
    case None => Unruled(s, t)
    case Some(e) => RuledBy(s, t, e)
  }

  lemma StepFollows(s: Store, step: Step)
    ensures Obeys(s, Apply(s, step), Due(s, step))
  {
    match step
    case Create(g, config) => CreateUnruled(s, g, config);
    case Activate(g, approvers) => if ActivateGate(s, g, approvers).Ok? { ActivateUnruled(s, g, approvers); }
    case Decide(r, actor, approve, eval) =>
      if DecideRequest(s, r, actor, approve, eval).Ok? { DecideRules(s, r, actor, approve, eval); }
    case Delegate(r, actor, to) => if DelegateRequest(s, r, actor, to).Ok? { DelegateUnruled(s, r, actor, to); }
    case Expire(r, escalateTo) => ExpireUnruled(s, r, escalateTo);
  }

  lemma FollowsPublished(s: Store, t: Store, ruling: Option<Event>)
    requires Obeys(s, t, ruling)
    ensures Ruling(s, t) == ruling
  {
  }

  /**
   In every step, the ruling published is the one that is due, the case of its gate is changed as it says,
   and no other case is changed, nor any when there is no ruling.
   */
  lemma CasesFollowRulings(s: Store, step: Step)
    ensures Ruling(s, Apply(s, step)) == Due(s, step) && Obeys(s, Apply(s, step), Due(s, step))
  {
    StepFollows(s, step);
    FollowsPublished(s, Apply(s, step), Due(s, step));
  }

  /** What a ruling on a gate means for the rows. */
  ghost predicate CarriedOut(s: Store, t: Store, e: Event)
    requires e.gate in s.gates
  {
    var c, target := CaseOf(s, e.gate), s.gates[e.gate].config.reworkTarget;
    && t.cases.Keys == s.cases.Keys
    && (forall other | other in s.cases && other != c :: t.cases[other] == s.cases[other])
    && (e.kind == SentToReworkEvent ==>
          && c in s.cases && t.cases[c].status == "IN_PROGRESS" && t.cases[c].stage == target
          && t.cases[c].reworkCount == s.cases[c].reworkCount + 1)
    && (e.kind == MaxReworkEvent ==>
          && c in s.cases && t.cases[c].status == "REJECTED" && t.cases[c].stage == s.cases[c].stage
          && t.cases[c].reworkCount == s.cases[c].reworkCount + 1)
    && (e.kind == CaseRejectedEvent && c in s.cases ==>
          && t.cases[c].status == "REJECTED" && t.cases[c].stage == s.cases[c].stage
          && t.cases[c].reworkCount == s.cases[c].reworkCount)
  }

  lemma RuledCarriedOut(s: Store, t: Store, e: Event)
    requires RuledBy(s, t, e)
    ensures CarriedOut(s, t, e)
  {
  }

  /** Whenever in a run a ruling is published, it is carried out. */
  lemma RulingCarriedOut(start: Store, steps: seq<Step>, step: Step, e: Event)
    requires Ruling(Run(start, steps), Run(start, steps + [step])) == Some(e)
    ensures e.gate in Run(start, steps).gates && CarriedOut(Run(start, steps), Run(start, steps + [step]), e)
  {
    assert (steps + [step])[..|steps|] == steps;
    CasesFollowRulings(Run(start, steps), step);
    RuledCarriedOut(Run(start, steps), Run(start, steps + [step]), e);
  }

  // -------------------------------------------------------------------------------------------
  // The gate after a decision
  // -------------------------------------------------------------------------------------------

  predicate IsOpen(status: GateStatus) {
    status == GatePending || status == GateActive
  }

  /** An open gate is closed by the verdict of its policy; any other status stays. */
  function ByVerdict(status: GateStatus, verdict: Verdict): GateStatus {
    if IsOpen(status) && verdict == Satisfied then GateSatisfied
    else if IsOpen(status) && verdict == Failed then GateFailed
    else status
  }

  /** Then its chain has its say, whatever the status: by the last tier's approval or any tier's failure. */
  function ByChain(status: GateStatus, chain: Option<Chain>, view: View): GateStatus {
    if chain.None? then status
    else if LastTierPasses(chain.value, view) then GateSatisfied
    else if TierFails(chain.value, view) then GateFailed
    else status
  }

  /** Last, a ruling on the case of a rejection. */
  function ByRuling(status: GateStatus, ruling: Option<Event>): GateStatus {
    if ruling.None? then status
    else if ruling.value.kind == SentToReworkEvent then GateReworkInitiated
    else if ruling.value.kind == CaseRejectedEvent then GateFailed
    else status
  }

  function ChainOf(s: Store, g: nat): Option<Chain> {
    if g in s.chains then Some(s.chains[g]) else None
  }

  lemma PolicyStatus(s: Store, g: nat)
    requires g in s.gates && EvaluatePolicy(s, g).Ok?
    ensures var t := EvaluatePolicy(s, g).value.0;
            g in t.gates && t.Status(g) == ByVerdict(s.Status(g), GateVerdict(s, g))
  {
  }

  lemma ChainStatusOf(s: Store, g: nat, eval: string -> Result<bool>)
    requires g in s.gates && EvaluateGateChain(s, g, eval).Ok?
    ensures var t := EvaluateGateChain(s, g, eval).value;
            g in t.gates && t.Status(g) == ByChain(s.Status(g), ChainOf(s, g), ChainView(s, g, eval))
  {
    if g in s.chains {
      FailsGateIff(s.chains[g], ChainView(s, g, eval));
      SatisfiesGateIff(s.chains[g], ChainView(s, g, eval));
    }
  }

  lemma RulingStatus(s: Store, g: nat)
    requires g in s.gates && ExecuteRejection(s, g).Ok?
    ensures var t := ExecuteRejection(s, g).value;
            g in t.gates && t.Status(g) == ByRuling(s.Status(g), RejectionRuling(s, g))
  {
  }

  lemma SameByChain(status: GateStatus, chain: Option<Chain>, view: View, other: View)
    requires view.eval == other.eval && view.gatePolicy == other.gatePolicy
    requires forall n :: view.counts(n) == other.counts(n)
    ensures ByChain(status, chain, view) == ByChain(status, chain, other)
  {
    if chain.Some? { SameView(chain.value, view, other); }
  }

  lemma AfterDecisionStatus(s: Store, g: nat, approve: bool, eval: string -> Result<bool>)
    requires g in s.gates && AfterDecision(s, g, approve, eval).Ok?
    ensures var t := AfterDecision(s, g, approve, eval).value;
            && g in t.gates
            && t.Status(g) == ByRuling(ByChain(ByVerdict(s.Status(g), GateVerdict(s, g)), ChainOf(s, g),
                                               ChainView(s, g, eval)),
                                       if approve || Passed(s, g, s.requests) then None else RejectionRuling(s, g))
  {
    var (evaluated, satisfied) := EvaluatePolicy(s, g).value;
    var chained := EvaluateGateChain(evaluated, g, eval).value;
    PolicyStatus(s, g);
    ChainStatusOf(evaluated, g, eval);
    SameByChain(evaluated.Status(g), ChainOf(s, g), ChainView(evaluated, g, eval), ChainView(s, g, eval));
    VerdictPassed(s, g);
    if !approve && !satisfied {
      PolicyUnruled(s, g, GateVerdict(s, g));
      ChainUnruled(evaluated, g, eval);
      SameRuling(s, chained, g);
      RulingStatus(chained, g);
    }
  }

  /** The status of a gate after an accepted decision: its policy, its chain and the ruling, in this order. */
  lemma GateAfterDecision(s: Store, r: nat, actor: Actor, approve: bool, eval: string -> Result<bool>)
    requires DecideRequest(s, r, actor, approve, eval).Ok?
    ensures var step, g := Decide(r, actor, approve, eval), s.requests[r].gate;
            var t, config := Apply(s, step), s.gates[g].config;
            var counts := Tally(Marked(s.requests, r, approve), OfGate(g));
            var verdict := EvaluateCounts(config.policy, config.required, counts);
            && g in t.gates
            && t.Status(g) == ByRuling(ByChain(ByVerdict(s.Status(g), verdict), ChainOf(s, g),
                                               ViewAfter(s, g, r, approve, eval)), Due(s, step))
  {
    var request := s.requests[r];
    var g := request.gate;
    var decided := s.SetRequest(r, if approve then Approved else Rejected, request.delegatedTo)
                    .Publish(if approve then GrantedEvent else RejectedEvent, g);
    assert decided.requests == Marked(s.requests, r, approve);
    SameFor(s, decided, g);
    AfterDecisionStatus(decided, g, approve, eval);
    SameByChain(ByVerdict(s.Status(g), GateVerdict(decided, g)), ChainOf(s, g), ChainView(decided, g, eval),
                ViewAfter(s, g, r, approve, eval));
  }

  // -------------------------------------------------------------------------------------------
  // Runs
  // -------------------------------------------------------------------------------------------

  /** The step sends the case on or back. */
  predicate Concerns(s: Store, step: Step, c: nat) {
    Due(s, step).Some? && Due(s, step).value.gate in s.gates && CaseOf(s, Due(s, step).value.gate) == c
  }

  /** The case row after a run, by the rulings of its steps on gates of this case. */
  function Story(s: Store, steps: seq<Step>, c: nat, row: CaseRow): CaseRow {
    if steps == [] then row
    else
      var n := |steps| - 1;
      var before, so := Run(s, steps[..n]), Story(s, steps[..n], c, row);
      if Concerns(before, steps[n], c) then
        var e := Due(before, steps[n]).value;
        Ruled(so, e.kind, before.gates[e.gate].config.reworkTarget)
      else so
  }

  lemma StepStory(s: Store, step: Step, c: nat)
    requires c in s.cases
    ensures c in Apply(s, step).cases
    ensures Apply(s, step).cases[c]
            == if Concerns(s, step, c)
               then Ruled(s.cases[c], Due(s, step).value.kind, s.gates[Due(s, step).value.gate].config.reworkTarget)
               else s.cases[c]
  {
    CasesFollowRulings(s, step);
  }

  /** Over every run a case is what the rulings on its gates make of it, one after the other. */
  lemma {:induction false} CaseStory(s: Store, steps: seq<Step>, c: nat)
    requires c in s.cases
    ensures c in Run(s, steps).cases && Run(s, steps).cases[c] == Story(s, steps, c, s.cases[c])
    decreases |steps|
  {
    if steps != [] {
      var n := |steps| - 1;
      CaseStory(s, steps[..n], c);
      StepStory(Run(s, steps[..n]), steps[n], c);
    }
  }

  /** The event is about rework of the case. */
  predicate Reworks(e: Event, gates: map<nat, Gate>, c: nat) {
    (e.kind == SentToReworkEvent || e.kind == MaxReworkEvent) && e.gate in gates && gates[e.gate].config.caseId == c
  }

  function ReworkEvents(events: seq<Event>, from: nat, gates: map<nat, Gate>, c: nat): nat
    decreases |events|
  {
    if |events| <= from then 0
    else
      var n := |events| - 1;
      ReworkEvents(events[..n], from, gates, c) + if Reworks(events[n], gates, c) then 1 else 0
  }

  /** Gates never change their case. */
  ghost predicate SameCases(gates: map<nat, Gate>, later: map<nat, Gate>) {
    forall g | g in gates :: g in later && later[g].config.caseId == gates[g].config.caseId
  }

  lemma StepSameCases(s: Store, step: Step)
    ensures SameCases(s.gates, Apply(s, step).gates)
  {
    match step
    case Activate(g, approvers) => if g in s.gates { RequestAllUndecisive(s, g, approvers); }
    case _ =>
  }

  /** Rework events since `from` name gates that exist. */
  ghost predicate Known(events: seq<Event>, from: nat, gates: map<nat, Gate>) {
    forall i | from <= i < |events| && Rules(events[i]) :: events[i].gate in gates
  }

  lemma {:induction false} SameReworks(events: seq<Event>, from: nat, gates: map<nat, Gate>, later: map<nat, Gate>,
      c: nat)
    requires SameCases(gates, later) && Known(events, from, gates)
    ensures ReworkEvents(events, from, later, c) == ReworkEvents(events, from, gates, c)
    decreases |events|
  {
    if |events| > from {
      SameReworks(events[..|events| - 1], from, gates, later, c);
    }
  }

  lemma {:induction false} NoReworks(events: seq<Event>, from: nat, m: nat, gates: map<nat, Gate>, c: nat)
    requires from <= m <= |events| && forall i | m <= i < |events| :: !Rules(events[i])
    ensures ReworkEvents(events, from, gates, c) == ReworkEvents(events[..m], from, gates, c)
    decreases |events|
  {
    if m < |events| {
      var n := |events| - 1;
      NoReworks(events[..n], from, m, gates, c);
      assert events[..n][..m] == events[..m];
    } else {
      assert events[..m] == events;
    }
  }

  /** The rework count of the case and the rework events of its gates grow alike. */
  ghost predicate CountsAlike(s: Store, t: Store, from: nat, c: nat) {
    && c in s.cases && c in t.cases && from <= |t.events| && Known(t.events, from, t.gates)
    && t.cases[c].reworkCount - s.cases[c].reworkCount
       == ReworkEvents(t.events, from, t.gates, c) - ReworkEvents(s.events, from, s.gates, c)
  }

  lemma UnruledReworks(s: Store, t: Store, from: nat, c: nat)
    requires c in s.cases && from <= |s.events| && Known(s.events, from, s.gates)
    requires Unruled(s, t) && SameCases(s.gates, t.gates)
    ensures CountsAlike(s, t, from, c)
  {
    SameReworks(s.events, from, s.gates, t.gates, c);
    assert t.events[..|s.events|] == s.events;
    NoReworks(t.events, from, |s.events|, t.gates, c);
    forall i | from <= i < |t.events| && Rules(t.events[i])
      ensures t.events[i].gate in t.gates
    {
      assert t.events[i] == s.events[i];
    }
  }

  lemma RuledKnown(s: Store, t: Store, e: Event, from: nat)
    requires Known(s.events, from, s.gates) && RuledBy(s, t, e) && SameCases(s.gates, t.gates)
    ensures Known(t.events, from, t.gates)
  {
    forall i | from <= i < |t.events| && Rules(t.events[i])
      ensures t.events[i].gate in t.gates
    {
      if i < |s.events| { assert t.events[i] == s.events[i]; }
    }
  }

  lemma RuledReworks(s: Store, t: Store, e: Event, from: nat, c: nat)
    requires c in s.cases && from <= |s.events| && Known(s.events, from, s.gates)
    requires RuledBy(s, t, e) && SameCases(s.gates, t.gates)
    ensures CountsAlike(s, t, from, c)
  {
    RuledKnown(s, t, e, from);
    SameReworks(s.events, from, s.gates, t.gates, c);
    var n := |t.events| - 1;
    assert t.events[..n][..|s.events|] == s.events;
    NoReworks(t.events[..n], from, |s.events|, t.gates, c);
    assert CaseOf(s, e.gate) == t.gates[e.gate].config.caseId;
  }

  lemma StepReworks(s: Store, step: Step, from: nat, c: nat)
    requires c in s.cases && from <= |s.events| && Known(s.events, from, s.gates)
    ensures CountsAlike(s, Apply(s, step), from, c)
  {
    CasesFollowRulings(s, step);
    StepSameCases(s, step);
    match Due(s, step)
    case None => UnruledReworks(s, Apply(s, step), from, c);
    case Some(e) => RuledReworks(s, Apply(s, step), e, from, c);
  }

  /** Over every run, the rework count of a case grows by one for each rework event of its gates and not otherwise. */
  lemma {:induction false} ReworkCounted(s: Store, steps: seq<Step>, c: nat)
    requires c in s.cases
    ensures var t := Run(s, steps);
            && |s.events| <= |t.events| && Known(t.events, |s.events|, t.gates) && c in t.cases
            && t.cases[c].reworkCount == s.cases[c].reworkCount + ReworkEvents(t.events, |s.events|, t.gates, c)
    decreases |steps|
  {
    if steps != [] {
      var n := |steps| - 1;
      ReworkCounted(s, steps[..n], c);
      StepReworks(Run(s, steps[..n]), steps[n], |s.events|, c);
    }
  }
}
