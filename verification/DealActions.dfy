/**
 What a delivery does to the cases of its deal, told from the rows before it and after it: which case it
 cancels, opens, flags or refreshes, what it answers, and when it is not acted on.
 */
module DealActions {
  import opened Outcomes
  import opened DealIngestion

  /** The delivery is neither answered from the cache nor turned away, and brings a new snapshot. */
  predicate Effective(s: Store, d: Delivery) {
    Cacheable(s, d).None? && d.valid && d.locked && !Stale(s, d)
  }

  predicate OpenAt(cases: seq<DealCase>, i: nat) {
    i < |cases| && IsOpen(cases[i].status)
  }

  ghost predicate SomeOpen(cases: seq<DealCase>) {
    exists i: nat :: OpenAt(cases, i)
  }

  ghost predicate OneOpenAtMost(cases: seq<DealCase>) {
    forall i: nat, j: nat | OpenAt(cases, i) && OpenAt(cases, j) :: i == j
  }

  /** The open case, or none. */
  ghost predicate OnlyOpen(cases: seq<DealCase>, open: Option<nat>) {
    && (open.Some? ==> OpenAt(cases, open.value))
    && forall j: nat | OpenAt(cases, j) :: open == Some(j)
  }

  lemma OnlyOpenExists(cases: seq<DealCase>) returns (open: Option<nat>)
    requires OneOpenAtMost(cases)
    ensures OnlyOpen(cases, open) && (open.Some? <==> SomeOpen(cases))
  {
    if SomeOpen(cases) {
      var i: nat :| OpenAt(cases, i);
      open := Some(i);
    } else {
      open := None;
    }
  }

  lemma {:induction false} OpenCasesAre(cases: seq<DealCase>, open: Option<nat>, n: nat)
    requires OnlyOpen(cases, open) && n <= |cases|
    ensures OpenCases(cases, n) == if open.Some? && open.value < n then [open.value] else []
  {
    if n > 0 {
      OpenCasesAre(cases, open, n - 1);
      if IsOpen(cases[n - 1].status) { assert OpenAt(cases, n - 1); }
    }
  }

  function OutcomeOf(s: Store, d: Delivery): Outcome {
    if DealOf(s, d.deal).record.None? then FirstIngestion else Updated
  }

  /** What is stored after an effective delivery: the new record, the cases, one history row. */
  ghost predicate Stores(s: Store, t: Store, d: Delivery, cases: seq<DealCase>, answer: Response) {
    && t.deals == s.deals[d.deal := Deal(Some(Record(d.hash, d.timestamp)), cases)]
    && t.history == s.history + [answer]
    && answer.deal == d.deal && answer.hash == d.hash && !answer.late
  }

  lemma EffectiveStores(s: Store, d: Delivery, open: Option<nat>)
    requires Effective(s, d) && OnlyOpen(DealOf(s, d.deal).cases, open)
    ensures var e := CaseActionFor(DealOf(s, d.deal).cases, open, d, OutcomeOf(s, d));
            var answer := if e.exception then Response(d.deal, d.hash, Exceptional, NoAction, e.caseIndex, false)
                          else Response(d.deal, d.hash, OutcomeOf(s, d), e.action, e.caseIndex, false);
            Stores(s, Apply(s, Deliver(d)), d, e.cases, answer) && Ingest(s, d).1 == Accepted(answer)
  {
    var cases := DealOf(s, d.deal).cases;
    OpenCasesAre(cases, open, |cases|);
    assert Ingest(s, d) == ActOn(s, d, Record(d.hash, d.timestamp), OutcomeOf(s, d));
  }

  /** The cases of the deal before and after, and the answer that was stored. */
  ghost predicate Turned(s: Store, t: Store, d: Delivery, before: seq<DealCase>, after: seq<DealCase>,
                         answer: Response)
  {
    before == DealOf(s, d.deal).cases && Stores(s, t, d, after, answer)
  }

  // -------------------------------------------------------------------------------------------
  // By the status of the deal
  // -------------------------------------------------------------------------------------------

  /** A declined or closed deal has no open case left: the one that was open is CANCELLED, the others are as before. */
  lemma DeclinedCancels(start: Store, steps: seq<Step>, d: Delivery) returns (after: seq<DealCase>, answer: Response)
    requires var s := Run(start, steps); Effective(s, d) && OneOpenAtMost(DealOf(s, d.deal).cases)
    requires d.status == Declined || d.status == DealClosed
    ensures var s := Run(start, steps); var before := DealOf(s, d.deal).cases;
            && Turned(s, Run(start, steps + [Deliver(d)]), d, before, after, answer)
            && |after| == |before| && !SomeOpen(after)
            && (forall i | 0 <= i < |before| ::
                  after[i] == if OpenAt(before, i) then before[i].(status := Cancelled) else before[i])
            && answer.outcome == OutcomeOf(s, d)
            && (answer.action == CancelledDueToStatus <==> SomeOpen(before))
            && (answer.action == NoAction <==> !SomeOpen(before))
            && (forall i: nat :: OpenAt(before, i) <==> answer.caseIndex == Some(i))
  {
    RunOneMore(start, steps, Deliver(d));
    var s := Run(start, steps);
    var open := OnlyOpenExists(DealOf(s, d.deal).cases);
    EffectiveStores(s, d, open);
    after := CaseActionFor(DealOf(s, d.deal).cases, open, d, OutcomeOf(s, d)).cases;
    answer := Ingest(s, d).1.response;
    forall i: nat
      ensures !OpenAt(after, i)
    {
      if i < |after| { assert !OpenAt(DealOf(s, d.deal).cases, i) || open == Some(i); }
    }
  }

  lemma RunOneMore(start: Store, steps: seq<Step>, step: Step)
    ensures Run(start, steps + [step]) == Apply(Run(start, steps), step)
  {
    assert (steps + [step])[..|steps|] == steps;
  }

  /** The newest case, though not open, stands in the way of another one. */
  predicate Blocked(cases: seq<DealCase>) {
    cases != [] && !IsOver(cases[|cases| - 1].status)
  }

  /**
   A deal in document verification has exactly one open case afterwards, unless no case was open and the
   newest stands in the way; it is a new one exactly when none was open.
   */
  lemma VerificationOpens(start: Store, steps: seq<Step>, d: Delivery) returns (after: seq<DealCase>, answer: Response)
    requires var s := Run(start, steps); Effective(s, d) && OneOpenAtMost(DealOf(s, d.deal).cases)
    requires d.status == DocumentVerification
    ensures var s := Run(start, steps); var before := DealOf(s, d.deal).cases;
            && Turned(s, Run(start, steps + [Deliver(d)]), d, before, after, answer)
            && (answer.outcome == Exceptional <==> !SomeOpen(before) && Blocked(before))
            && (answer.outcome == Exceptional ==>
                  after == before && answer.action == NoAction && answer.caseIndex == None)
            && (answer.outcome != Exceptional ==>
                  answer.outcome == OutcomeOf(s, d) && OneOpenAtMost(after) && SomeOpen(after))
            && (!SomeOpen(before) && !Blocked(before) ==>
                  && after == before + [DealCase(Open, d.hash)] && answer.caseIndex == Some(|before|)
                  && answer.action == if before == [] || before[|before| - 1].status == Cancelled then CaseCreated
                                      else ClosedCaseRecreated)
  {
    RunOneMore(start, steps, Deliver(d));
    var s := Run(start, steps);
    var before := DealOf(s, d.deal).cases;
    var open := OnlyOpenExists(before);
    EffectiveStores(s, d, open);
    after := CaseActionFor(before, open, d, OutcomeOf(s, d)).cases;
    answer := Ingest(s, d).1.response;
    VerificationAction(before, open, d, OutcomeOf(s, d));
  }

  lemma VerificationAction(before: seq<DealCase>, open: Option<nat>, d: Delivery, outcome: Outcome)
    requires d.status == DocumentVerification && OnlyOpen(before, open) && outcome != Exceptional
    ensures var e := CaseActionFor(before, open, d, outcome);
            && (e.exception <==> open.None? && Blocked(before))
            && (e.exception ==> e.cases == before && e.caseIndex == None)
            && (!e.exception ==> OneOpenAtMost(e.cases) && SomeOpen(e.cases))
            && (open.None? && !Blocked(before) ==>
                  && e.cases == before + [DealCase(Open, d.hash)] && e.caseIndex == Some(|before|)
                  && e.action == if before == [] || before[|before| - 1].status == Cancelled then CaseCreated
                                 else ClosedCaseRecreated)
  {
    var after := CaseActionFor(before, open, d, outcome).cases;
    if open.Some? {
      SameOpen(before, after, open.value);
    } else if !Blocked(before) {
      assert OpenAt(after, |before|);
      assert forall i: nat | OpenAt(after, i) && i < |before| :: OpenAt(before, i);
    }
  }

  lemma SameOpen(before: seq<DealCase>, after: seq<DealCase>, i: nat)
    requires |after| == |before| && OnlyOpen(before, Some(i))
    requires forall j | 0 <= j < |before| :: after[j].status == before[j].status
    ensures OnlyOpen(after, Some(i)) && OneOpenAtMost(after) && SomeOpen(after)
  {
    assert OpenAt(after, i);
    forall j: nat | OpenAt(after, j)
      ensures j == i
    {
      assert OpenAt(before, j);
    }
  }

  /** The case that was open, in a deal that is not declined or closed, is refreshed by an update and flagged or not. */
  lemma OpenCaseRefreshed(start: Store, steps: seq<Step>, d: Delivery, i: nat)
      returns (after: seq<DealCase>, answer: Response)
    requires var s := Run(start, steps); Effective(s, d) && OnlyOpen(DealOf(s, d.deal).cases, Some(i))
    requires d.status != Declined && d.status != DealClosed
    ensures var s := Run(start, steps); var before := DealOf(s, d.deal).cases;
            && Turned(s, Run(start, steps + [Deliver(d)]), d, before, after, answer)
            && answer.outcome == OutcomeOf(s, d) && answer.caseIndex == Some(i)
            && |after| == |before| && (forall j | 0 <= j < |before| && j != i :: after[j] == before[j])
            && after[i].status == before[i].status
            && (d.status != DocumentVerification || OutcomeOf(s, d) == Updated ==> after[i].hash == d.hash)
            && (d.status == DocumentVerification && OutcomeOf(s, d) != Updated ==> after[i].hash == before[i].hash)
            && answer.action == if d.status != DocumentVerification then SnapshotRefreshed
                                else if OutcomeOf(s, d) != Updated then NoAction
                                else if d.material then DealChangeFlagged else SnapshotRefreshed
  {
    RunOneMore(start, steps, Deliver(d));
    var s := Run(start, steps);
    EffectiveStores(s, d, Some(i));
    after := CaseActionFor(DealOf(s, d.deal).cases, Some(i), d, OutcomeOf(s, d)).cases;
    answer := Ingest(s, d).1.response;
  }

  /** Without an open case, a deal in any other status is only recorded. */
  lemma NothingToDo(start: Store, steps: seq<Step>, d: Delivery) returns (answer: Response)
    requires var s := Run(start, steps); Effective(s, d) && !SomeOpen(DealOf(s, d.deal).cases)
    requires d.status != DocumentVerification
    ensures var s := Run(start, steps); var before := DealOf(s, d.deal).cases;
            && Turned(s, Run(start, steps + [Deliver(d)]), d, before, before, answer)
            && answer.outcome == OutcomeOf(s, d) && answer.action == NoAction && answer.caseIndex == None
  {
    RunOneMore(start, steps, Deliver(d));
    var s := Run(start, steps);
    assert OnlyOpen(DealOf(s, d.deal).cases, None);
    EffectiveStores(s, d, None);
    answer := Ingest(s, d).1.response;
  }

  /** The step wrote a history row that flags a change of the deal. */
  ghost predicate Flags(s: Store, t: Store) {
    |t.history| == |s.history| + 1 && t.history[|s.history|].action == DealChangeFlagged
  }

  /** A change is flagged exactly for an update, material, of a deal in document verification with an open case. */
  lemma FlaggedIff(s: Store, d: Delivery)
    ensures Flags(s, Apply(s, Deliver(d)))
            <==> && Effective(s, d) && OneOpenAtMost(DealOf(s, d.deal).cases) && SomeOpen(DealOf(s, d.deal).cases)
                 && d.status == DocumentVerification && DealOf(s, d.deal).record.Some? && d.material
  {
    var cases := DealOf(s, d.deal).cases;
    TurnedAwayIff(s, d);
    if Effective(s, d) && OneOpenAtMost(cases) {
      var open := OnlyOpenExists(cases);
      EffectiveStores(s, d, open);
    } else if Cacheable(s, d).None? && d.valid && d.locked && Stale(s, d) {
      StaleAnswered(s, d);
    }
  }

  // -------------------------------------------------------------------------------------------
  // Deliveries that are not acted on
  // -------------------------------------------------------------------------------------------

  /** With two open cases nothing is changed. */
  lemma DuplicatesRefused(s: Store, d: Delivery)
    requires Effective(s, d) && !OneOpenAtMost(DealOf(s, d.deal).cases)
    ensures Ingest(s, d) == (s, Problem(500))
  {
    var cases := DealOf(s, d.deal).cases;
    var i: nat, j: nat :| OpenAt(cases, i) && OpenAt(cases, j) && i < j;
    TwoOpen(cases, i, j, |cases|);
  }

  /** The stored or an older snapshot is noted and answered as such; it is called late when it is another one. */
  lemma StaleAnswered(s: Store, d: Delivery)
    requires Cacheable(s, d).None? && d.valid && d.locked && Stale(s, d)
    ensures var t := Apply(s, Deliver(d));
            && t.deals == s.deals
            && t.history == s.history + [Response(d.deal, d.hash, IdempotentNoOp, NoAction, None,
                                                  d.hash != s.deals[d.deal].record.value.hash)]
  {
    assert s.deals[d.deal := s.deals[d.deal]] == s.deals;
  }

  /** Exactly when a delivery is turned away, and that it then leaves everything as it was. */
  lemma TurnedAwayIff(s: Store, d: Delivery)
    ensures Ingest(s, d).1 == Problem(422) <==> Cacheable(s, d).None? && !d.valid
    ensures Ingest(s, d).1 == Problem(409) <==> Cacheable(s, d).None? && d.valid && !d.locked
    ensures Ingest(s, d).1 == Problem(500) <==> Effective(s, d) && !OneOpenAtMost(DealOf(s, d.deal).cases)
    ensures Ingest(s, d).1.Problem? || Cacheable(s, d).Some? ==> Apply(s, Deliver(d)) == s
  {
    if Effective(s, d) {
      if OneOpenAtMost(DealOf(s, d.deal).cases) {
        var open := OnlyOpenExists(DealOf(s, d.deal).cases);
        EffectiveStores(s, d, open);
      } else {
        DuplicatesRefused(s, d);
      }
    }
  }

  // -------------------------------------------------------------------------------------------
  // Over whole runs
  // -------------------------------------------------------------------------------------------

  lemma OlderOverOneOpen(cases: seq<DealCase>)
    requires OlderOver(cases)
    ensures OneOpenAtMost(cases)
  {
    forall i: nat, j: nat | OpenAt(cases, i) && OpenAt(cases, j)
      ensures i == j
    {
    }
  }

  /** In respectful runs from the start every effective delivery is acted on. */
  lemma RespectfulRunsAct(steps: seq<Step>, d: Delivery)
    requires RespectfulRun(EMPTY, steps) && Effective(Run(EMPTY, steps), d)
    ensures OneOpenAtMost(DealOf(Run(EMPTY, steps), d.deal).cases) && Ingest(Run(EMPTY, steps), d).1.Accepted?
  {
    var s := Run(EMPTY, steps);
    AtMostOneOpen(steps, d.deal, d);
    OlderOverOneOpen(DealOf(s, d.deal).cases);
    TurnedAwayIff(s, d);
  }

  predicate Opens(answer: Response, deal: string) {
    answer.deal == deal && (answer.action == CaseCreated || answer.action == ClosedCaseRecreated)
  }

  /** How many cases the history says were opened for the deal. */
  function Opened(history: seq<Response>, deal: string): nat {
    if history == [] then 0
    else Opened(history[..|history| - 1], deal) + if Opens(history[|history| - 1], deal) then 1 else 0
  }

  lemma OpenedAppend(history: seq<Response>, answer: Response, deal: string)
    ensures Opened(history + [answer], deal) == Opened(history, deal) + if Opens(answer, deal) then 1 else 0
  {
    assert (history + [answer])[..|history|] == history;
  }

  lemma ActionCounted(cases: seq<DealCase>, open: Option<nat>, d: Delivery, outcome: Outcome)
    requires open.Some? ==> open.value < |cases|
    ensures var e := CaseActionFor(cases, open, d, outcome);
            && |e.cases| == |cases| + (if e.action == CaseCreated || e.action == ClosedCaseRecreated then 1 else 0)
            && (e.exception ==> e.action == NoAction)
  {
  }

  lemma DeliverCounted(s: Store, d: Delivery, deal: string)
    ensures var t := Apply(s, Deliver(d));
            |DealOf(t, deal).cases| - |DealOf(s, deal).cases| == Opened(t.history, deal) - Opened(s.history, deal)
  {
    var cases := DealOf(s, d.deal).cases;
    TurnedAwayIff(s, d);
    if Effective(s, d) && OneOpenAtMost(cases) {
      var open := OnlyOpenExists(cases);
      EffectiveStores(s, d, open);
      ActionCounted(cases, open, d, OutcomeOf(s, d));
      OpenedAppend(s.history, Ingest(s, d).1.response, deal);
    } else if Cacheable(s, d).None? && d.valid && d.locked && Stale(s, d) {
      StaleAnswered(s, d);
      OpenedAppend(s.history, Ingest(s, d).1.response, deal);
    }
  }

  /** Over every run, whatever the lifecycle steps do, a deal has one case for each that the history says was opened. */
  lemma {:induction false} CasesCounted(steps: seq<Step>, deal: string)
    ensures var s := Run(EMPTY, steps); |DealOf(s, deal).cases| == Opened(s.history, deal)
    decreases |steps|
  {
    if steps != [] {
      var n := |steps| - 1;
      CasesCounted(steps[..n], deal);
      if steps[n].Deliver? { DeliverCounted(Run(EMPTY, steps[..n]), steps[n].d, deal); }
    }
  }
}
