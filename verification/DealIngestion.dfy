/**
 Ingesting deal snapshots: each delivery is recorded once, late and repeated ones change nothing, and
 the document verification case of a deal is opened, refreshed or cancelled by what arrives.
 */
module DealIngestion {
  import opened Outcomes

  datatype CaseStatus =
    | Open | InProgress | PendingInformation | Verified
    | Closed | Completed | Cancelled
    | OtherStatus(name: string)

  predicate IsOpen(status: CaseStatus) {
    status == Open || status == InProgress || status == PendingInformation || status == Verified
  }

  /** The statuses after which a new case may be opened for the deal. */
  predicate IsOver(status: CaseStatus) {
    status == Closed || status == Completed || status == Cancelled
  }

  /** A case linked to the deal, with the hash of the snapshot its link carries. */
  datatype DealCase = DealCase(status: CaseStatus, hash: string)

  datatype Record = Record(hash: string, timestamp: int)

  /** What is stored about one deal; its cases in the order they were created. */
  datatype Deal = Deal(record: Option<Record>, cases: seq<DealCase>)

  datatype DealStatus = DocumentVerification | Declined | DealClosed | OtherDealStatus(name: string)

  /**
   A request to ingest a snapshot. `key` is empty when no idempotency key was sent, `valid` says whether
   the request passes validation, `locked` whether the deal's lock was free, `material` whether the
   snapshot differs materially from the stored one.
   */
  datatype Delivery = Delivery(deal: string, hash: string, timestamp: int, status: DealStatus, material: bool,
                               key: string, valid: bool, locked: bool, now: int)

  datatype Outcome = FirstIngestion | IdempotentNoOp | Updated | Exceptional

  datatype CaseAction =
    | NoAction | CaseCreated | ClosedCaseRecreated | DealChangeFlagged | SnapshotRefreshed | CancelledDueToStatus

  datatype Response = Response(deal: string, hash: string, outcome: Outcome, action: CaseAction,
      caseIndex: Option<nat>, late: bool)

  datatype Reply = Accepted(response: Response) | Problem(code: int)

  datatype Cached = Cached(response: Response, expires: int)

  datatype Store = Store(deals: map<string, Deal>, cache: map<string, Cached>, history: seq<Response>)

  const DAY := 24 * 3600

  function DealOf(s: Store, deal: string): Deal {
    if deal in s.deals then s.deals[deal] else Deal(None, [])
  }

  /** The open ones among the first `n` cases, newest first. */
  function OpenCases(cases: seq<DealCase>, n: nat): (r: seq<nat>)
    requires n <= |cases|
    ensures forall j | 0 <= j < |r| :: r[j] < n && IsOpen(cases[r[j]].status)
  {
    if n == 0 then [] else (if IsOpen(cases[n - 1].status) then [n - 1] else []) + OpenCases(cases, n - 1)
  }

  function Refresh(cases: seq<DealCase>, i: nat, hash: string): seq<DealCase>
    requires i < |cases|
  {
    cases[i := cases[i].(hash := hash)]
  }

  /** What the case action did: the cases, the action, the case it names, and whether it is an exception. */
  datatype Effect = Effect(cases: seq<DealCase>, action: CaseAction, caseIndex: Option<nat>, exception: bool)

  function OpenedCase(cases: seq<DealCase>, hash: string, action: CaseAction): Effect {
    Effect(cases + [DealCase(Open, hash)], action, Some(|cases|), false)
  }

  /** With no open case, the newest case decides whether another one is opened. */
  function OpenAnother(cases: seq<DealCase>, hash: string): Effect {
    if cases == [] then OpenedCase(cases, hash, CaseCreated)
    else
      var latest := cases[|cases| - 1].status;
      if latest == Closed || latest == Completed then OpenedCase(cases, hash, ClosedCaseRecreated)
      else if latest == Cancelled then OpenedCase(cases, hash, CaseCreated)
      else Effect(cases, NoAction, None, true)
  }

  /** The case action, given the open case of the deal if it has one. */
  function CaseActionFor(cases: seq<DealCase>, open: Option<nat>, d: Delivery, outcome: Outcome): Effect
    requires open.Some? ==> open.value < |cases|
  {
    match open
    case None =>
      if d.status == DocumentVerification then OpenAnother(cases, d.hash) else Effect(cases, NoAction, None, false)
    case Some(i) =>
      if d.status == DocumentVerification then
        if outcome == Updated then
          Effect(Refresh(cases, i, d.hash), if d.material then DealChangeFlagged else SnapshotRefreshed, open, false)
        else Effect(cases, NoAction, open, false)
      else if d.status == Declined || d.status == DealClosed then
        Effect(cases[i := cases[i].(status := Cancelled)], CancelledDueToStatus, open, false)
      else Effect(Refresh(cases, i, d.hash), SnapshotRefreshed, open, false)
  }

  /** Fails when more than one case of the deal is open. */
  function ApplyCaseAction(cases: seq<DealCase>, d: Delivery, outcome: Outcome): Result<Effect> {
    var open := OpenCases(cases, |cases|);
    if |open| > 1 then Err("multiple open cases exist for deal")
    else Ok(CaseActionFor(cases, if open == [] then None else Some(open[0]), d, outcome))
  }

  /** Writes the history row and the cached response of an accepted delivery. */
  function Finish(s: Store, d: Delivery, deal: Deal, response: Response): (Store, Reply) {
    var cache := if d.key == "" then s.cache else s.cache[d.key := Cached(response, d.now + DAY)];
    (Store(s.deals[d.deal := deal], cache, s.history + [response]), Accepted(response))
  }

  function ActOn(s: Store, d: Delivery, record: Record, outcome: Outcome): (r: (Store, Reply))
    ensures r.0 == s || (d.deal in r.0.deals && r.0.deals[d.deal].record == Some(record)
                         && r.0.deals == s.deals[d.deal := r.0.deals[d.deal]])
  {
    match ApplyCaseAction(DealOf(s, d.deal).cases, d, outcome)
    case Err(_) => (s, Problem(500))
    case Ok(e) =>
      var response :=
        if e.exception then Response(d.deal, d.hash, Exceptional, NoAction, e.caseIndex, false)
        else Response(d.deal, d.hash, outcome, e.action, e.caseIndex, false);
      Finish(s, d, Deal(Some(record), e.cases), response)
  }

  function Cacheable(s: Store, d: Delivery): Option<Response> {
    if d.key != "" && d.key in s.cache && s.cache[d.key].expires > d.now then Some(s.cache[d.key].response) else None
  }

  function Ingest(s: Store, d: Delivery): (Store, Reply) {
    var cached := Cacheable(s, d);
    if cached.Some? then (s, Accepted(cached.value))
    else if !d.valid then (s, Problem(422))
    else if !d.locked then (s, Problem(409))
    else
      var deal := DealOf(s, d.deal);
      match deal.record
      case None => ActOn(s, d, Record(d.hash, d.timestamp), FirstIngestion)
      case Some(record) =>
        if record.hash == d.hash then
          Finish(s, d, deal, Response(d.deal, d.hash, IdempotentNoOp, NoAction, None, false))
        else if d.timestamp < record.timestamp then
          Finish(s, d, deal, Response(d.deal, d.hash, IdempotentNoOp, NoAction, None, true))
        else ActOn(s, d, Record(d.hash, d.timestamp), Updated)
  }

  /** A delivery, or a step of the case lifecycle that sets the status of a linked case. */
  datatype Step = Deliver(d: Delivery) | Transition(deal: string, i: nat, status: CaseStatus)

  function SetCaseStatus(s: Store, deal: string, i: nat, status: CaseStatus): Store {
    if deal in s.deals && i < |s.deals[deal].cases| then
      var row := s.deals[deal];
      s.(deals := s.deals[deal := row.(cases := row.cases[i := row.cases[i].(status := status)])])
    else s
  }

  function Apply(s: Store, step: Step): Store {
    match step
    case Deliver(d) => Ingest(s, d).0
    case Transition(deal, i, status) => SetCaseStatus(s, deal, i, status)
  }

  function Run(s: Store, steps: seq<Step>): Store {
    if steps == [] then s else Apply(Run(s, steps[..|steps| - 1]), steps[|steps| - 1])
  }

  const EMPTY := Store(map[], map[], [])

  // -------------------------------------------------------------------------------------------
  // At most one open case
  // -------------------------------------------------------------------------------------------

  /** A lifecycle step that does not take a case out of CLOSED, COMPLETED or CANCELLED. */
  predicate Respectful(s: Store, step: Step) {
    step.Transition? && step.deal in s.deals && step.i < |s.deals[step.deal].cases| ==>
      IsOver(s.deals[step.deal].cases[step.i].status) ==> IsOver(step.status)
  }

  ghost predicate RespectfulRun(s: Store, steps: seq<Step>) {
    forall k | 0 <= k < |steps| :: Respectful(Run(s, steps[..k]), steps[k])
  }

  ghost predicate OlderOver(cases: seq<DealCase>) {
    forall i | 0 <= i < |cases| - 1 :: IsOver(cases[i].status)
  }

  ghost predicate AllOlderOver(s: Store) {
    forall deal | deal in s.deals :: OlderOver(s.deals[deal].cases)
  }

  /** The newest case, when it is open. */
  function NewestOpen(cases: seq<DealCase>): Option<nat> {
    if cases != [] && IsOpen(cases[|cases| - 1].status) then Some(|cases| - 1) else None
  }

  /** Only the newest case can be open, so there is at most one. */
  lemma {:induction false} OpenIsNewest(cases: seq<DealCase>, n: nat)
    requires OlderOver(cases) && n <= |cases|
    ensures OpenCases(cases, n) == if 0 < n == |cases| && IsOpen(cases[n - 1].status) then [n - 1] else []
  {
    if n > 0 { OpenIsNewest(cases, n - 1); }
  }

  lemma ActsOnNewest(cases: seq<DealCase>, d: Delivery, outcome: Outcome)
    requires OlderOver(cases)
    ensures ApplyCaseAction(cases, d, outcome) == Ok(CaseActionFor(cases, NewestOpen(cases), d, outcome))
  {
    OpenIsNewest(cases, |cases|);
  }

  lemma ActionKeepsOlderOver(cases: seq<DealCase>, d: Delivery, outcome: Outcome)
    requires OlderOver(cases)
    ensures OlderOver(CaseActionFor(cases, NewestOpen(cases), d, outcome).cases)
  {
  }

  lemma IngestKeepsOlderOver(s: Store, d: Delivery)
    requires AllOlderOver(s)
    ensures AllOlderOver(Ingest(s, d).0) && Ingest(s, d).1 != Problem(500)
  {
    var cases := DealOf(s, d.deal).cases;
    ActsOnNewest(cases, d, FirstIngestion);
    ActsOnNewest(cases, d, Updated);
    ActionKeepsOlderOver(cases, d, FirstIngestion);
    ActionKeepsOlderOver(cases, d, Updated);
  }

  lemma RespectfulPrefix(s: Store, steps: seq<Step>)
    requires steps != [] && RespectfulRun(s, steps)
    ensures var n := |steps| - 1; Respectful(Run(s, steps[..n]), steps[n]) && RespectfulRun(s, steps[..n])
  {
    var n := |steps| - 1;
    forall k | 0 <= k < n
      ensures Respectful(Run(s, steps[..n][..k]), steps[..n][k])
    {
      assert steps[..n][..k] == steps[..k];
      assert Respectful(Run(s, steps[..k]), steps[k]);
    }
  }

  lemma {:induction false} OlderCasesOver(steps: seq<Step>)
    requires RespectfulRun(EMPTY, steps)
    ensures AllOlderOver(Run(EMPTY, steps))
    decreases |steps|
  {
    if steps != [] {
      var n := |steps| - 1;
      RespectfulPrefix(EMPTY, steps);
      OlderCasesOver(steps[..n]);
      if steps[n].Deliver? {
        IngestKeepsOlderOver(Run(EMPTY, steps[..n]), steps[n].d);
      }
    }
  }

  /**
   After every run of deliveries and respectful lifecycle steps, all cases of a deal but the newest are
   over, at most one is open, and no delivery is answered with the duplicate-open-cases error.
   */
  lemma AtMostOneOpen(steps: seq<Step>, deal: string, d: Delivery)
    requires RespectfulRun(EMPTY, steps)
    ensures var s := Run(EMPTY, steps);
            && OlderOver(DealOf(s, deal).cases)
            && |OpenCases(DealOf(s, deal).cases, |DealOf(s, deal).cases|)| <= 1
            && Ingest(s, d).1 != Problem(500)
  {
    var s := Run(EMPTY, steps);
    OlderCasesOver(steps);
    OpenIsNewest(DealOf(s, deal).cases, |DealOf(s, deal).cases|);
    IngestKeepsOlderOver(s, d);
  }

  lemma {:induction false} TwoOpen(cases: seq<DealCase>, i: nat, j: nat, n: nat)
    requires i < j < n <= |cases| && IsOpen(cases[i].status) && IsOpen(cases[j].status)
    ensures |OpenCases(cases, n)| >= 2
  {
    if j == n - 1 {
      OneOpen(cases, i, n - 1);
    } else {
      TwoOpen(cases, i, j, n - 1);
    }
  }

  lemma {:induction false} OneOpen(cases: seq<DealCase>, i: nat, n: nat)
    requires i < n <= |cases| && IsOpen(cases[i].status)
    ensures |OpenCases(cases, n)| >= 1
  {
    if i < n - 1 { OneOpen(cases, i, n - 1); }
  }

  /** A valid request for the deal that is not answered from the cache. */
  predicate Plain(d: Delivery, deal: string, status: DealStatus) {
    d.deal == deal && d.status == status && d.key == "" && d.valid && d.locked
  }

  /** The condition is needed: when a case is reopened after its successor was created, deliveries fail. */
  lemma ReopenedCaseBlocks(deal: string, a: Delivery, b: Delivery, c: Delivery)
    requires Plain(a, deal, DocumentVerification) && Plain(b, deal, DocumentVerification) && Plain(c, deal, c.status)
    requires a.hash != b.hash && b.hash != c.hash && a.timestamp <= b.timestamp <= c.timestamp
    ensures var s := Apply(Apply(EMPTY, Deliver(a)), Transition(deal, 0, Closed));
            var t := Apply(Apply(s, Deliver(b)), Transition(deal, 0, Open));
            Ingest(t, c).1 == Problem(500)
  {
    var s := Apply(Apply(EMPTY, Deliver(a)), Transition(deal, 0, Closed));
    assert DealOf(s, deal) == Deal(Some(Record(a.hash, a.timestamp)), [DealCase(Closed, a.hash)]);
    var u := Apply(s, Deliver(b));
    assert DealOf(u, deal)
        == Deal(Some(Record(b.hash, b.timestamp)), [DealCase(Closed, a.hash), DealCase(Open, b.hash)]) by {
      ActsOnNewest([DealCase(Closed, a.hash)], b, Updated);
    }
    var cases := [DealCase(Open, a.hash), DealCase(Open, b.hash)];
    assert DealOf(Apply(u, Transition(deal, 0, Open)), deal) == Deal(Some(Record(b.hash, b.timestamp)), cases);
    TwoOpen(cases, 0, 1, 2);
  }

  // -------------------------------------------------------------------------------------------
  // Late and repeated deliveries
  // -------------------------------------------------------------------------------------------

  /** The delivery brings the stored snapshot of its deal, or an older one. */
  predicate Stale(s: Store, d: Delivery) {
    && d.deal in s.deals && s.deals[d.deal].record.Some?
    && (d.hash == s.deals[d.deal].record.value.hash || d.timestamp < s.deals[d.deal].record.value.timestamp)
  }

  lemma StaleChangesNothing(s: Store, d: Delivery)
    requires Stale(s, d)
    ensures Ingest(s, d).0.deals == s.deals
  {
  }

  /**
   Any number of deliveries that are late or repeated when the first of them arrives, in any order and
   for any deals, change no record and no case.
   */
  lemma {:induction false} LateOrRepeatedChangesNothing(s: Store, steps: seq<Step>)
    requires forall k | 0 <= k < |steps| :: steps[k].Deliver? && Stale(s, steps[k].d)
    ensures Run(s, steps).deals == s.deals
    decreases |steps|
  {
    if steps != [] {
      var n := |steps| - 1;
      LateOrRepeatedChangesNothing(s, steps[..n]);
      assert Stale(s, steps[n].d);
      StaleChangesNothing(Run(s, steps[..n]), steps[n].d);
    }
  }

  /** The stored timestamp of a deal can only grow. */
  ghost predicate NotOlder(s: Store, t: Store) {
    forall deal | deal in s.deals && s.deals[deal].record.Some? ::
      && deal in t.deals && t.deals[deal].record.Some?
      && s.deals[deal].record.value.timestamp <= t.deals[deal].record.value.timestamp
  }

  lemma {:induction false} TimestampsGrow(s: Store, steps: seq<Step>)
    ensures NotOlder(s, Run(s, steps))
    decreases |steps|
  {
    if steps != [] {
      TimestampsGrow(s, steps[..|steps| - 1]);
      StepNotOlder(Run(s, steps[..|steps| - 1]), steps[|steps| - 1]);
    }
  }

  lemma IngestNotOlder(s: Store, d: Delivery)
    ensures NotOlder(s, Ingest(s, d).0)
  {
    var cached := Cacheable(s, d);
    var record := DealOf(s, d.deal).record;
    if cached.None? && d.valid && d.locked && record.Some? && record.value.hash != d.hash
        && record.value.timestamp <= d.timestamp {
      assert Ingest(s, d) == ActOn(s, d, Record(d.hash, d.timestamp), Updated);
    }
  }

  lemma StepNotOlder(s: Store, step: Step)
    ensures NotOlder(s, Apply(s, step))
  {
    if step.Deliver? { IngestNotOlder(s, step.d); }
  }

  // -------------------------------------------------------------------------------------------
  // The open case carries the stored snapshot
  // -------------------------------------------------------------------------------------------

  /** Case `i` of the deal exists, is open, and carries the hash of the stored record. */
  predicate Current(deal: Deal, i: nat) {
    i < |deal.cases| && IsOpen(deal.cases[i].status) && deal.record.Some?
        && deal.cases[i].hash == deal.record.value.hash
  }

  ghost predicate HasRecord(s: Store) {
    forall deal | deal in s.deals && s.deals[deal].cases != [] :: s.deals[deal].record.Some?
  }

  /** A case that is new, or was current before, is current after every step that leaves it open. */
  lemma StepKeepsCurrent(s: Store, step: Step, deal: string, i: nat)
    requires AllOlderOver(s) && HasRecord(s)
    requires i < |DealOf(s, deal).cases| ==> Current(DealOf(s, deal), i)
    requires i < |DealOf(Apply(s, step), deal).cases| && IsOpen(DealOf(Apply(s, step), deal).cases[i].status)
    ensures Current(DealOf(Apply(s, step), deal), i)
  {
    if step.Deliver? {
      DeliverKeepsCurrent(s, step.d, deal, i);
    }
  }

  lemma ActionKeepsCurrent(cases: seq<DealCase>, d: Delivery, outcome: Outcome, i: nat)
    requires OlderOver(cases) && i < |CaseActionFor(cases, NewestOpen(cases), d, outcome).cases|
    requires IsOpen(CaseActionFor(cases, NewestOpen(cases), d, outcome).cases[i].status)
    requires outcome == FirstIngestion ==> cases == []
    requires outcome == FirstIngestion || outcome == Updated
    ensures CaseActionFor(cases, NewestOpen(cases), d, outcome).cases[i].hash == d.hash
  {
  }

  lemma DeliverKeepsCurrent(s: Store, d: Delivery, deal: string, i: nat)
    requires AllOlderOver(s) && HasRecord(s)
    requires i < |DealOf(s, deal).cases| ==> Current(DealOf(s, deal), i)
    requires var t := Ingest(s, d).0; i < |DealOf(t, deal).cases| && IsOpen(DealOf(t, deal).cases[i].status)
    ensures Current(DealOf(Ingest(s, d).0, deal), i)
  {
    var before := DealOf(s, d.deal);
    var after := DealOf(Ingest(s, d).0, d.deal);
    if d.deal == deal && after != before {
      var outcome := if before.record.None? then FirstIngestion else Updated;
      ActsOnNewest(before.cases, d, outcome);
      assert after.record == Some(Record(d.hash, d.timestamp));
      assert after.cases == CaseActionFor(before.cases, NewestOpen(before.cases), d, outcome).cases;
      ActionKeepsCurrent(before.cases, d, outcome, i);
    }
  }

  /** In no state of the run is case `i` of the deal there and not open. */
  ghost predicate OpenThroughout(steps: seq<Step>, deal: string, i: nat) {
    forall k | 0 <= k <= |steps| ::
      var cases := DealOf(Run(EMPTY, steps[..k]), deal).cases; i < |cases| ==> IsOpen(cases[i].status)
  }

  lemma OpenPrefix(steps: seq<Step>, deal: string, i: nat)
    requires steps != [] && OpenThroughout(steps, deal, i)
    ensures OpenThroughout(steps[..|steps| - 1], deal, i)
    ensures var cases := DealOf(Run(EMPTY, steps), deal).cases; i < |cases| ==> IsOpen(cases[i].status)
  {
    var n := |steps| - 1;
    forall k | 0 <= k <= n
      ensures var cases := DealOf(Run(EMPTY, steps[..n][..k]), deal).cases; i < |cases| ==> IsOpen(cases[i].status)
    {
      assert steps[..n][..k] == steps[..k];
    }
    assert steps[..|steps|] == steps;
  }

  lemma StepHasRecord(s: Store, step: Step)
    requires HasRecord(s)
    ensures HasRecord(Apply(s, step))
  {
  }

  lemma {:induction false} RunHasRecord(steps: seq<Step>)
    ensures HasRecord(Run(EMPTY, steps))
    decreases |steps|
  {
    if steps != [] {
      RunHasRecord(steps[..|steps| - 1]);
      StepHasRecord(Run(EMPTY, steps[..|steps| - 1]), steps[|steps| - 1]);
    }
  }

  /** A case that has stayed open since it was created carries the hash of the stored snapshot. */
  lemma {:induction false} OpenCaseCarriesSnapshot(steps: seq<Step>, deal: string, i: nat)
    requires RespectfulRun(EMPTY, steps) && OpenThroughout(steps, deal, i)
    requires i < |DealOf(Run(EMPTY, steps), deal).cases|
    ensures Current(DealOf(Run(EMPTY, steps), deal), i)
    decreases |steps|
  {
    if steps != [] {
      var n := |steps| - 1;
      var before := Run(EMPTY, steps[..n]);
      RespectfulPrefix(EMPTY, steps);
      OpenPrefix(steps, deal, i);
      OlderCasesOver(steps[..n]);
      RunHasRecord(steps[..n]);
      if i < |DealOf(before, deal).cases| {
        OpenCaseCarriesSnapshot(steps[..n], deal, i);
      }
      StepKeepsCurrent(before, steps[n], deal, i);
    }
  }

  // -------------------------------------------------------------------------------------------
  // Idempotency keys
  // -------------------------------------------------------------------------------------------

  ghost predicate AnsweredBefore(steps: seq<Step>, time: int) {
    forall k | 0 <= k < |steps| :: steps[k].Deliver? ==> steps[k].d.now < time
  }

  /** Until it expires, the answer cached for a key stays as it is, whatever else arrives. */
  lemma {:induction false} CachedAnswerStays(s: Store, steps: seq<Step>, key: string)
    requires key in s.cache && key != "" && AnsweredBefore(steps, s.cache[key].expires)
    ensures key in Run(s, steps).cache && Run(s, steps).cache[key] == s.cache[key]
    decreases |steps|
  {
    if steps != [] {
      var n := |steps| - 1;
      CachedAnswerStays(s, steps[..n], key);
      assert steps[n].Deliver? ==> steps[n].d.now < s.cache[key].expires;
      StepKeepsCached(Run(s, steps[..n]), steps[n], key);
    }
  }

  lemma StepKeepsCached(s: Store, step: Step, key: string)
    requires key in s.cache && key != "" && (step.Deliver? ==> step.d.now < s.cache[key].expires)
    ensures key in Apply(s, step).cache && Apply(s, step).cache[key] == s.cache[key]
  {
  }

  /**
   For a day after an accepted delivery, every delivery with its key gets the same answer and changes
   nothing, whatever happened in between and whatever it contains.
   */
  lemma SameKeySameAnswer(s: Store, first: Delivery, steps: seq<Step>, again: Delivery)
    requires first.key != "" && again.key == first.key
    requires Ingest(s, first).1.Accepted? && Cacheable(s, first).None?
    requires AnsweredBefore(steps + [Deliver(again)], first.now + DAY)
    ensures Ingest(Run(Ingest(s, first).0, steps), again) == (Run(Ingest(s, first).0, steps), Ingest(s, first).1)
  {
    var t := Ingest(s, first).0;
    assert first.key in t.cache && Accepted(t.cache[first.key].response) == Ingest(s, first).1;
    assert t.cache[first.key].expires == first.now + DAY;
    assert forall k | 0 <= k < |steps| :: (steps + [Deliver(again)])[k] == steps[k];
    assert (steps + [Deliver(again)])[|steps|] == Deliver(again);
    CachedAnswerStays(t, steps, first.key);
  }

  // -------------------------------------------------------------------------------------------
  // The code's own form
  // -------------------------------------------------------------------------------------------

  class IngestionService {
    var deals: map<string, Deal>
    var cache: map<string, Cached>
    var history: seq<Response>

    function State(): Store
      reads this
    {
      Store(deals, cache, history)
    }

    method GetOpenCases(deal: string) returns (open: seq<nat>)
      ensures open == OpenCases(DealOf(State(), deal).cases, |DealOf(State(), deal).cases|)
    {
      open := [];
      var cases := if deal in deals then deals[deal].cases else [];
      for i := 0 to |cases|
        invariant open == OpenCases(cases, i)
      {
        if IsOpen(cases[i].status) {
          open := [i] + open;
        }
      }
    }

    method SetCases(deal: string, cases: seq<DealCase>)
      requires deal in deals
      modifies this`deals
      ensures deals == old(deals)[deal := old(deals)[deal].(cases := cases)]
    {
      deals := deals[deal := deals[deal].(cases := cases)];
    }

    /** Opens, refreshes or cancels a case; answers with the action, the case and whether it is an exception. */
    method DetermineAndApplyCaseAction(d: Delivery, outcome: Outcome)
        returns (r: Result<(CaseAction, Option<nat>, bool)>)
      requires d.deal in deals
      modifies this`deals
      ensures match ApplyCaseAction(old(deals)[d.deal].cases, d, outcome)
              case Ok(e) =>
                && deals == old(deals)[d.deal := old(deals)[d.deal].(cases := e.cases)]
                && r == Ok((e.action, e.caseIndex, e.exception))
              case Err(_) => deals == old(deals) && r.Err?
    {
      var open := GetOpenCases(d.deal);
      var cases := deals[d.deal].cases;
      if |open| > 1 {
        return Err("multiple open cases exist for deal");
      }
      if open == [] {
        r := OpenCaseIfDue(d);
        return;
      }
      var i := open[0];
      if d.status == DocumentVerification && outcome != Updated {
        SetCases(d.deal, cases);
        return Ok((NoAction, Some(i), false));
      }
      if d.status == Declined || d.status == DealClosed {
        SetCases(d.deal, cases[i := cases[i].(status := Cancelled)]);
        return Ok((CancelledDueToStatus, Some(i), false));
      }
      SetCases(d.deal, cases[i := cases[i].(hash := d.hash)]);
      if d.status == DocumentVerification && d.material {
        return Ok((DealChangeFlagged, Some(i), false));
      }
      return Ok((SnapshotRefreshed, Some(i), false));
    }

    method OpenCaseIfDue(d: Delivery) returns (r: Result<(CaseAction, Option<nat>, bool)>)
      requires d.deal in deals
      modifies this`deals
      ensures var e := CaseActionFor(old(deals)[d.deal].cases, None, d, Updated);
              && deals == old(deals)[d.deal := old(deals)[d.deal].(cases := e.cases)]
              && r == Ok((e.action, e.caseIndex, e.exception))
    {
      var cases := deals[d.deal].cases;
      if d.status != DocumentVerification {
        SetCases(d.deal, cases);
        return Ok((NoAction, None, false));
      }
      if cases != [] && !IsOver(cases[|cases| - 1].status) {
        SetCases(d.deal, cases);
        return Ok((NoAction, None, true));
      }
      SetCases(d.deal, cases + [DealCase(Open, d.hash)]);
      var created := cases == [] || cases[|cases| - 1].status == Cancelled;
      return Ok((if created then CaseCreated else ClosedCaseRecreated, Some(|cases|), false));
    }

    method Answer(d: Delivery, response: Response)
      modifies this`cache, this`history
      ensures history == old(history) + [response]
      ensures cache == if d.key == "" then old(cache) else old(cache)[d.key := Cached(response, d.now + DAY)]
    {
      history := history + [response];
      if d.key != "" {
        cache := cache[d.key := Cached(response, d.now + DAY)];
      }
    }

    method IngestDeal(d: Delivery) returns (reply: Reply)
      modifies this
      ensures (State(), reply) == Ingest(old(State()), d)
    {
      if d.key != "" && d.key in cache && cache[d.key].expires > d.now {
        return Accepted(cache[d.key].response);
      }
      if !d.valid {
        return Problem(422);
      }
      if !d.locked {
        return Problem(409);
      }
      var existing := if d.deal in deals then deals[d.deal].record else None;
      if existing.Some? && (existing.value.hash == d.hash || d.timestamp < existing.value.timestamp) {
        var noOp := Response(d.deal, d.hash, IdempotentNoOp, NoAction, None, existing.value.hash != d.hash);
        Answer(d, noOp);
        assert deals == old(deals)[d.deal := DealOf(old(State()), d.deal)];
        return Accepted(noOp);
      }
      var outcome := if existing.Some? then Updated else FirstIngestion;
      var before := deals;
      var cases := if d.deal in deals then deals[d.deal].cases else [];
      deals := deals[d.deal := Deal(Some(Record(d.hash, d.timestamp)), cases)];
      ghost var effect := ApplyCaseAction(deals[d.deal].cases, d, outcome);
      var action := DetermineAndApplyCaseAction(d, outcome);
      if action.Err? {
        deals := before;
        return Problem(500);
      }
      assert deals == before[d.deal := Deal(Some(Record(d.hash, d.timestamp)), effect.value.cases)];
      var response := Response(d.deal, d.hash, outcome, action.value.0, action.value.1, false);
      if action.value.2 {
        response := response.(outcome := Exceptional, action := NoAction);
      }
      Answer(d, response);
      return Accepted(response);
    }
  }
}
