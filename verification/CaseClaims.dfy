/**
 Operators taking cases from the pool: a case is selected, then claimed by an update that only succeeds
 if it is still free; it goes back to the pool when released. Any number of operators interleave.
 */
module CaseClaims {
  import opened Outcomes

  datatype CaseStatus = Open | Allocatable | InProgress | Suspended | Completed | Cancelled | Rejected | Cloned

  datatype CaseRow = CaseRow(status: CaseStatus, holder: Option<string>)

  /** The CLAIMED audit rows and the CASE_RELEASED events. */
  datatype Entry = ClaimedRow(c: nat, user: string) | ReleasedEvent(c: nat, user: string)

  /** `selected` is the case each operator's query returned, which may be gone by the time they claim it. */
  datatype Pool = Pool(cases: map<nat, CaseRow>, selected: map<string, nat>, log: seq<Entry>)

  predicate LifecycleAllows(from: CaseStatus, to: CaseStatus) {
    match from
    case Open => to == InProgress || to == Cancelled || to == Suspended
    case InProgress => to == Completed || to == Cancelled || to == Suspended || to == Allocatable
    case Suspended => to == InProgress || to == Cancelled
    case Cloned => to == Open || to == InProgress
    case _ => false
  }

  predicate Free(row: CaseRow) {
    row.status == Allocatable && row.holder.None?
  }

  function SelectCase(s: Pool, user: string, c: nat): Result<Pool> {
    if c !in s.cases || !Free(s.cases[c]) then Err("no eligible cases")
    else Ok(s.(selected := s.selected[user := c]))
  }

  function ClaimCase(s: Pool, user: string): Result<Pool> {
    if user !in s.selected then Err("nothing selected")
    else
      var c := s.selected[user];
      if c !in s.cases || !Free(s.cases[c]) then Err("case already claimed")
      else Ok(Pool(s.cases[c := CaseRow(InProgress, Some(user))], s.selected - {user}, s.log + [ClaimedRow(c, user)]))
  }

  /** Any user may release a case in progress; who holds it is not compared. */
  function ReleaseCase(s: Pool, user: string, c: nat): Result<Pool> {
    if c !in s.cases then Err("case not found")
    else if !LifecycleAllows(s.cases[c].status, Allocatable) then Err("invalid state transition")
    else Ok(s.(cases := s.cases[c := CaseRow(Allocatable, None)], log := s.log + [ReleasedEvent(c, user)]))
  }

  /** The other lifecycle steps change the status and keep the assignment. */
  function MoveCase(s: Pool, c: nat, to: CaseStatus): Result<Pool> {
    if c !in s.cases then Err("case not found")
    else if to == Allocatable || !LifecycleAllows(s.cases[c].status, to) then Err("invalid state transition")
    else Ok(s.(cases := s.cases[c := s.cases[c].(status := to)]))
  }

  datatype Step =
    | Select(user: string, c: nat) | Claim(user: string) | Release(user: string, c: nat) | Move(c: nat, to: CaseStatus)
    | Offer(c: nat)

  /** `Offer` puts a new case, nobody's yet, into the pool. */
  function Attempt(s: Pool, step: Step): Result<Pool> {
    match step
    case Select(user, c) => SelectCase(s, user, c)
    case Claim(user) => ClaimCase(s, user)
    case Release(user, c) => ReleaseCase(s, user, c)
    case Move(c, to) => MoveCase(s, c, to)
    case Offer(c) => if c in s.cases then Err("exists") else Ok(s.(cases := s.cases[c := CaseRow(Allocatable, None)]))
  }

  function Apply(s: Pool, step: Step): Pool {
    var r := Attempt(s, step);
    if r.Ok? then r.value else s
  }

  function Run(s: Pool, steps: seq<Step>): Pool {
    if steps == [] then s else Apply(Run(s, steps[..|steps| - 1]), steps[|steps| - 1])
  }

  /** Nothing has been claimed or released yet. */
  predicate Fresh(s: Pool) {
    s.log == [] && forall c | c in s.cases :: s.cases[c].holder.None?
  }

  // -------------------------------------------------------------------------------------------
  // Who holds a case
  // -------------------------------------------------------------------------------------------

  /** What the first `n` entries say: the last claim of the case, unless it was released since. */
  function HolderBy(log: seq<Entry>, n: nat, c: nat): Option<string>
    requires n <= |log|
  {
    if n == 0 then None
    else if log[n - 1].c != c then HolderBy(log, n - 1, c)
    else if log[n - 1].ClaimedRow? then Some(log[n - 1].user)
    else None
  }

  lemma {:induction false} HolderSame(log: seq<Entry>, more: seq<Entry>, n: nat, c: nat)
    requires n <= |log| && log <= more
    ensures HolderBy(log, n, c) == HolderBy(more, n, c)
  {
    if n > 0 { HolderSame(log, more, n - 1, c); }
  }

  function HolderOf(s: Pool, c: nat): Option<string> {
    if c in s.cases then s.cases[c].holder else None
  }

  /** The stored holder is the one the log tells, for every case. */
  ghost predicate HeldAsLogged(s: Pool) {
    forall c :: HolderOf(s, c) == HolderBy(s.log, |s.log|, c)
  }

  lemma StepHeld(s: Pool, step: Step)
    requires HeldAsLogged(s)
    ensures HeldAsLogged(Apply(s, step))
  {
    var t := Apply(s, step);
    forall c
      ensures HolderOf(t, c) == HolderBy(t.log, |t.log|, c)
    {
      assert HolderOf(s, c) == HolderBy(s.log, |s.log|, c);
      HolderSame(s.log, t.log, |s.log|, c);
    }
  }

  /** The stored assignment is the last word of the log on the case, over every run. */
  lemma {:induction false} RunHeld(s: Pool, steps: seq<Step>)
    requires Fresh(s)
    ensures HeldAsLogged(Run(s, steps))
    decreases |steps|
  {
    if steps != [] {
      RunHeld(s, steps[..|steps| - 1]);
      StepHeld(Run(s, steps[..|steps| - 1]), steps[|steps| - 1]);
    }
  }

  ghost predicate ReleasedBetween(log: seq<Entry>, i: nat, j: nat, c: nat) {
    exists k | i < k < j && k < |log| :: log[k].ReleasedEvent? && log[k].c == c
  }

  /** No case is claimed a second time without having been released since the first. */
  ghost predicate Exclusive(log: seq<Entry>) {
    forall i, j | 0 <= i < j < |log| && log[i].ClaimedRow? && log[j].ClaimedRow? && log[i].c == log[j].c ::
      ReleasedBetween(log, i, j, log[i].c)
  }

  /** A claim that is not the last word any more was followed by a release. */
  lemma {:induction false} NoLongerHeld(log: seq<Entry>, n: nat, c: nat, i: nat)
    requires i < n <= |log| && log[i].ClaimedRow? && log[i].c == c && HolderBy(log, n, c).None?
    ensures ReleasedBetween(log, i, n, c)
    decreases n
  {
    if log[n - 1].c != c {
      NoLongerHeld(log, n - 1, c, i);
      var k :| i < k < n - 1 && k < |log| && log[k].ReleasedEvent? && log[k].c == c;
    } else {
      assert log[n - 1].ReleasedEvent?;
    }
  }

  lemma BetweenStays(log: seq<Entry>, more: seq<Entry>, i: nat, j: nat, c: nat)
    requires log <= more && j <= |log| && ReleasedBetween(log, i, j, c)
    ensures ReleasedBetween(more, i, j, c)
  {
    var k :| i < k < j && k < |log| && log[k].ReleasedEvent? && log[k].c == c;
    assert more[k] == log[k];
  }

  lemma StepExclusive(s: Pool, step: Step)
    requires HeldAsLogged(s) && Exclusive(s.log)
    ensures Exclusive(Apply(s, step).log)
  {
    var log := Apply(s, step).log;
    forall i, j | 0 <= i < j < |log| && log[i].ClaimedRow? && log[j].ClaimedRow? && log[i].c == log[j].c
      ensures ReleasedBetween(log, i, j, log[i].c)
    {
      if j == |s.log| {
        assert HolderOf(s, log[j].c).None?;
        NoLongerHeld(s.log, j, log[j].c, i);
      }
      BetweenStays(s.log, log, i, j, log[i].c);
    }
  }

  /**
   Mutual exclusion, under every interleaving of any number of operators: between two claims of a case,
   whoever made them, the case was released.
   */
  lemma {:induction false} ClaimsExclusive(s: Pool, steps: seq<Step>)
    requires Fresh(s)
    ensures Exclusive(Run(s, steps).log)
    decreases |steps|
  {
    if steps != [] {
      ClaimsExclusive(s, steps[..|steps| - 1]);
      RunHeld(s, steps[..|steps| - 1]);
      StepExclusive(Run(s, steps[..|steps| - 1]), steps[|steps| - 1]);
    }
  }

  ghost predicate NotReleased(steps: seq<Step>, c: nat) {
    forall k | 0 <= k < |steps| :: steps[k].Release? ==> steps[k].c != c
  }

  lemma {:induction false} StillHeld(s: Pool, steps: seq<Step>, c: nat, user: string)
    requires HolderOf(s, c) == Some(user) && NotReleased(steps, c)
    ensures HolderOf(Run(s, steps), c) == Some(user)
    decreases |steps|
  {
    if steps != [] {
      var n := |steps| - 1;
      StillHeld(s, steps[..n], c, user);
      assert steps[n].Release? ==> steps[n].c != c;
    }
  }

  /** After a win, every claim of the case by anybody fails until it is released, whatever comes in between. */
  lemma WinnerKeepsCase(s: Pool, winner: string, steps: seq<Step>, other: string)
    requires ClaimCase(s, winner).Ok? && NotReleased(steps, s.selected[winner])
    ensures var c := s.selected[winner];
            var t := Run(Apply(s, Claim(winner)), steps);
            && HolderOf(t, c) == Some(winner)
            && (other in t.selected && t.selected[other] == c ==>
                  ClaimCase(t, other).Err? && Apply(t, Claim(other)) == t)
  {
    StillHeld(Apply(s, Claim(winner)), steps, s.selected[winner], winner);
  }

  /** A CLAIMED row is written exactly when a case goes from ALLOCATABLE to IN_PROGRESS, and names who then holds it. */
  lemma ClaimedRowIffTransition(s: Pool, step: Step, c: nat)
    requires c in s.cases
    ensures var t := Apply(s, step);
            && c in t.cases
            && ((s.cases[c].status == Allocatable && t.cases[c].status == InProgress) <==>
                (exists user :: t.log == s.log + [ClaimedRow(c, user)]))
            && (forall user | t.log == s.log + [ClaimedRow(c, user)] ::
                  s.cases[c].holder.None? && t.cases[c].holder == Some(user))
  {
    var t := Apply(s, step);
    if step.Claim? && Attempt(s, step).Ok? {
      assert t.log[|s.log|] == ClaimedRow(s.selected[step.user], step.user);
    } else if step.Release? && Attempt(s, step).Ok? {
      assert t.log[|s.log|] == ReleasedEvent(step.c, step.user);
    }
  }

  /** Only a free case can be selected, and selecting it changes nothing about it. */
  lemma SelectedIff(s: Pool, user: string, c: nat)
    ensures Attempt(s, Select(user, c)).Ok? <==> c in s.cases && Free(s.cases[c])
    ensures var t := Apply(s, Select(user, c));
            && t.cases == s.cases && t.log == s.log
            && (Attempt(s, Select(user, c)).Ok? ==> user in t.selected && t.selected[user] == c)
  {
  }

  /** A claim changes something exactly when the selected case is still free, and then the claimant holds it. */
  lemma ClaimTakenIff(s: Pool, user: string)
    ensures var t := Apply(s, Claim(user));
            && (t != s <==> user in s.selected && s.selected[user] in s.cases && Free(s.cases[s.selected[user]]))
            && (t != s ==> var c := s.selected[user];
                  && t.cases == s.cases[c := CaseRow(InProgress, Some(user))]
                  && t.log == s.log + [ClaimedRow(c, user)] && user !in t.selected)
  {
    var t := Apply(s, Claim(user));
    if Attempt(s, Claim(user)).Ok? { assert |t.log| == |s.log| + 1; }
  }

  /** A release changes something exactly when the case is in progress, whoever holds it, and then it is free. */
  lemma ReleaseTakenIff(s: Pool, user: string, c: nat)
    ensures var t := Apply(s, Release(user, c));
            && (t != s <==> c in s.cases && s.cases[c].status == InProgress)
            && (t != s ==> c in t.cases && Free(t.cases[c]) && t.cases == s.cases[c := t.cases[c]]
                           && t.log == s.log + [ReleasedEvent(c, user)] && t.selected == s.selected)
  {
    var t := Apply(s, Release(user, c));
    if Attempt(s, Release(user, c)).Ok? { assert |t.log| == |s.log| + 1; }
  }

  predicate IsOver(status: CaseStatus) {
    status == Completed || status == Cancelled || status == Rejected
  }

  /** A case that is over stays as it is, whatever is attempted. */
  lemma {:induction false} OverStays(s: Pool, steps: seq<Step>, c: nat)
    requires c in s.cases && IsOver(s.cases[c].status)
    ensures c in Run(s, steps).cases && Run(s, steps).cases[c] == s.cases[c]
    decreases |steps|
  {
    if steps != [] { OverStays(s, steps[..|steps| - 1], c); }
  }

  lemma RunNext(s: Pool, steps: seq<Step>, step: Step)
    ensures Run(s, steps + [step]) == Apply(Run(s, steps), step)
  {
    assert (steps + [step])[..|steps|] == steps;
  }

  /** The next operator gets a released case, even one who had selected another in the meantime. */
  lemma ReleasedIsClaimed(s: Pool, user: string, c: nat, next: string)
    requires c in s.cases && s.cases[c].status == InProgress
    ensures var t := Run(s, [Release(user, c), Select(next, c), Claim(next)]);
            c in t.cases && t.cases[c] == CaseRow(InProgress, Some(next))
  {
    var steps := [Release(user, c), Select(next, c), Claim(next)];
    ReleaseTakenIff(s, user, c);
    var released := Apply(s, steps[0]);
    var chosen := Apply(released, steps[1]);
    RunNext(s, [], steps[0]);
    RunNext(s, [steps[0]], steps[1]);
    RunNext(s, [steps[0], steps[1]], steps[2]);
    assert [] + [steps[0]] == [steps[0]] && [steps[0]] + [steps[1]] == [steps[0], steps[1]];
    assert [steps[0], steps[1]] + [steps[2]] == steps;
    ClaimTakenIff(chosen, next);
    assert Apply(chosen, steps[2]) != chosen;
  }

  // -------------------------------------------------------------------------------------------
  // Claims and releases
  // -------------------------------------------------------------------------------------------

  function Claims(log: seq<Entry>, n: nat, c: nat): nat
    requires n <= |log|
  {
    if n == 0 then 0 else Claims(log, n - 1, c) + if log[n - 1].ClaimedRow? && log[n - 1].c == c then 1 else 0
  }

  function Releases(log: seq<Entry>, n: nat, c: nat): nat
    requires n <= |log|
  {
    if n == 0 then 0 else Releases(log, n - 1, c) + if log[n - 1].ReleasedEvent? && log[n - 1].c == c then 1 else 0
  }

  /** A release of a case in progress that nobody has claimed. */
  predicate Idle(s: Pool, step: Step, c: nat) {
    step.Release? && step.c == c && ReleaseCase(s, step.user, c).Ok? && s.cases[c].holder.None?
  }

  function IdleReleases(s: Pool, steps: seq<Step>, c: nat): nat {
    if steps == [] then 0
    else
      var n := |steps| - 1;
      IdleReleases(s, steps[..n], c) + if Idle(Run(s, steps[..n]), steps[n], c) then 1 else 0
  }

  lemma {:induction false} CountsSame(log: seq<Entry>, more: seq<Entry>, n: nat, c: nat)
    requires n <= |log| && log <= more
    ensures Claims(log, n, c) == Claims(more, n, c) && Releases(log, n, c) == Releases(more, n, c)
  {
    if n > 0 { CountsSame(log, more, n - 1, c); }
  }

  function Held(s: Pool, c: nat): nat {
    if HolderOf(s, c).Some? then 1 else 0
  }

  lemma StepCounts(s: Pool, step: Step, c: nat)
    ensures var t := Apply(s, step);
            Claims(t.log, |t.log|, c) + Releases(s.log, |s.log|, c) + Held(s, c) + (if Idle(s, step, c) then 1 else 0)
            == Claims(s.log, |s.log|, c) + Releases(t.log, |t.log|, c) + Held(t, c)
  {
    CountsSame(s.log, Apply(s, step).log, |s.log|, c);
  }

  /** Every claim is matched by a release or by the case being held; idle releases match no claim. */
  lemma {:induction false} ClaimsBalance(s: Pool, steps: seq<Step>, c: nat)
    requires Fresh(s)
    ensures var t := Run(s, steps);
            Claims(t.log, |t.log|, c) + IdleReleases(s, steps, c) == Releases(t.log, |t.log|, c) + Held(t, c)
    decreases |steps|
  {
    if steps != [] {
      var n := |steps| - 1;
      ClaimsBalance(s, steps[..n], c);
      StepCounts(Run(s, steps[..n]), steps[n], c);
    }
  }

  /** Claims minus releases is 1 while the case is held and 0 otherwise, exactly when no release was idle. */
  lemma BalanceIffNoIdleRelease(s: Pool, steps: seq<Step>, c: nat)
    requires Fresh(s)
    ensures var t := Run(s, steps);
            Claims(t.log, |t.log|, c) - Releases(t.log, |t.log|, c) == Held(t, c)
            <==> forall k | 0 <= k < |steps| :: !Idle(Run(s, steps[..k]), steps[k], c)
  {
    ClaimsBalance(s, steps, c);
    IdleNone(s, steps, c);
  }

  lemma {:induction false} IdleNone(s: Pool, steps: seq<Step>, c: nat)
    ensures IdleReleases(s, steps, c) == 0 <==> forall k | 0 <= k < |steps| :: !Idle(Run(s, steps[..k]), steps[k], c)
    decreases |steps|
  {
    if steps != [] {
      var n := |steps| - 1;
      IdleNone(s, steps[..n], c);
      if IdleReleases(s, steps, c) == 0 {
        forall k | 0 <= k < |steps|
          ensures !Idle(Run(s, steps[..k]), steps[k], c)
        {
          assert k < n ==> steps[..n][..k] == steps[..k] && !Idle(Run(s, steps[..n][..k]), steps[..n][k], c);
        }
      } else if IdleReleases(s, steps[..n], c) != 0 {
        var k :| 0 <= k < n && Idle(Run(s, steps[..n][..k]), steps[..n][k], c);
        assert steps[..n][..k] == steps[..k] && Idle(Run(s, steps[..k]), steps[k], c);
      } else {
        assert Idle(Run(s, steps[..n]), steps[n], c);
      }
    }
  }

  /** Such a release is possible: a case moved to IN_PROGRESS without being claimed can be released. */
  lemma IdleReleasePossible(c: nat, user: string)
    ensures var s := Pool(map[c := CaseRow(Open, None)], map[], []);
            var t := Run(s, [Move(c, InProgress), Release(user, c)]);
            Fresh(s) && Releases(t.log, |t.log|, c) == 1 && Claims(t.log, |t.log|, c) == 0
  {
    var s := Pool(map[c := CaseRow(Open, None)], map[], []);
    var steps := [Move(c, InProgress), Release(user, c)];
    assert steps[..1] == [Move(c, InProgress)] && steps[..1][..0] == [];
    assert Run(s, steps[..1]) == Apply(Run(s, []), Move(c, InProgress))
        == Pool(map[c := CaseRow(InProgress, None)], map[], []);
    assert Run(s, steps).log == [ReleasedEvent(c, user)];
  }

  // -------------------------------------------------------------------------------------------
  // The code's own form
  // -------------------------------------------------------------------------------------------

  class Allocation {
    var cases: map<nat, CaseRow>
    var selected: map<string, nat>
    var log: seq<Entry>

    function State(): Pool
      reads this
    {
      Pool(cases, selected, log)
    }

    /** The guarded update: its row count tells whether the case was still free. */
    method GetNextClaim(user: string) returns (ok: bool)
      modifies this
      ensures State() == Apply(old(State()), Step.Claim(user)) && ok == ClaimCase(old(State()), user).Ok?
    {
      if user !in selected {
        return false;
      }
      var c := selected[user];
      var affected := 0;
      if c in cases && cases[c].status == Allocatable && cases[c].holder.None? {
        cases := cases[c := cases[c].(status := InProgress, holder := Some(user))];
        affected := 1;
      }
      if affected == 0 {
        return false;
      }
      selected := selected - {user};
      log := log + [ClaimedRow(c, user)];
      return true;
    }

    method ReleaseToPool(user: string, c: nat) returns (ok: bool)
      modifies this
      ensures State() == Apply(old(State()), Step.Release(user, c)) && ok == ReleaseCase(old(State()), user, c).Ok?
    {
      if c !in cases || !LifecycleAllows(cases[c].status, Allocatable) {
        return false;
      }
      cases := cases[c := cases[c].(status := Allocatable, holder := None)];
      log := log + [ReleasedEvent(c, user)];
      return true;
    }
  }
}
