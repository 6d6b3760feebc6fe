/**
 Runs of the workflow engine: what the instance table holds at every moment of a cascade, and what
 that means for whole runs.
 */
module WorkflowRuns {
  import opened Outcomes
  import opened WorkflowTree
  import opened WorkflowEngine

  /** The table holds exactly the statuses that `m` gives: one row per started component. */
  ghost predicate Agrees(root: Component, t: Table, m: Marking) {
    && Refers(root, t)
    && (forall i, j | 0 <= i < j < |t| :: t[i].component != t[j].component)
    && (forall i | 0 <= i < |t| :: t[i].status != Pending && t[i].status == StatusOf(root, t[i].component, m))
    && (forall p {:trigger StatusOf(root, p, m)} {:trigger HasRow(t, p)} |
          Valid(root, p) && StatusOf(root, p, m) != Pending :: HasRow(t, p))
    && (forall p | p in m.finished :: HasRow(t, p))
  }

  ghost predicate HasRow(t: Table, p: Path) {
    exists i :: 0 <= i < |t| && t[i].component == p
  }

  /** Its turn has come: the parent is started and, if sequential, the earlier siblings are done. */
  ghost predicate Ready(root: Component, p: Path, m: Marking)
    requires Valid(root, p)
  {
    p != [] ==> Started(root, Parent(p), m) && EarlierDone(At(root, Parent(p)), Parent(p), Last(p), m)
  }

  /** Activations still owed by enclosing loops are of children of started parallel containers. */
  ghost predicate LoopsOnly(root: Component, t: Table, paths: set<Path>) {
    forall q | q in paths ::
      q != [] && Valid(root, q) && At(root, Parent(q)).strategy.Parallel? && HasRow(t, Parent(q))
  }

  ghost predicate NoneUnder(p: Path, paths: set<Path>) {
    forall q | q in paths :: q != [] ==> Parent(q) != p
  }

  function ChildrenFrom(p: Path, k: nat, count: nat): set<Path> {
    set i: nat | k <= i < count :: p + [i]
  }

  /** The marking once the row of `p` is inserted and before anything below `p` is activated. */
  function Opened(root: Component, p: Path, m: Marking): Marking
    requires Valid(root, p)
  {
    var rest := m.pending - {p};
    match At(root, p)
    case Task(_) => m.(pending := rest)
    case Container(_, strategy, cs) =>
      if cs == [] then m.(pending := rest, held := m.held + {p})
      else if strategy.Parallel? then m.(pending := rest + ChildrenFrom(p, 0, |cs|))
      else m.(pending := rest + {p + [0]})
  }

  // -------------------------------------------------------------------------------------------
  // One row changes: the marking changes at one component
  // -------------------------------------------------------------------------------------------

  lemma {:induction false} OpenedNotDone(root: Component, p: Path, m: Marking)
    requires Valid(root, p) && p in m.pending
    requires At(root, p).Task? ==> p !in m.finished
    ensures !Done(At(root, p), p, m) && !Done(At(root, p), p, Opened(root, p, m))
    ensures SameOff(m, Opened(root, p, m), p)
  {
    var c, n := At(root, p), Opened(root, p, m);
    if c.Container? && c.children != [] {
      assert p + [0] in n.pending && Live(c, 0);
    }
  }

  lemma {:induction false} OpenedBelow(root: Component, p: Path, m: Marking, r: Path)
    requires Valid(root, p) && Valid(root, r) && p < r && p in m.pending
    ensures !Started(root, r, m) && !Started(root, r, Opened(root, p, m))
  {
    UnstartedBelow(root, p, m, r);
    ValidPrefix(root, p, r);
    var c, n, k := At(root, p), Opened(root, p, m), r[|p|];
    ChildAt(root, p, k);
    if c.strategy.Parallel? || k == 0 {
      assert p + [k] in n.pending;
    } else {
      assert p + [0] in n.pending && Live(c, 0) && !Done(c.children[0], p + [0], n);
    }
    assert !Started(root, p + [k], n);
    UnstartedBelow(root, p + [k], n, r);
  }

  lemma {:induction false} StatusAfterOpening(root: Component, p: Path, m: Marking, r: Path)
    requires Valid(root, p) && Valid(root, r)
    requires p in m.pending && Ready(root, p, m)
    requires At(root, p).Task? ==> p !in m.finished
    ensures StatusOf(root, p, m) == Pending
    ensures StatusOf(root, r, Opened(root, p, m)) == if r == p then InProgress else StatusOf(root, r, m)
  {
    var n := Opened(root, p, m);
    OpenedNotDone(root, p, m);
    if p < r {
      OpenedBelow(root, p, m, r);
    } else if r != p {
      DoneFrame(root, p, m, n, r);
      StartedFrame(root, p, m, n, r);
    } else if p != [] {
      var up := Parent(p);
      assert !(p <= up);
      StartedFrame(root, p, m, n, up);
      EarlierDoneFrame(root, p, m, n);
      assert Started(root, p, n);
    }
  }

  lemma {:induction false} EarlierDoneFrame(root: Component, p: Path, m: Marking, n: Marking)
    requires Valid(root, p) && p != [] && SameOff(m, n, p)
    requires Done(At(root, p), p, m) == Done(At(root, p), p, n)
    ensures EarlierDone(At(root, Parent(p)), Parent(p), Last(p), m)
            == EarlierDone(At(root, Parent(p)), Parent(p), Last(p), n)
  {
    var up := Parent(p);
    forall j: nat | j < Last(p)
      ensures Done(At(root, up).children[j], up + [j], m) == Done(At(root, up).children[j], up + [j], n)
    {
      ChildAt(root, up, j);
      DoneFrame(root, p, m, n, up + [j]);
    }
  }

  /** The marking once `p` is marked COMPLETED and before its parent is looked at further. */
  ghost function Closed(root: Component, p: Path, m: Marking): Marking
    requires Valid(root, p)
  {
    var n := m.(held := {});
    if p == [] then n
    else
      var parent := At(root, Parent(p));
      if parent.strategy.Sequential? then
        var next := NextSibling(parent.children, Last(p));
        if next < |parent.children| then n.(pending := m.pending + {Parent(p) + [next]})
        else n.(held := {Parent(p)})
      else if AllLiveDone(parent, Parent(p), n) then n.(held := {Parent(p)})
      else n
  }

  ghost predicate AllLiveDone(c: Component, p: Path, m: Marking)
    requires c.Container?
  {
    forall k: nat {:trigger Live(c, k)} | k < |c.children| && Live(c, k) :: Done(c.children[k], p + [k], m)
  }

  /** The component is done except for its own mark. */
  ghost predicate Completing(root: Component, p: Path, m: Marking) {
    && Valid(root, p)
    && m.held == {p}
    && Started(root, p, m)
    && Done(At(root, p), p, m.(held := {}))
  }

  lemma {:induction false} HeldNotDone(root: Component, p: Path, m: Marking)
    requires Completing(root, p, m) && p != []
    ensures Parent(p) !in m.held && Parent(p) !in m.pending && Started(root, Parent(p), m)
    ensures Live(At(root, Parent(p)), Last(p)) && Parent(p) + [Last(p)] == p
    ensures !Done(At(root, p), p, m) && !Done(At(root, Parent(p)), Parent(p), m)
  {
    assert |Parent(p)| < |p|;
    assert Parent(p) + [Last(p)] == p;
    assert Started(root, Parent(p), m);
  }

  /**
   Neither before nor after is the parent done: a next sibling is owed, or the parent is held, or a child is
   not done.
   */
  lemma {:induction false} ClosedParentNotDone(root: Component, p: Path, m: Marking)
    requires Ordered(root) && Completing(root, p, m) && p != []
    ensures !Done(At(root, Parent(p)), Parent(p), Closed(root, p, m))
  {
    var up, n := Parent(p), Closed(root, p, m);
    var parent := At(root, up);
    if parent.strategy.Sequential? {
      NextAt(root, up, Last(p));
      var next := NextSibling(parent.children, Last(p));
      if next < |parent.children| {
        assert up + [next] in n.pending;
      }
    }
  }

  /** Closing `p` touches only the marks of `p`, its parent and the sibling that is next in turn. */
  lemma {:induction false} ClosedRegion(root: Component, p: Path, m: Marking)
    requires Completing(root, p, m) && p != []
    ensures SameOff(m, Closed(root, p, m), Parent(p))
    ensures Parent(p) in m.pending <==> Parent(p) in Closed(root, p, m).pending
    ensures Closed(root, p, m).finished == m.finished
  {
  }

  lemma {:induction false} ClosedBelow(root: Component, p: Path, m: Marking, k: nat)
    requires Completing(root, p, m) && p != [] && k < |At(root, Parent(p)).children|
    ensures SameBelow(m, Closed(root, p, m), Parent(p) + [k])
    ensures SameBelow(m.(held := {}), Closed(root, p, m), Parent(p) + [k])
    ensures k < Last(p) ==> SameOn(m, Closed(root, p, m), Parent(p) + [k])
    ensures k != Last(p) && (Parent(p) + [k] in Closed(root, p, m).pending ==> Parent(p) + [k] in m.pending)
            ==> SameOn(m, Closed(root, p, m), Parent(p) + [k])
  {
    assert Parent(p) + [Last(p)] == p;
    assert k != Last(p) ==> (Parent(p) + [k])[|p| - 1] != p[|p| - 1];
    var next := NextSibling(At(root, Parent(p)).children, Last(p));
    assert k != next ==> (Parent(p) + [k])[|p| - 1] != (Parent(p) + [next])[|p| - 1];
  }

  lemma {:induction false} EarlierDoneBefore(root: Component, p: Path, m: Marking, k: nat)
    requires Completing(root, p, m) && p != [] && k <= Last(p)
    ensures EarlierDone(At(root, Parent(p)), Parent(p), k, m)
            == EarlierDone(At(root, Parent(p)), Parent(p), k, Closed(root, p, m))
  {
    var up, n, c := Parent(p), Closed(root, p, m), At(root, Parent(p));
    forall j: nat | j < k
      ensures Done(c.children[j], up + [j], m) == Done(c.children[j], up + [j], n)
    {
      ClosedBelow(root, p, m, j);
      DoneLocal(c.children[j], up + [j], m, n);
    }
  }

  lemma {:induction false} Unready(root: Component, up: Path, k: nat, m: Marking)
    requires Valid(root, up) && At(root, up).Container? && k < |At(root, up).children|
    requires up + [k] in m.pending || !EarlierDone(At(root, up), up, k, m)
    ensures Valid(root, up + [k]) && !Started(root, up + [k], m)
  {
    ChildAt(root, up, k);
  }

  lemma {:induction false} NotEarlierDone(c: Component, up: Path, j: nat, k: nat, m: Marking)
    requires c.Container? && c.strategy.Sequential? && j < k < |c.children| && Live(c, j)
    requires !Done(c.children[j], up + [j], m)
    ensures !EarlierDone(c, up, k, m)
  {
  }

  /** While the next live sibling is owed, it is the turn of no child after `j`. */
  lemma {:induction false} NoTurnAfter(c: Component, up: Path, j: nat, next: nat, k: nat, m: Marking)
    requires c.Container? && c.strategy.Sequential? && j < k < |c.children| && j < next <= |c.children|
    requires next < |c.children| ==> Live(c, next) && up + [next] in m.pending
    requires forall i | j < i < next :: !Live(c, i)
    ensures up + [k] in m.pending || !EarlierDone(c, up, k, m)
  {
    if next < k {
      NotEarlierDone(c, up, next, k, m);
    }
  }

  lemma {:induction false} ClosedSibling(root: Component, p: Path, m: Marking, k: nat)
    requires Ordered(root) && Completing(root, p, m) && p != []
    requires k < |At(root, Parent(p)).children|
    ensures Valid(root, Parent(p) + [k])
    ensures Started(root, Parent(p) + [k], m) == Started(root, Parent(p) + [k], Closed(root, p, m))
  {
    var up, n, c := Parent(p), Closed(root, p, m), At(root, Parent(p));
    ChildAt(root, up, k);
    if c.strategy.Sequential? && Last(p) < k {
      HeldNotDone(root, p, m);
      NotEarlierDone(c, up, Last(p), k, m);
      Unready(root, up, k, m);
      NextAt(root, up, Last(p));
      NoTurnAfter(c, up, Last(p), NextSibling(c.children, Last(p)), k, n);
      Unready(root, up, k, n);
    } else {
      HeldNotDone(root, p, m);
      ClosedParentNotDone(root, p, m);
      ClosedRegion(root, p, m);
      StartedFrame(root, up, m, n, up);
      ClosedBelow(root, p, m, k);
      if c.strategy.Sequential? {
        EarlierDoneBefore(root, p, m, k);
      }
    }
  }

  lemma {:induction false} StatusAfterClosing(root: Component, p: Path, m: Marking, r: Path)
    requires Ordered(root) && Completing(root, p, m) && Valid(root, r)
    ensures StatusOf(root, p, m) == InProgress
    ensures StatusOf(root, r, Closed(root, p, m)) == if r == p then Completed else StatusOf(root, r, m)
  {
    var n := Closed(root, p, m);
    if p == [] {
      StartedBelow(root, p, m, n, r);
      if r != p {
        DoneLocal(At(root, r), r, m, n);
      }
    } else if Parent(p) < r {
      StatusAfterClosingBelow(root, p, m, r);
    } else {
      HeldNotDone(root, p, m);
      ClosedParentNotDone(root, p, m);
      ClosedRegion(root, p, m);
      StartedFrame(root, Parent(p), m, n, r);
      DoneFrame(root, Parent(p), m, n, r);
    }
  }

  lemma {:induction false} StatusAfterClosingBelow(root: Component, p: Path, m: Marking, r: Path)
    requires Ordered(root) && Completing(root, p, m) && p != [] && Valid(root, r) && Parent(p) < r
    ensures StatusOf(root, p, m) == InProgress
    ensures StatusOf(root, r, Closed(root, p, m)) == if r == p then Completed else StatusOf(root, r, m)
  {
    var up, k := Parent(p), r[|Parent(p)|];
    HeldNotDone(root, p, m);
    ValidPrefix(root, up, r);
    ClosedSibling(root, p, m, k);
    ClosedBelow(root, p, m, k);
    if k == Last(p) {
      StatusBelowClosed(root, p, m, Closed(root, p, m), r);
    } else {
      StatusBelowSibling(root, up + [k], m, Closed(root, p, m), r);
    }
  }

  lemma {:induction false} StatusBelowClosed(root: Component, p: Path, m: Marking, n: Marking, r: Path)
    requires Valid(root, p) && Valid(root, r) && p <= r && SameBelow(m, n, p)
    requires Started(root, p, m) && Started(root, p, n) && n.finished == m.finished
    requires p in m.held && p !in n.held && Done(At(root, p), p, m.(held := {}))
    requires SameBelow(m.(held := {}), n, p)
    ensures StatusOf(root, r, n) == if r == p then Completed else StatusOf(root, r, m)
  {
    StartedBelow(root, p, m, n, r);
    if r == p {
      DoneLocal(At(root, p), p, m.(held := {}), n);
    } else {
      DoneLocal(At(root, r), r, m, n);
    }
  }

  lemma {:induction false} StatusBelowSibling(root: Component, a: Path, m: Marking, n: Marking, r: Path)
    requires Valid(root, a) && Valid(root, r) && a <= r && SameBelow(m, n, a)
    requires Started(root, a, m) == Started(root, a, n)
    requires (a in n.pending ==> a in m.pending) ==> SameOn(m, n, a)
    ensures StatusOf(root, r, n) == StatusOf(root, r, m)
  {
    StartedBelow(root, a, m, n, r);
    if Started(root, a, n) {
      assert a !in n.pending && (r == a || a < r);
      assert SameOn(m, n, r);
      DoneLocal(At(root, r), r, m, n);
    } else {
      UnstartedBelow(root, a, n, r);
    }
  }

  // -------------------------------------------------------------------------------------------
  // The cascade keeps the table in agreement
  // -------------------------------------------------------------------------------------------

  lemma {:induction false} RowIffStarted(root: Component, t: Table, m: Marking, p: Path)
    requires Agrees(root, t, m) && Valid(root, p)
    ensures HasRow(t, p) <==> Started(root, p, m)
  {
  }

  lemma {:induction false} LoopsGrow(root: Component, t: Table, u: Table, paths: set<Path>)
    requires LoopsOnly(root, t, paths) && Grows(t, u)
    ensures LoopsOnly(root, u, paths)
  {
    forall q | q in paths
      ensures HasRow(u, Parent(q))
    {
      var i :| 0 <= i < |t| && t[i].component == Parent(q);
      assert u[i].component == Parent(q);
    }
  }

  lemma {:induction false} AppendRow(root: Component, t: Table, m: Marking, n: Marking, p: Path)
    requires Agrees(root, t, m) && Valid(root, p) && StatusOf(root, p, m) == Pending && n.finished == m.finished
    requires forall r {:trigger StatusOf(root, r, n)} | Valid(root, r) ::
             StatusOf(root, r, n) == if r == p then InProgress else StatusOf(root, r, m)
    ensures Agrees(root, t + [Instance(p, InProgress)], n)
  {
    var u := t + [Instance(p, InProgress)];
    forall r | HasRow(t, r) || r == p
      ensures HasRow(u, r)
    {
      if r == p {
        assert u[|t|].component == p;
      } else {
        var i :| 0 <= i < |t| && t[i].component == r;
        assert u[i].component == r;
      }
    }
    assert forall i | 0 <= i < |t| :: u[i] == t[i];
  }

  lemma {:induction false} UpdateRow(root: Component, t: Table, m: Marking, n: Marking, id: nat)
    requires Agrees(root, t, m) && id < |t| && n.finished == m.finished
    requires forall r {:trigger StatusOf(root, r, n)} | Valid(root, r) ::
               StatusOf(root, r, n) == if r == t[id].component then Completed else StatusOf(root, r, m)
    ensures Agrees(root, t[id := Instance(t[id].component, Completed)], n)
  {
    var u := t[id := Instance(t[id].component, Completed)];
    forall r | HasRow(t, r)
      ensures HasRow(u, r)
    {
      var i :| 0 <= i < |t| && t[i].component == r;
      assert u[i].component == r;
    }
  }

  lemma {:induction false} OpenRow(root: Component, t: Table, p: Path, m: Marking)
    requires Agrees(root, t, m) && m.held == {}
    requires Valid(root, p) && p in m.pending && Ready(root, p, m) && LoopsOnly(root, t, m.pending - {p})
    ensures var u := t + [Instance(p, InProgress)];
            && Agrees(root, u, Opened(root, p, m))
            && LoopsOnly(root, u, m.pending - {p})
            && HasRow(u, p) && NoneUnder(p, m.pending - {p})
            && StatusOf(root, p, Opened(root, p, m)) == InProgress
  {
    var n, u := Opened(root, p, m), t + [Instance(p, InProgress)];
    RowIffStarted(root, t, m, p);
    forall r | Valid(root, r)
      ensures StatusOf(root, r, n) == if r == p then InProgress else StatusOf(root, r, m)
    {
      StatusAfterOpening(root, p, m, r);
    }
    AppendRow(root, t, m, n, p);
    LoopsGrow(root, t, u, m.pending - {p});
    assert u[|t|].component == p;
  }

  /** Activating a component whose turn has come settles it and everything it sets off. */
  lemma {:induction false} ActivateAgrees(root: Component, t: Table, p: Path, m: Marking)
    requires Ordered(root) && Agrees(root, t, m) && m.held == {}
    requires Valid(root, p) && p in m.pending && Ready(root, p, m) && LoopsOnly(root, t, m.pending - {p})
    ensures Activate(root, t, p).Ok?
    ensures Agrees(root, Activate(root, t, p).value, m.(pending := m.pending - {p}))
    decreases Size(root) - Enter(root, p), 0
  {
    var c, n, u := At(root, p), Opened(root, p, m), t + [Instance(p, InProgress)];
    OpenRow(root, t, p, m);
    TourBounds(root, p);
    if c.Container? {
      if c.children == [] {
        CompleteAgrees(root, u, |t|, n);
      } else if c.strategy.Parallel? {
        var _ := ActivateFromAgrees(root, u, p, 0, m.(pending := m.pending - {p}));
      } else {
        ChildAt(root, p, 0);
        TourBounds(root, p + [0]);
        assert n.pending - {p + [0]} == m.pending - {p};
        ActivateAgrees(root, u, p + [0], n);
      }
    }
  }

  /** At the head of the loop over a parallel container's children, with child `k` next. */
  ghost predicate InLoop(root: Component, t: Table, p: Path, k: nat, m: Marking) {
    && Ordered(root) && Valid(root, p) && m.held == {} && HasRow(t, p)
    && At(root, p).Container? && At(root, p).strategy.Parallel? && k <= |At(root, p).children|
    && LoopsOnly(root, t, m.pending) && NoneUnder(p, m.pending)
    && Agrees(root, t, m.(pending := m.pending + ChildrenFrom(p, k, |At(root, p).children|)))
  }

  lemma {:induction false} ActivateFromAgrees(root: Component, t: Table, p: Path, k: nat, m: Marking)
      returns (r: Result<Table>)
    requires Valid(root, p) && At(root, p).Container? && k <= |At(root, p).children| && Refers(root, t)
    ensures InLoop(root, t, p, k, m) ==> r == ActivateFrom(root, t, p, k) && r.Ok? && Agrees(root, r.value, m)
    decreases Size(root) - Enter(root, p) - 1, |At(root, p).children| - k + 2
  {
    r := Ok(t);
    if k == |At(root, p).children| {
      LoopOver(root, t, p, m);
    } else if InLoop(root, t, p, k, m) {
      var u := ActivateNth(root, t, p, k, m);
      UnfoldLoop(root, t, p, k, u);
      r := ActivateFromAgrees(root, u, p, k + 1, m);
    }
  }

  lemma {:induction false} LoopOver(root: Component, t: Table, p: Path, m: Marking)
    requires Valid(root, p) && At(root, p).Container?
    ensures InLoop(root, t, p, |At(root, p).children|, m) ==> Agrees(root, t, m)
  {
    assert m.(pending := m.pending + ChildrenFrom(p, |At(root, p).children|, |At(root, p).children|)) == m;
  }

  lemma {:induction false} UnfoldLoop(root: Component, t: Table, p: Path, k: nat, u: Table)
    requires Valid(root, p) && At(root, p).Container? && k < |At(root, p).children| && Refers(root, t)
    requires Valid(root, p + [k]) && Activate(root, t, p + [k]) == Ok(u)
    ensures ActivateFrom(root, t, p, k) == ActivateFrom(root, u, p, k + 1)
  {
  }

  lemma {:induction false} ActivateNth(root: Component, t: Table, p: Path, k: nat, m: Marking) returns (u: Table)
    requires InLoop(root, t, p, k, m) && k < |At(root, p).children|
    ensures Valid(root, p + [k]) && Activate(root, t, p + [k]) == Ok(u)
    ensures InLoop(root, u, p, k + 1, m)
    decreases Size(root) - Enter(root, p) - 1, 1
  {
    TurnInLoop(root, t, p, k, m);
    TourBounds(root, p + [k]);
    ActivateAgrees(root, t, p + [k], m.(pending := m.pending + ChildrenFrom(p, k, |At(root, p).children|)));
    u := Activate(root, t, p + [k]).value;
    LoopsGrow(root, t, u, m.pending);
    RowKept(t, u, p);
  }

  lemma {:induction false} TurnInLoop(root: Component, t: Table, p: Path, k: nat, m: Marking)
    requires InLoop(root, t, p, k, m) && k < |At(root, p).children|
    ensures var n := m.(pending := m.pending + ChildrenFrom(p, k, |At(root, p).children|));
            && Valid(root, p + [k]) && p + [k] in n.pending && Ready(root, p + [k], n)
            && Enter(root, p) < Enter(root, p + [k])
            && n.pending - {p + [k]} == m.pending + ChildrenFrom(p, k + 1, |At(root, p).children|)
            && LoopsOnly(root, t, n.pending - {p + [k]})
  {
    var count := |At(root, p).children|;
    ChildAt(root, p, k);
    TourBounds(root, p + [k]);
    RowIffStarted(root, t, m.(pending := m.pending + ChildrenFrom(p, k, count)), p);
    RestOfLoop(p, k, count, m.pending);
    OwedByLoop(root, t, p, k + 1, m.pending);
  }

  lemma {:induction false} RowKept(t: Table, u: Table, p: Path)
    requires HasRow(t, p) && Grows(t, u)
    ensures HasRow(u, p)
  {
    var i :| 0 <= i < |t| && t[i].component == p;
    assert u[i].component == p;
  }

  lemma {:induction false} RestOfLoop(p: Path, k: nat, count: nat, rest: set<Path>)
    requires k < count && p + [k] !in rest
    ensures rest + ChildrenFrom(p, k, count) - {p + [k]} == rest + ChildrenFrom(p, k + 1, count)
  {
    var a, b := ChildrenFrom(p, k, count), ChildrenFrom(p, k + 1, count);
    forall r
      ensures r in a - {p + [k]} <==> r in b
    {
      if r in b {
        var i: nat :| k + 1 <= i < count && r == p + [i];
        assert r[|p|] == i != k == (p + [k])[|p|];
      }
    }
  }

  lemma {:induction false} OwedByLoop(root: Component, t: Table, p: Path, k: nat, rest: set<Path>)
    requires Valid(root, p) && At(root, p).Container? && At(root, p).strategy.Parallel? && HasRow(t, p)
    requires LoopsOnly(root, t, rest)
    ensures LoopsOnly(root, t, rest + ChildrenFrom(p, k, |At(root, p).children|))
  {
    forall q | q in ChildrenFrom(p, k, |At(root, p).children|)
      ensures q != [] && Valid(root, q) && Parent(q) == p
    {
      var i: nat :| k <= i < |At(root, p).children| && q == p + [i];
      ChildAt(root, p, i);
    }
  }

  lemma {:induction false} CloseRow(root: Component, t: Table, id: nat, m: Marking)
    requires Ordered(root) && Agrees(root, t, m) && id < |t|
    requires Completing(root, t[id].component, m) && LoopsOnly(root, t, m.pending)
    ensures var p, u := t[id].component, t[id := Instance(t[id].component, Completed)];
            && Agrees(root, u, Closed(root, p, m))
            && LoopsOnly(root, u, m.pending)
            && (p != [] ==> Started(root, Parent(p), Closed(root, p, m)))
  {
    var p, n := t[id].component, Closed(root, t[id].component, m);
    forall r | Valid(root, r)
      ensures StatusOf(root, r, n) == if r == p then Completed else StatusOf(root, r, m)
    {
      StatusAfterClosing(root, p, m, r);
    }
    UpdateRow(root, t, m, n, id);
    LoopsGrow(root, t, t[id := Instance(p, Completed)], m.pending);
    if p != [] {
      HeldNotDone(root, p, m);
      RowIffStarted(root, t[id := Instance(p, Completed)], n, p);
    }
  }

  /** Completing a component whose children are done settles it and everything it sets off. */
  lemma {:induction false} CompleteAgrees(root: Component, t: Table, id: nat, m: Marking)
    requires Ordered(root) && Agrees(root, t, m) && id < |t|
    requires Completing(root, t[id].component, m) && LoopsOnly(root, t, m.pending)
    ensures Complete(root, t, id).Ok?
    ensures Agrees(root, Complete(root, t, id).value, m.(held := {}))
    decreases Remaining(root, t, id), 0
  {
    var p := t[id].component;
    var u := t[id := Instance(p, Completed)];
    TourBounds(root, p);
    CloseRow(root, t, id, m);
    if p != [] {
      var c := At(root, Parent(p));
      TourBounds(root, Parent(p));
      if c.strategy.Sequential? {
        var next := NextSibling(c.children, Last(p));
        if next < |c.children| {
          NextTurn(root, p, m, u);
          assert Parent(p) + [Last(p)] == p;
          TourForward(root, Parent(p), Last(p), next);
          TourBounds(root, Parent(p) + [next]);
          ActivateAgrees(root, u, Parent(p) + [next], Closed(root, p, m));
        } else {
          EarlierAllDone(root, p, m);
          CompleteParentAgrees(root, u, Parent(p), Closed(root, p, m));
        }
      } else {
        AllDoneIffComplete(root, p, m, u);
        if AllLiveDone(c, Parent(p), m.(held := {})) {
          CompleteParentAgrees(root, u, Parent(p), Closed(root, p, m));
        }
      }
    }
  }

  lemma {:induction false} NextTurn(root: Component, p: Path, m: Marking, t: Table)
    requires Ordered(root) && Completing(root, p, m) && p != [] && At(root, Parent(p)).strategy.Sequential?
    requires NextSibling(At(root, Parent(p)).children, Last(p)) < |At(root, Parent(p)).children|
    requires Started(root, Parent(p), Closed(root, p, m)) && LoopsOnly(root, t, m.pending)
    ensures var n, q := Closed(root, p, m), Parent(p) + [NextSibling(At(root, Parent(p)).children, Last(p))];
            && Valid(root, q) && q in n.pending && Ready(root, q, n)
            && n.pending - {q} == m.pending && n.held == {}
  {
    var up, c, next := Parent(p), At(root, Parent(p)), NextSibling(At(root, Parent(p)).children, Last(p));
    ChildAt(root, up, next);
    EarlierAllDone(root, p, m);
    assert up + [next] !in m.pending;
  }

  lemma {:induction false} CompleteParentAgrees(root: Component, t: Table, p: Path, m: Marking)
    requires Ordered(root) && Agrees(root, t, m) && Valid(root, p)
    requires Completing(root, p, m) && LoopsOnly(root, t, m.pending)
    ensures CompleteParent(root, t, p).Ok?
    ensures Agrees(root, CompleteParent(root, t, p).value, m.(held := {}))
    decreases Size(root) - Leave(root, p), 1
  {
    TourBounds(root, p);
    assert StatusOf(root, p, m) == InProgress;
    RowIffStarted(root, t, m, p);
    var i :| 0 <= i < |t| && t[i].component == p;
    assert t[i] == Instance(p, InProgress);
    CompleteAgrees(root, t, ActiveInstance(t, p, 0).value, m);
  }

  /** Before the next sibling is activated all earlier live ones are done; if there is none, all are. */
  lemma {:induction false} EarlierAllDone(root: Component, p: Path, m: Marking)
    requires Ordered(root) && Completing(root, p, m) && p != [] && At(root, Parent(p)).strategy.Sequential?
    ensures var c, n := At(root, Parent(p)), Closed(root, p, m);
            var next := NextSibling(At(root, Parent(p)).children, Last(p));
            && (next < |c.children| ==> EarlierDone(c, Parent(p), next, n))
            && (next == |c.children| ==> Done(c, Parent(p), n.(held := {})))
  {
    var up, c, n := Parent(p), At(root, Parent(p)), Closed(root, p, m);
    var next := NextSibling(c.children, Last(p));
    HeldNotDone(root, p, m);
    NextAt(root, up, Last(p));
    forall j: nat | j < next && Live(c, j)
      ensures Done(c.children[j], up + [j], n) && Done(c.children[j], up + [j], n.(held := {}))
    {
      assert j <= Last(p);
      if j == Last(p) {
        StatusAfterClosing(root, p, m, p);
      } else {
        ClosedBelow(root, p, m, j);
        DoneLocal(c.children[j], up + [j], m, n);
      }
      DoneLocal(c.children[j], up + [j], n, n.(held := {}));
    }
  }

  lemma {:induction false} AllDoneIffComplete(root: Component, p: Path, m: Marking, t: Table)
    requires Ordered(root) && Completing(root, p, m) && p != [] && At(root, Parent(p)).strategy.Parallel?
    requires Agrees(root, t, Closed(root, p, m))
    ensures var c := At(root, Parent(p));
            AllLiveDone(c, Parent(p), m.(held := {})) <==> AllChildrenComplete(t, Parent(p), |c.children|)
    ensures AllLiveDone(At(root, Parent(p)), Parent(p), m.(held := {})) ==>
              Completing(root, Parent(p), Closed(root, p, m))
  {
    var up, c, n := Parent(p), At(root, Parent(p)), Closed(root, p, m);
    HeldNotDone(root, p, m);
    ClosedParentNotDone(root, p, m);
    ClosedRegion(root, p, m);
    StartedFrame(root, up, m, n, up);
    forall k: nat | k < |c.children|
      ensures Live(c, k) && (Done(c.children[k], up + [k], m.(held := {})) <==> Instance(up + [k], Completed) in t)
    {
      ChildAt(root, up, k);
      DoneLocal(c.children[k], up + [k], m.(held := {}), n);
      assert EarlierDone(c, up, k, n);
      RowIffStarted(root, t, n, up + [k]);
    }
  }
}
