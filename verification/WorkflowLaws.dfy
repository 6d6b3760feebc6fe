/**
 Laws of whole workflow runs. A run starts the first root and then reports in-progress tasks
 complete, in any order; `ids` are the instance ids in the order they are reported.
 */
module WorkflowLaws {
  import opened Outcomes
  import opened WorkflowTree
  import opened WorkflowEngine
  import opened WorkflowRuns

  predicate InProgressTask(root: Component, t: Table, id: nat)
    requires Refers(root, t)
  {
    id < |t| && t[id].status == InProgress && At(root, t[id].component).Task?
  }

  function Run(root: Component, t: Table, ids: seq<nat>): (r: Result<Table>)
    requires Refers(root, t)
    ensures r.Ok? ==> Refers(root, r.value)
    decreases |ids|
  {
    if ids == [] then Ok(t)
    else
      var u :- Complete(root, t, ids[0]);
      Run(root, u, ids[1..])
  }

  /** Each reported instance is an in-progress task when it is reported. */
  predicate Legal(root: Component, t: Table, ids: seq<nat>)
    requires Refers(root, t)
    decreases |ids|
  {
    ids == [] ||
    (InProgressTask(root, t, ids[0]) &&
     match Complete(root, t, ids[0])
     case Ok(u) => Legal(root, u, ids[1..])
     case Err(_) => true)
  }

  /** The tasks that a run reports complete. */
  function Reported(root: Component, t: Table, ids: seq<nat>): set<Path>
    requires Refers(root, t) && Legal(root, t, ids)
    decreases |ids|
  {
    if ids == [] then {}
    else
      {t[ids[0]].component} +
      match Complete(root, t, ids[0])
      case Ok(u) => Reported(root, u, ids[1..])
      case Err(_) => {}
  }

  // -------------------------------------------------------------------------------------------
  // Every run stores the denotation
  // -------------------------------------------------------------------------------------------

  lemma {:induction false} StartAgrees(roots: seq<Component>)
    requires roots != [] && Ordered(roots[0])
    ensures Start(roots).Ok? && Agrees(roots[0], Start(roots).value, Settled({}))
  {
    var root, m := roots[0], Marking({}, {[]}, {});
    forall p | Valid(root, p)
      ensures !Started(root, p, m)
    {
      UnstartedBelow(root, [], m, p);
    }
    ActivateAgrees(root, [], [], m);
    assert m.(pending := m.pending - {[]}) == Settled({});
  }

  lemma {:induction false} ReportMarks(root: Component, t: Table, id: nat, finished: set<Path>)
    requires Agrees(root, t, Settled(finished)) && InProgressTask(root, t, id)
    ensures Agrees(root, t, Marking(finished + {t[id].component}, {}, {t[id].component}))
    ensures Completing(root, t[id].component, Marking(finished + {t[id].component}, {}, {t[id].component}))
  {
    var p := t[id].component;
    var m, n := Settled(finished), Marking(finished + {p}, {}, {p});
    assert !Done(At(root, p), p, m) && !Done(At(root, p), p, n);
    forall r | Valid(root, r)
      ensures StatusOf(root, r, n) == StatusOf(root, r, m)
    {
      if p < r {
        ValidPrefix(root, p, r);
      } else {
        StartedFrame(root, p, m, n, r);
        DoneFrame(root, p, m, n, r);
      }
    }
    assert HasRow(t, p);
  }

  /** Reporting an in-progress task succeeds and adds exactly that task to the finished ones. */
  lemma {:induction false} ReportAgrees(root: Component, t: Table, id: nat, finished: set<Path>)
    requires Ordered(root) && Agrees(root, t, Settled(finished)) && InProgressTask(root, t, id)
    ensures Complete(root, t, id).Ok?
    ensures Agrees(root, Complete(root, t, id).value, Settled(finished + {t[id].component}))
  {
    var p := t[id].component;
    ReportMarks(root, t, id, finished);
    CompleteAgrees(root, t, id, Marking(finished + {p}, {}, {p}));
  }

  lemma {:induction false} RunAgrees(root: Component, t: Table, ids: seq<nat>, finished: set<Path>)
    requires Ordered(root) && Agrees(root, t, Settled(finished)) && Legal(root, t, ids)
    ensures Run(root, t, ids).Ok?
    ensures Agrees(root, Run(root, t, ids).value, Settled(finished + Reported(root, t, ids)))
    decreases |ids|
  {
    if ids == [] {
      assert finished + Reported(root, t, ids) == finished;
    } else {
      ReportAgrees(root, t, ids[0], finished);
      var u := Complete(root, t, ids[0]).value;
      RunAgrees(root, u, ids[1..], finished + {t[ids[0]].component});
      assert finished + {t[ids[0]].component} + Reported(root, u, ids[1..]) == finished + Reported(root, t, ids);
    }
  }

  /** In every run the stored statuses are a function of the tree and the set of reported tasks. */
  lemma {:induction false} EveryRun(roots: seq<Component>, ids: seq<nat>)
    requires roots != [] && Ordered(roots[0]) && Start(roots).Ok? && Legal(roots[0], Start(roots).value, ids)
    ensures var r := Run(roots[0], Start(roots).value, ids);
            r.Ok? && Agrees(roots[0], r.value, Settled(Reported(roots[0], Start(roots).value, ids)))
  {
    StartAgrees(roots);
    RunAgrees(roots[0], Start(roots).value, ids, {});
    assert {} + Reported(roots[0], Start(roots).value, ids) == Reported(roots[0], Start(roots).value, ids);
  }

  /** Tables that agree with the same marking hold the same rows. */
  lemma {:induction false} SameRows(root: Component, t: Table, u: Table, m: Marking, row: Instance)
    requires Agrees(root, t, m) && Agrees(root, u, m)
    ensures row in t <==> row in u
  {
    if row in t {
      assert Valid(root, row.component) && StatusOf(root, row.component, m) == row.status;
      assert HasRow(u, row.component);
    }
    if row in u {
      assert Valid(root, row.component) && StatusOf(root, row.component, m) == row.status;
      assert HasRow(t, row.component);
    }
  }

  /** The state reached does not depend on the order in which the same tasks are reported. */
  lemma {:induction false} OrderIndependent(roots: seq<Component>, ids: seq<nat>, jds: seq<nat>)
    requires roots != [] && Ordered(roots[0]) && Start(roots).Ok?
    requires Legal(roots[0], Start(roots).value, ids) && Legal(roots[0], Start(roots).value, jds)
    requires Reported(roots[0], Start(roots).value, ids) == Reported(roots[0], Start(roots).value, jds)
    ensures var r, s := Run(roots[0], Start(roots).value, ids), Run(roots[0], Start(roots).value, jds);
            r.Ok? && s.Ok? && forall row :: row in r.value <==> row in s.value
  {
    EveryRun(roots, ids);
    EveryRun(roots, jds);
    var root, t := roots[0], Start(roots).value;
    var r, s := Run(root, t, ids), Run(root, t, jds);
    forall row
      ensures row in r.value <==> row in s.value
    {
      SameRows(root, r.value, s.value, Settled(Reported(root, t, ids)), row);
    }
  }

  // -------------------------------------------------------------------------------------------
  // Sequential order and progress
  // -------------------------------------------------------------------------------------------

  /** At every moment, also inside a cascade: a started sequential child has only completed live predecessors. */
  lemma {:induction false} PredecessorsCompleted(root: Component, t: Table, m: Marking, p: Path, j: nat, k: nat)
    requires Agrees(root, t, m) && Valid(root, p) && At(root, p).Container? && At(root, p).strategy.Sequential?
    requires j < k < |At(root, p).children| && Live(At(root, p), j) && HasRow(t, p + [k])
    ensures Instance(p + [j], Completed) in t
  {
    ChildAt(root, p, j);
    ChildAt(root, p, k);
    RowIffStarted(root, t, m, p + [k]);
    var c := At(root, p);
    assert Done(c.children[j], p + [j], m);
    assert EarlierDone(c, p, j, m) && Started(root, p + [j], m);
    RowIffStarted(root, t, m, p + [j]);
  }

  lemma {:induction false} FindInProgressTask(root: Component, p: Path, finished: set<Path>) returns (q: Path)
    requires Valid(root, p) && Started(root, p, Settled(finished)) && !Done(At(root, p), p, Settled(finished))
    ensures Valid(root, q) && At(root, q).Task? && StatusOf(root, q, Settled(finished)) == InProgress
    decreases At(root, p)
  {
    var c, m := At(root, p), Settled(finished);
    if c.Task? {
      q := p;
    } else {
      var k := FirstUndone(c, p, 0, m);
      ChildAt(root, p, k);
      assert EarlierDone(c, p, k, m);
      q := FindInProgressTask(root, p + [k], finished);
    }
  }

  lemma {:induction false} FirstUndone(c: Component, p: Path, from: nat, m: Marking) returns (k: nat)
    requires c.Container? && from <= |c.children|
    requires forall j: nat {:trigger Live(c, j)} | j < from && Live(c, j) :: Done(c.children[j], p + [j], m)
    requires exists j: nat :: j < |c.children| && Live(c, j) && !Done(c.children[j], p + [j], m)
    ensures k < |c.children| && Live(c, k) && !Done(c.children[k], p + [k], m)
    ensures forall j: nat {:trigger Live(c, j)} | j < k && Live(c, j) :: Done(c.children[j], p + [j], m)
    decreases |c.children| - from
  {
    if Live(c, from) && !Done(c.children[from], p + [from], m) {
      k := from;
    } else {
      k := FirstUndone(c, p, from + 1, m);
    }
  }

  /** A run never gets stuck: until the root is COMPLETED some task is IN_PROGRESS. */
  lemma {:induction false} NeverStuck(root: Component, t: Table, finished: set<Path>) returns (id: nat)
    requires Agrees(root, t, Settled(finished)) && Instance([], Completed) !in t
    ensures InProgressTask(root, t, id)
  {
    assert Started(root, [], Settled(finished));
    RowIffStarted(root, t, Settled(finished), []);
    var q := FindInProgressTask(root, [], finished);
    RowIffStarted(root, t, Settled(finished), q);
    id :| 0 <= id < |t| && t[id].component == q;
  }

  // -------------------------------------------------------------------------------------------
  // When is the workflow finished?
  // -------------------------------------------------------------------------------------------

  /** No sequential sibling of equal order stands before the component or before one of its ancestors. */
  predicate LiveAt(root: Component, p: Path)
    requires Valid(root, p)
    decreases |p|
  {
    p == [] || (LiveAt(root, Parent(p)) && Live(At(root, Parent(p)), Last(p)))
  }

  lemma {:induction false} DoneBelow(root: Component, p: Path, m: Marking)
    requires Valid(root, p) && LiveAt(root, p) && Done(root, [], m)
    ensures Done(At(root, p), p, m)
    decreases |p|
  {
    if p != [] {
      DoneBelow(root, Parent(p), m);
      assert Parent(p) + [Last(p)] == p;
    }
  }

  lemma {:induction false} FindUnfinished(root: Component, p: Path, finished: set<Path>) returns (q: Path)
    requires Valid(root, p) && LiveAt(root, p) && !Done(At(root, p), p, Settled(finished))
    ensures Valid(root, q) && At(root, q).Task? && LiveAt(root, q) && q !in finished
    decreases At(root, p)
  {
    var c := At(root, p);
    if c.Task? {
      q := p;
    } else {
      var k: nat :| k < |c.children| && Live(c, k) && !Done(c.children[k], p + [k], Settled(finished));
      ChildAt(root, p, k);
      q := FindUnfinished(root, p + [k], finished);
    }
  }

  /** The root is COMPLETED exactly when every task the engine can reach has been reported. */
  lemma {:induction false} RootCompletedIff(root: Component, t: Table, finished: set<Path>)
    requires Agrees(root, t, Settled(finished))
    ensures Instance([], Completed) in t <==>
            forall p | Valid(root, p) && At(root, p).Task? && LiveAt(root, p) :: p in finished
  {
    var m := Settled(finished);
    assert Started(root, [], m);
    RowIffStarted(root, t, m, []);
    if Done(root, [], m) {
      forall p | Valid(root, p) && At(root, p).Task? && LiveAt(root, p)
        ensures p in finished
      {
        DoneBelow(root, p, m);
      }
    } else {
      var q := FindUnfinished(root, [], finished);
    }
  }

  ghost function TasksOf(c: Component, p: Path): set<Path>
    decreases c
  {
    match c
    case Task(_) => {p}
    case Container(_, _, cs) => set k: nat, q | k < |cs| && q in TasksOf(cs[k], p + [k]) :: q
  }

  lemma {:induction false} TasksFromAbove(root: Component, p: Path, q: Path)
    requires Valid(root, p) && Valid(root, q) && p <= q && At(root, q).Task?
    ensures q in TasksOf(At(root, p), p)
    decreases |q| - |p|
  {
    if p != q {
      ValidPrefix(root, p, q);
      var k := q[|p|];
      ChildAt(root, p, k);
      TasksFromAbove(root, p + [k], q);
    }
  }

  ghost predicate AllTasksIn(root: Component, finished: set<Path>) {
    forall p | Valid(root, p) && At(root, p).Task? :: p in finished
  }

  /** Only components in turn are ever started. */
  lemma {:induction false} StartedIsLive(root: Component, p: Path, m: Marking)
    requires Valid(root, p) && Started(root, p, m)
    ensures LiveAt(root, p)
    decreases |p|
  {
    if p != [] {
      StartedIsLive(root, Parent(p), m);
    }
  }

  lemma {:induction false} CompletingRun(root: Component, t: Table, finished: set<Path>) returns (ids: seq<nat>)
    requires Ordered(root) && Agrees(root, t, Settled(finished))
    ensures Legal(root, t, ids) && Run(root, t, ids).Ok? && Instance([], Completed) in Run(root, t, ids).value
    decreases |TasksOf(root, []) - finished|
  {
    if Instance([], Completed) in t {
      ids := [];
    } else {
      var id := NeverStuck(root, t, finished);
      var p := t[id].component;
      ReportAgrees(root, t, id, finished);
      TasksFromAbove(root, [], p);
      assert p !in finished;
      assert TasksOf(root, []) - (finished + {p}) < TasksOf(root, []) - finished;
      SmallerSet(TasksOf(root, []) - (finished + {p}), TasksOf(root, []) - finished);
      var u := Complete(root, t, id).value;
      var rest := CompletingRun(root, u, finished + {p});
      ids := [id] + rest;
    }
  }

  lemma {:induction false} SmallerSet(a: set<Path>, b: set<Path>)
    requires a < b
    ensures |a| < |b|
  {
    var x :| x in b && x !in a;
    assert b == a + (b - a) && x in b - a;
  }

  /** A run reports only components in turn. */
  lemma {:induction false} ReportedIsLive(root: Component, t: Table, ids: seq<nat>, finished: set<Path>)
    requires Ordered(root) && Agrees(root, t, Settled(finished)) && Legal(root, t, ids)
    ensures forall p | p in Reported(root, t, ids) :: Valid(root, p) && LiveAt(root, p)
    decreases |ids|
  {
    if ids != [] {
      var p := t[ids[0]].component;
      ReportAgrees(root, t, ids[0], finished);
      RowIffStarted(root, t, Settled(finished), p);
      StartedIsLive(root, p, Settled(finished));
      ReportedIsLive(root, Complete(root, t, ids[0]).value, ids[1..], finished + {p});
    }
  }

  /** After this run the root is COMPLETED exactly when every task of the definition was reported. */
  ghost predicate FinishedWithAll(roots: seq<Component>, ids: seq<nat>)
    requires roots != [] && Start(roots).Ok? && Legal(roots[0], Start(roots).value, ids)
  {
    var r := Run(roots[0], Start(roots).value, ids);
    r.Ok? && (Instance([], Completed) in r.value <==> AllTasksIn(roots[0], Reported(roots[0], Start(roots).value, ids)))
  }

  lemma {:induction false} AllLiveFinishes(roots: seq<Component>, ids: seq<nat>)
    requires roots != [] && Ordered(roots[0]) && Start(roots).Ok? && Legal(roots[0], Start(roots).value, ids)
    requires forall p: Path | Valid(roots[0], p) && At(roots[0], p).Task? :: LiveAt(roots[0], p)
    ensures FinishedWithAll(roots, ids)
  {
    EveryRun(roots, ids);
    var root, t := roots[0], Start(roots).value;
    RootCompletedIff(root, Run(root, t, ids).value, Reported(root, t, ids));
  }

  /** With a hidden task there is a run that completes the root and has not reported it. */
  lemma {:induction false} HiddenTaskFinishes(roots: seq<Component>, p: Path) returns (ids: seq<nat>)
    requires roots != [] && Ordered(roots[0])
    requires Valid(roots[0], p) && At(roots[0], p).Task? && !LiveAt(roots[0], p)
    ensures Start(roots).Ok? && Legal(roots[0], Start(roots).value, ids) && Run(roots[0], Start(roots).value, ids).Ok?
    ensures Instance([], Completed) in Run(roots[0], Start(roots).value, ids).value
    ensures p !in Reported(roots[0], Start(roots).value, ids)
  {
    StartAgrees(roots);
    ids := CompletingRun(roots[0], Start(roots).value, {});
    ReportedIsLive(roots[0], Start(roots).value, ids, {});
  }

  /**
   "The root is COMPLETED exactly when every task was reported" holds of every run of a definition if and
   only if no task is hidden behind a sequential sibling of equal `execution_order`.
   */
  lemma {:induction false} FinishedIffAllTasks(roots: seq<Component>)
    requires roots != [] && Ordered(roots[0])
    ensures Start(roots).Ok?
    ensures (forall ids | Legal(roots[0], Start(roots).value, ids) :: FinishedWithAll(roots, ids))
            <==>
            (forall p: Path | Valid(roots[0], p) && At(roots[0], p).Task? :: LiveAt(roots[0], p))
  {
    StartAgrees(roots);
    if p: Path :| Valid(roots[0], p) && At(roots[0], p).Task? && !LiveAt(roots[0], p) {
      var ids := HiddenTaskFinishes(roots, p);
      assert !FinishedWithAll(roots, ids);
    } else {
      forall ids | Legal(roots[0], Start(roots).value, ids)
        ensures FinishedWithAll(roots, ids)
      {
        AllLiveFinishes(roots, ids);
      }
    }
  }

  // -------------------------------------------------------------------------------------------
  // Reporting a task twice
  // -------------------------------------------------------------------------------------------

  function NextOf(root: Component, p: Path): Path
    requires Valid(root, p) && p != []
  {
    Parent(p) + [NextSibling(At(root, Parent(p)).children, Last(p))]
  }

  predicate FollowedByNothing(root: Component, p: Path)
    requires Valid(root, p)
  {
    p == [] || At(root, Parent(p)).strategy.Parallel? ||
    NextSibling(At(root, Parent(p)).children, Last(p)) == |At(root, Parent(p)).children|
  }

  predicate FollowedByTask(root: Component, p: Path)
    requires Valid(root, p)
  {
    !FollowedByNothing(root, p) &&
    At(root, Parent(p)).children[NextSibling(At(root, Parent(p)).children, Last(p))].Task?
  }

  lemma {:induction false} DoneUpTo(c: Component, up: Path, k: nat, next: nat, m: Marking)
    requires c.Container? && c.strategy.Sequential? && k < next <= |c.children|
    requires EarlierDone(c, up, k, m) && Done(c.children[k], up + [k], m)
    requires forall i: nat | k < i < next :: !Live(c, i)
    ensures forall j: nat {:trigger Live(c, j)} | j < next && Live(c, j) :: Done(c.children[j], up + [j], m)
  {
  }

  lemma {:induction false} StartedChild(root: Component, up: Path, k: nat, m: Marking)
    requires Valid(root, up) && At(root, up).Container? && k < |At(root, up).children| && Started(root, up, m)
    requires EarlierDone(At(root, up), up, k, m) && up + [k] !in m.pending
    ensures Valid(root, up + [k]) && Started(root, up + [k], m)
  {
    ChildAt(root, up, k);
  }

  /** Once a sequential child is done, its successor in turn is started, and without one the parent is done. */
  lemma {:induction false} AfterDone(root: Component, up: Path, k: nat, m: Marking)
    requires Ordered(root) && Valid(root, up) && At(root, up).Container? && At(root, up).strategy.Sequential?
    requires k < |At(root, up).children| && Started(root, up, m) && m.pending == {} && m.held == {}
    requires EarlierDone(At(root, up), up, k, m) && Done(At(root, up).children[k], up + [k], m)
    ensures var next := NextSibling(At(root, up).children, k);
            && (next == |At(root, up).children| ==> Done(At(root, up), up, m))
            && (next < |At(root, up).children| ==> Valid(root, up + [next]) && Started(root, up + [next], m))
  {
    var c := At(root, up);
    var next := NextSibling(c.children, k);
    NextAt(root, up, k);
    DoneUpTo(c, up, k, next, m);
    if next < |c.children| {
      StartedChild(root, up, next, m);
    }
  }

  lemma {:induction false} NoActiveRow(root: Component, t: Table, m: Marking, p: Path)
    requires Agrees(root, t, m) && Valid(root, p) && Done(At(root, p), p, m)
    ensures ActiveInstance(t, p, 0).None?
  {
  }

  lemma {:induction false} AllCompleteDone(root: Component, t: Table, m: Marking, p: Path)
    requires Agrees(root, t, m) && Valid(root, p) && At(root, p).Container? && m.pending == {} && m.held == {}
    requires AllChildrenComplete(t, p, |At(root, p).children|)
    ensures Done(At(root, p), p, m)
  {
    var c := At(root, p);
    forall k: nat | k < |c.children| && Live(c, k)
      ensures Done(c.children[k], p + [k], m)
    {
      ChildAt(root, p, k);
      var i :| 0 <= i < |t| && t[i] == Instance(p + [k], Completed);
      assert StatusOf(root, t[i].component, m) == Completed;
    }
  }

  lemma {:induction false} AloneTwice(root: Component, t: Table, id: nat, m: Marking)
    requires Ordered(root) && Agrees(root, t, m) && m.pending == {} && m.held == {}
    requires id < |t| && t[id].status == Completed && FollowedByNothing(root, t[id].component)
    ensures Complete(root, t, id).Err? || Complete(root, t, id) == Ok(t)
  {
    var p := t[id].component;
    assert t[id := Instance(p, Completed)] == t;
    if p != [] {
      var up := Parent(p);
      if At(root, up).strategy.Sequential? {
        DoneInSequence(root, t, id, m);
        NoActiveRow(root, t, m, up);
      } else if AllChildrenComplete(t, up, |At(root, up).children|) {
        AllCompleteDone(root, t, m, up);
        NoActiveRow(root, t, m, up);
      }
    }
  }

  lemma {:induction false} DoneInSequence(root: Component, t: Table, id: nat, m: Marking)
    requires Ordered(root) && Agrees(root, t, m) && m.pending == {} && m.held == {}
    requires id < |t| && t[id].status == Completed && t[id].component != []
    requires At(root, Parent(t[id].component)).strategy.Sequential?
    ensures var p := t[id].component;
            && (FollowedByNothing(root, p) ==> Done(At(root, Parent(p)), Parent(p), m))
            && (!FollowedByNothing(root, p) ==> Valid(root, NextOf(root, p)) && Started(root, NextOf(root, p), m))
  {
    var p := t[id].component;
    assert StatusOf(root, p, m) == Completed && Parent(p) + [Last(p)] == p;
    AfterDone(root, Parent(p), Last(p), m);
  }

  lemma {:induction false} ActivateAddsRow(root: Component, t: Table, p: Path)
    requires Valid(root, p) && Refers(root, t) && Activate(root, t, p).Ok?
    ensures |t| < |Activate(root, t, p).value| && Activate(root, t, p).value[|t|].component == p
  {
    var t1 := t + [Instance(p, InProgress)];
    assert t1[|t|].component == p;
    assert Grows(t1, Activate(root, t, p).value);
  }

  /** What a second report of a completed component does when something follows it in sequence. */
  lemma {:induction false} FollowedTwice(root: Component, t: Table, id: nat, m: Marking)
    requires Ordered(root) && Agrees(root, t, m) && m.pending == {} && m.held == {}
    requires id < |t| && t[id].status == Completed && !FollowedByNothing(root, t[id].component)
    ensures var next := NextOf(root, t[id].component);
            Valid(root, next) && HasRow(t, next) && Complete(root, t, id) == Activate(root, t, next)
  {
    var p := t[id].component;
    assert t[id := Instance(p, Completed)] == t;
    DoneInSequence(root, t, id, m);
    RowIffStarted(root, t, m, NextOf(root, p));
  }

  /** Activating the component ends in waiting tasks on every branch, without meeting an empty container. */
  predicate Waits(c: Component) {
    match c
    case Task(_) => true
    case Container(_, strategy, cs) =>
      cs != [] && if strategy.Parallel? then AllWait(cs) else Waits(cs[0])
  }

  predicate AllWait(cs: seq<Component>) {
    forall k | 0 <= k < |cs| :: Waits(cs[k])
  }

  lemma {:induction false} WaitingActivates(root: Component, t: Table, p: Path)
    requires Valid(root, p) && Refers(root, t) && Waits(At(root, p))
    ensures Activate(root, t, p).Ok?
    decreases At(root, p), 0
  {
    var c := At(root, p);
    if c.Container? {
      var t1 := t + [Instance(p, InProgress)];
      assert t1[|t|].component == p;
      ChildAt(root, p, 0);
      if c.strategy.Parallel? {
        WaitingLoop(root, t1, p, 0);
      } else {
        WaitingActivates(root, t1, p + [0]);
      }
    }
  }

  lemma {:induction false} WaitingLoop(root: Component, t: Table, p: Path, k: nat)
    requires Valid(root, p) && Refers(root, t) && At(root, p).Container? && k <= |At(root, p).children|
    requires AllWait(At(root, p).children)
    ensures ActivateFrom(root, t, p, k).Ok?
    decreases At(root, p), 0, |At(root, p).children| - k
  {
    if k < |At(root, p).children| {
      ChildAt(root, p, k);
      WaitingActivates(root, t, p + [k]);
      var u := Activate(root, t, p + [k]).value;
      WaitingLoop(root, u, p, k + 1);
      UnfoldLoop(root, t, p, k, u);
    }
  }

  /** Every component in turn after child `k` is a container without children. */
  predicate ChildlessAfter(c: Component, k: nat)
    requires c.Container?
  {
    forall j: nat {:trigger Live(c, j)} | k < j < |c.children| && Live(c, j) ::
        c.children[j].Container? && c.children[j].children == []
  }

  /** Empty containers complete each other until the parent, which has no active row any more, is not found. */
  lemma {:induction false} ChildlessFails(root: Component, t: Table, id: nat, up: Path, k: nat)
    requires Ordered(root) && Refers(root, t) && id < |t| && t[id].component == up + [k] && Valid(root, up)
    requires At(root, up).Container? && At(root, up).strategy.Sequential? && k < |At(root, up).children|
    requires ChildlessAfter(At(root, up), k) && ActiveInstance(t, up, 0).None?
    ensures Complete(root, t, id).Err?
    decreases |At(root, up).children| - k
  {
    var c := At(root, up);
    var next := NextSibling(c.children, k);
    var t1 := t[id := Instance(up + [k], Completed)];
    ChildAt(root, up, k);
    NextAt(root, up, k);
    assert Parent(up + [k]) == up && Last(up + [k]) == k;
    NoneActive(t, t1, up);
    if next < |c.children| {
      var t2 := t1 + [Instance(up + [next], InProgress)];
      ChildAt(root, up, next);
      assert Live(c, next);
      assert t2[|t1|].component == up + [next];
      NoneActive(t1, t2, up);
      ChildlessFails(root, t2, |t1|, up, next);
    }
  }

  /** Rows of other components do not make a component active. */
  lemma {:induction false} NoneActive(t: Table, u: Table, p: Path)
    requires ActiveInstance(t, p, 0).None? && |t| <= |u|
    requires forall i | 0 <= i < |u| :: u[i].component == p ==> i < |t| && u[i] == t[i]
    ensures ActiveInstance(u, p, 0).None?
  {
  }

  lemma {:induction false} ChildlessDone(root: Component, t: Table, id: nat, m: Marking)
    requires Ordered(root) && Agrees(root, t, m) && m.pending == {} && m.held == {}
    requires id < |t| && t[id].status == Completed && !FollowedByNothing(root, t[id].component)
    requires ChildlessAfter(At(root, Parent(t[id].component)), Last(t[id].component))
    ensures Complete(root, t, id).Err?
  {
    var p := t[id].component;
    var up, k := Parent(p), Last(p);
    var c := At(root, up);
    assert StatusOf(root, p, m) == Completed && up + [k] == p;
    forall j: nat | j < |c.children| && Live(c, j)
      ensures Done(c.children[j], up + [j], m)
    {
    }
    assert Done(c, up, m);
    NoActiveRow(root, t, m, up);
    ChildlessFails(root, t, id, up, k);
  }

  /**
   `CompleteComponent` does not look at the status it overwrites. Reporting a completed component again
   leaves the table as it was (or fails, and is rolled back) when nothing follows it in sequence. Otherwise
   it activates what follows, which is started already, a second time, and that leaves a second row for it
   unless the activation fails. It succeeds when it ends in waiting tasks without meeting an empty
   container, and fails when only empty containers follow.
   */
  lemma {:induction false} ReportedTwice(root: Component, t: Table, id: nat, finished: set<Path>)
    requires Ordered(root) && Agrees(root, t, Settled(finished)) && id < |t| && t[id].status == Completed
    ensures FollowedByNothing(root, t[id].component) ==> Complete(root, t, id).Err? || Complete(root, t, id) == Ok(t)
    ensures !FollowedByNothing(root, t[id].component) ==>
              var next := NextOf(root, t[id].component);
              && HasRow(t, next)
              && (Complete(root, t, id).Ok? ==>
                    |t| < |Complete(root, t, id).value| && Complete(root, t, id).value[|t|].component == next)
    ensures FollowedByTask(root, t[id].component) ==>
              Complete(root, t, id) == Ok(t + [Instance(NextOf(root, t[id].component), InProgress)])
    ensures !FollowedByNothing(root, t[id].component) ==>
              && Valid(root, NextOf(root, t[id].component))
              && (Waits(At(root, NextOf(root, t[id].component))) ==> Complete(root, t, id).Ok?)
              && (ChildlessAfter(At(root, Parent(t[id].component)), Last(t[id].component)) ==>
                    Complete(root, t, id).Err?)
  {
    var p, m := t[id].component, Settled(finished);
    if FollowedByNothing(root, p) {
      AloneTwice(root, t, id, m);
    } else {
      FollowedTwice(root, t, id, m);
      if Complete(root, t, id).Ok? { ActivateAddsRow(root, t, NextOf(root, p)); }
      if Waits(At(root, NextOf(root, p))) { WaitingActivates(root, t, NextOf(root, p)); }
      if ChildlessAfter(At(root, Parent(p)), Last(p)) { ChildlessDone(root, t, id, m); }
      ChildAt(root, Parent(p), NextSibling(At(root, Parent(p)).children, Last(p)));
    }
  }
}
