/**
 The recursive workflow engine: activation and completion cascade over the component tree while
 rows are appended to and updated in the `component_instances` table.

 `Activate` and `Complete` are the two mutually recursive procedures as functions of the table; the
 class `Engine` runs them on a table it owns. That every run stores exactly `StatusOf`, whatever the
 order of completions, is proved in `WorkflowRuns` and `WorkflowLaws`.
 */
module WorkflowEngine {
  import opened Outcomes
  import opened WorkflowTree

  /** A row of `component_instances`; its id is its index in the table. */
  datatype Instance = Instance(component: Path, status: Status)

  type Table = seq<Instance>

  /** Every row refers to a component of the definition (the foreign key). */
  predicate Refers(root: Component, t: Table) {
    forall i | 0 <= i < |t| :: Valid(root, t[i].component)
  }

  // -------------------------------------------------------------------------------------------
  // Repository queries
  // -------------------------------------------------------------------------------------------

  /** `GetActiveInstanceID`: some IN_PROGRESS row of the component, here the first. */
  function ActiveInstance(t: Table, p: Path, from: nat): (r: Option<nat>)
    requires from <= |t|
    ensures r.Some? ==> from <= r.value < |t| && t[r.value] == Instance(p, InProgress)
    ensures r.None? ==> forall i | from <= i < |t| :: t[i] != Instance(p, InProgress)
    decreases |t| - from
  {
    if from == |t| then None
    else if t[from] == Instance(p, InProgress) then Some(from)
    else ActiveInstance(t, p, from + 1)
  }

  /** `AreAllChildrenComplete`: every defined child has a COMPLETED row. */
  predicate AllChildrenComplete(t: Table, p: Path, count: nat) {
    forall k: nat | k < count :: Instance(p + [k], Completed) in t
  }

  // -------------------------------------------------------------------------------------------
  // Termination: every call moves forward in the tour that enters and leaves each component once
  // -------------------------------------------------------------------------------------------

  ghost function Size(c: Component): (n: nat)
    ensures n >= 2
    decreases c, 0
  {
    match c
    case Task(_) => 2
    case Container(_, _, cs) => 2 + SizeTo(cs, |cs|)
  }

  ghost function SizeTo(cs: seq<Component>, k: nat): nat
    requires k <= |cs|
    decreases cs, k
  {
    if k == 0 then 0 else SizeTo(cs, k - 1) + Size(cs[k - 1])
  }

  lemma SizeToMonotone(cs: seq<Component>, j: nat, k: nat)
    requires j <= k <= |cs|
    ensures SizeTo(cs, j) <= SizeTo(cs, k)
  {
  }

  ghost function Enter(root: Component, p: Path): nat
    requires Valid(root, p)
    decreases |p|
  {
    if p == [] then 0
    else Enter(root, Parent(p)) + 1 + SizeTo(At(root, Parent(p)).children, Last(p))
  }

  ghost function Leave(root: Component, p: Path): nat
    requires Valid(root, p)
  {
    Enter(root, p) + Size(At(root, p)) - 1
  }

  lemma {:induction false} TourBounds(root: Component, p: Path)
    requires Valid(root, p)
    ensures Enter(root, p) < Leave(root, p) < Size(root)
    ensures p != [] ==> Enter(root, Parent(p)) < Enter(root, p) && Leave(root, p) < Leave(root, Parent(p))
    decreases |p|
  {
    if p != [] {
      TourBounds(root, Parent(p));
      var cs := At(root, Parent(p)).children;
      SizeToMonotone(cs, Last(p) + 1, |cs|);
    }
  }

  lemma {:induction false} TourForward(root: Component, p: Path, j: nat, k: nat)
    requires Valid(root, p) && At(root, p).Container? && j < k < |At(root, p).children|
    ensures Valid(root, p + [j]) && Valid(root, p + [k])
    ensures Leave(root, p + [j]) < Enter(root, p + [k])
  {
    ChildAt(root, p, j);
    ChildAt(root, p, k);
    SizeToMonotone(At(root, p).children, j + 1, k);
  }

  /** Rows are never removed or moved to another component, and COMPLETED is never undone. */
  ghost predicate Grows(t: Table, u: Table) {
    && |t| <= |u|
    && (forall i | 0 <= i < |t| ::
          && u[i].component == t[i].component
          && (t[i].status == Completed ==> u[i].status == Completed))
  }

  // -------------------------------------------------------------------------------------------
  // The two procedures
  // -------------------------------------------------------------------------------------------

  function Activate(root: Component, t: Table, p: Path): (r: Result<Table>)
    requires Valid(root, p) && Refers(root, t)
    ensures r.Ok? ==> Refers(root, r.value) && Grows(t, r.value)
    decreases Size(root) - Enter(root, p), 0
  {
    var t1 := t + [Instance(p, InProgress)];
    assert t1[|t|].component == p;
    TourBounds(root, p);
    match At(root, p)
    case Task(_) => Ok(t1)
    case Container(_, strategy, cs) =>
      if cs == [] then Complete(root, t1, |t|)
      else
        assert Valid(root, p + [0]) && Enter(root, p) < Enter(root, p + [0]) < Size(root) by {
          ChildAt(root, p, 0);
          TourBounds(root, p + [0]);
        }
        if strategy.Parallel? then ActivateFrom(root, t1, p, 0)
        else Activate(root, t1, p + [0])
  }

  /** The loop over the children of a parallel container, from child `k` on. */
  function ActivateFrom(root: Component, t: Table, p: Path, k: nat): (r: Result<Table>)
    requires Valid(root, p) && Refers(root, t) && At(root, p).Container? && k <= |At(root, p).children|
    ensures r.Ok? ==> Refers(root, r.value) && Grows(t, r.value)
    decreases Size(root) - Enter(root, p) - 1, |At(root, p).children| - k + 1
  {
    if k == |At(root, p).children| then Ok(t)
    else
      assert Valid(root, p + [k]) && Enter(root, p) < Enter(root, p + [k]) < Size(root) by {
        ChildAt(root, p, k);
        TourBounds(root, p + [k]);
      }
      var t1 :- Activate(root, t, p + [k]);
      ActivateFrom(root, t1, p, k + 1)
  }

  ghost function Remaining(root: Component, t: Table, id: nat): int
    requires Refers(root, t)
  {
    if id < |t| then Size(root) - Leave(root, t[id].component) else 0
  }

  function Complete(root: Component, t: Table, id: nat): (r: Result<Table>)
    requires Refers(root, t)
    ensures r.Ok? ==> Refers(root, r.value) && Grows(t, r.value)
    decreases Remaining(root, t, id), 0
  {
    if id >= |t| then Err("failed to fetch instance")
    else
      var p := t[id].component;
      var t1 := t[id := Instance(p, Completed)];
      TourBounds(root, p);
      if p == [] then Ok(t1)
      else
        var parent := At(root, Parent(p));
        TourBounds(root, Parent(p));
        if parent.strategy.Sequential? then
          var next := NextSibling(parent.children, Last(p));
          if next < |parent.children| then
            assert Valid(root, Parent(p) + [next]) && Leave(root, p) < Enter(root, Parent(p) + [next]) < Size(root) by {
              assert Parent(p) + [Last(p)] == p;
              TourForward(root, Parent(p), Last(p), next);
              TourBounds(root, Parent(p) + [next]);
            }
            Activate(root, t1, Parent(p) + [next])
          else CompleteParent(root, t1, Parent(p))
        else if AllChildrenComplete(t1, Parent(p), |parent.children|) then CompleteParent(root, t1, Parent(p))
        else Ok(t1)
  }

  function CompleteParent(root: Component, t: Table, p: Path): (r: Result<Table>)
    requires Valid(root, p) && Refers(root, t)
    ensures r.Ok? ==> Refers(root, r.value) && Grows(t, r.value)
    decreases Size(root) - Leave(root, p), 1
  {
    TourBounds(root, p);
    match ActiveInstance(t, p, 0)
    case None => Err("failed to find parent instance")
    case Some(id) => Complete(root, t, id)
  }

  /** `StartRecursiveWorkflow` starts the first root; further roots are never started. */
  function Start(roots: seq<Component>): (r: Result<Table>)
    ensures r.Ok? ==> roots != [] && Refers(roots[0], r.value)
  {
    if roots == [] then Err("no root components found") else Activate(roots[0], [], [])
  }

  // -------------------------------------------------------------------------------------------
  // The engine over its own table
  // -------------------------------------------------------------------------------------------

  /**
   One case's execution of a definition. A method that returns false has met an error; its caller
   then rolls the transaction back, so nothing is promised about the table in that case.
   */
  class Engine {
    const root: Component
    var instances: Table

    constructor (root: Component)
      ensures this.root == root && instances == []
    {
      this.root := root;
      instances := [];
    }

    method ActivateComponent(p: Path) returns (ok: bool)
      requires Valid(root, p) && Refers(root, instances)
      modifies this
      ensures ok <==> Activate(root, old(instances), p).Ok?
      ensures ok ==> instances == Activate(root, old(instances), p).value
      decreases Size(root) - Enter(root, p), 1
    {
      var id := |instances|;
      instances := instances + [Instance(p, InProgress)];
      assert instances[id].component == p;
      TourBounds(root, p);
      var component := At(root, p);
      if component.Task? {
        return true;
      }
      var count := |component.children|;
      if count == 0 {
        ok := CompleteComponent(id);
        return;
      }
      if component.strategy.Parallel? {
        var k := 0;
        while k < count
          invariant 0 <= k <= count && Refers(root, instances)
          invariant Activate(root, old(instances), p) == ActivateFrom(root, instances, p, k)
        {
          ChildAt(root, p, k);
          TourBounds(root, p + [k]);
          ok := ActivateComponent(p + [k]);
          if !ok {
            return false;
          }
          k := k + 1;
        }
        return true;
      }
      ChildAt(root, p, 0);
      TourBounds(root, p + [0]);
      ok := ActivateComponent(p + [0]);
    }

    method CompleteComponent(id: nat) returns (ok: bool)
      requires Refers(root, instances)
      modifies this
      ensures ok <==> Complete(root, old(instances), id).Ok?
      ensures ok ==> instances == Complete(root, old(instances), id).value
      decreases Remaining(root, instances, id), 1
    {
      if id >= |instances| {
        return false;
      }
      var p := instances[id].component;
      instances := instances[id := Instance(p, Completed)];
      TourBounds(root, p);
      if p == [] {
        return true;
      }
      var parent := At(root, Parent(p));
      TourBounds(root, Parent(p));
      if parent.strategy.Sequential? {
        var next := NextSibling(parent.children, Last(p));
        if next < |parent.children| {
          assert Parent(p) + [Last(p)] == p;
          TourForward(root, Parent(p), Last(p), next);
          TourBounds(root, Parent(p) + [next]);
          ok := ActivateComponent(Parent(p) + [next]);
          return;
        }
      } else if !AllChildrenComplete(instances, Parent(p), |parent.children|) {
        return true;
      }
      var active := ActiveInstance(instances, Parent(p), 0);
      if active.None? {
        return false;
      }
      ok := CompleteComponent(active.value);
    }
  }
}
