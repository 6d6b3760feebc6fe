/**
 A workflow definition as a tree of components, and what a set of finished tasks means for it.

 A component is named by its path from the root: the root is `[]` and child `k` of `p` is
 `p + [k]`, where children are listed as `GetChildren` lists them, by `execution_order`.
 The meaning of a run is given by `Status`, a recursive function of the tree and a `Marking`;
 the engine (module WorkflowEngine) is proved to store exactly that function.
 */
module WorkflowTree {

  datatype Strategy = Sequential | Parallel

  datatype Component =
    | Task(order: int)
    | Container(order: int, strategy: Strategy, children: seq<Component>)

  datatype Status = Pending | InProgress | Completed

  type Path = seq<nat>

  /** Children are listed by `execution_order`; equal orders are allowed, the schema does not forbid them. */
  ghost predicate Ordered(c: Component) {
    c.Container? ==>
      && (forall i, j | 0 <= i < j < |c.children| :: c.children[i].order <= c.children[j].order)
      && (forall i | 0 <= i < |c.children| :: Ordered(c.children[i]))
  }

  function Parent(p: Path): Path
    requires p != []
  {
    p[..|p| - 1]
  }

  function Last(p: Path): nat
    requires p != []
  {
    p[|p| - 1]
  }

  predicate Valid(root: Component, p: Path)
    decreases |p|, 0
  {
    p == [] || (Valid(root, Parent(p)) && At(root, Parent(p)).Container? && Last(p) < |At(root, Parent(p)).children|)
  }

  function At(root: Component, p: Path): Component
    requires Valid(root, p)
    decreases |p|, 1
  {
    if p == [] then root else At(root, Parent(p)).children[Last(p)]
  }

  lemma {:induction false} ChildAt(root: Component, p: Path, k: nat)
    requires Valid(root, p) && At(root, p).Container? && k < |At(root, p).children|
    ensures Parent(p + [k]) == p && Last(p + [k]) == k
    ensures Valid(root, p + [k]) && At(root, p + [k]) == At(root, p).children[k]
  {
    assert Parent(p + [k]) == p;
  }

  lemma {:induction false} OrderedAt(root: Component, p: Path)
    requires Ordered(root) && Valid(root, p)
    ensures Ordered(At(root, p))
    decreases |p|
  {
    if p != [] {
      OrderedAt(root, Parent(p));
    }
  }

  // -------------------------------------------------------------------------------------------
  // Next sibling: the first child whose order is strictly greater
  // -------------------------------------------------------------------------------------------

  /** The index `GetNextSibling` finds, or `|cs|` when it finds no row. */
  function NextSibling(cs: seq<Component>, k: nat): (j: nat)
    requires k < |cs|
    ensures k < j <= |cs|
    ensures j < |cs| ==> cs[k].order < cs[j].order
    ensures forall i | k < i < j :: cs[i].order <= cs[k].order
  {
    NextFrom(cs, k, k + 1)
  }

  function NextFrom(cs: seq<Component>, k: nat, j: nat): (r: nat)
    requires k < j <= |cs|
    ensures j <= r <= |cs|
    ensures r < |cs| ==> cs[k].order < cs[r].order
    ensures forall i | j <= i < r :: cs[i].order <= cs[k].order
    decreases |cs| - j
  {
    if j == |cs| || cs[k].order < cs[j].order then j else NextFrom(cs, k, j + 1)
  }

  /** A child that the strategy can ever reach: among sequential siblings of equal order only the first is. */
  predicate Live(c: Component, k: nat)
    requires c.Container? && k < |c.children|
  {
    c.strategy.Parallel? || k == 0 || c.children[k - 1].order < c.children[k].order
  }

  lemma {:induction false} NextIsNextLive(c: Component, k: nat)
    requires Ordered(c) && c.Container? && c.strategy.Sequential? && k < |c.children|
    ensures var j := NextSibling(c.children, k);
            && (j < |c.children| ==> Live(c, j))
            && (forall i | k < i < j :: !Live(c, i))
  {
    var j := NextSibling(c.children, k);
    forall i | k < i < j
      ensures !Live(c, i)
    {
      assert c.children[k].order <= c.children[i - 1].order;
    }
  }

  lemma {:induction false} NextAt(root: Component, p: Path, k: nat)
    requires Ordered(root) && Valid(root, p)
    requires At(root, p).Container? && At(root, p).strategy.Sequential? && k < |At(root, p).children|
    ensures var c, j := At(root, p), NextSibling(At(root, p).children, k);
            && (j < |c.children| ==> Live(c, j))
            && (forall i | k < i < j :: !Live(c, i))
  {
    OrderedAt(root, p);
    NextIsNextLive(At(root, p), k);
  }

  // -------------------------------------------------------------------------------------------
  // Meaning
  // -------------------------------------------------------------------------------------------

  /**
   What a moment of a run has decided: `finished` are the tasks reported complete, `pending` are
   components an enclosing loop is still going to activate, and `held` are components whose children
   are done but which are not yet marked. Between engine calls only `finished` is nonempty.
   */
  datatype Marking = Marking(finished: set<Path>, pending: set<Path>, held: set<Path>)

  function Settled(finished: set<Path>): Marking {
    Marking(finished, {}, {})
  }

  ghost predicate Done(c: Component, p: Path, m: Marking)
    decreases c
  {
    && p !in m.pending
    && p !in m.held
    && match c
       case Task(_) => p in m.finished
       case Container(_, _, cs) => forall k: nat {:trigger Live(c, k)} | k < |cs| && Live(c, k) ::
           Done(cs[k], p + [k], m)
  }

  ghost predicate Started(root: Component, p: Path, m: Marking)
    requires Valid(root, p)
    decreases |p|
  {
    && p !in m.pending
    && (p != [] ==>
          && Started(root, Parent(p), m)
          && EarlierDone(At(root, Parent(p)), Parent(p), Last(p), m))
  }

  /** Child `k` of a started container may be started: always in parallel, in turn when sequential. */
  ghost predicate EarlierDone(c: Component, p: Path, k: nat, m: Marking)
    requires c.Container? && k < |c.children|
  {
    && Live(c, k)
    && (c.strategy.Sequential? ==>
          forall j: nat {:trigger Live(c, j)} | j < k && Live(c, j) :: Done(c.children[j], p + [j], m))
  }

  ghost function StatusOf(root: Component, p: Path, m: Marking): Status
    requires Valid(root, p)
  {
    if !Started(root, p, m) then Pending
    else if Done(At(root, p), p, m) then Completed
    else InProgress
  }

  // -------------------------------------------------------------------------------------------
  // Frame: what a change below one path can and cannot affect
  // -------------------------------------------------------------------------------------------

  ghost predicate SameOn(m: Marking, n: Marking, p: Path) {
    && (p in m.finished <==> p in n.finished)
    && (p in m.pending <==> p in n.pending)
    && (p in m.held <==> p in n.held)
  }

  ghost predicate SameOff(m: Marking, n: Marking, p: Path) {
    forall r: Path | !(p <= r) :: SameOn(m, n, r)
  }

  ghost predicate SameBelow(m: Marking, n: Marking, p: Path) {
    forall r: Path | p < r :: SameOn(m, n, r)
  }

  /** Whether a component is done depends only on the markings of its own subtree. */
  lemma {:induction false} DoneLocal(c: Component, p: Path, m: Marking, n: Marking)
    requires SameOn(m, n, p) && SameBelow(m, n, p)
    ensures Done(c, p, m) == Done(c, p, n)
    decreases c
  {
    if c.Container? {
      forall k: nat | k < |c.children|
        ensures Done(c.children[k], p + [k], m) == Done(c.children[k], p + [k], n)
      {
        DoneLocal(c.children[k], p + [k], m, n);
      }
    }
  }

  lemma {:induction false} PrefixOfChild(p: Path, q: Path, k: nat)
    requires p < q + [k]
    ensures p <= q
  {
    assert p == (q + [k])[..|p|] == q[..|p|];
  }

  /** If two markings agree outside `p` and on whether `p` is done, they agree on every component not below `p`. */
  lemma {:induction false} DoneFrame(root: Component, p: Path, m: Marking, n: Marking, q: Path)
    requires Valid(root, p) && Valid(root, q) && SameOff(m, n, p) && !(p < q)
    requires Done(At(root, p), p, m) == Done(At(root, p), p, n)
    ensures Done(At(root, q), q, m) == Done(At(root, q), q, n)
    decreases At(root, q)
  {
    var c := At(root, q);
    assert q != p ==> SameOn(m, n, q);
    if q != p && c.Container? {
      forall k: nat | k < |c.children|
        ensures Done(c.children[k], q + [k], m) == Done(c.children[k], q + [k], n)
      {
        ChildAt(root, q, k);
        if p < q + [k] {
          PrefixOfChild(p, q, k);
        }
        DoneFrame(root, p, m, n, q + [k]);
      }
    }
  }

  lemma {:induction false} StartedFrame(root: Component, p: Path, m: Marking, n: Marking, q: Path)
    requires Valid(root, p) && Valid(root, q) && SameOff(m, n, p)
    requires Done(At(root, p), p, m) == Done(At(root, p), p, n)
    requires !(p <= q) || (p == q && (p in m.pending <==> p in n.pending))
    ensures Started(root, q, m) == Started(root, q, n)
    decreases |q|
  {
    assert p != q ==> SameOn(m, n, q);
    if q != [] {
      var up, k := Parent(q), Last(q);
      assert !(p <= up);
      StartedFrame(root, p, m, n, up);
      var c := At(root, up);
      forall j: nat | j < |c.children|
        ensures Done(c.children[j], up + [j], m) == Done(c.children[j], up + [j], n)
      {
        ChildAt(root, up, j);
        if p < up + [j] {
          PrefixOfChild(p, up, j);
        }
        DoneFrame(root, p, m, n, up + [j]);
      }
    }
  }

  /** Below a component on which two markings agree, being started is the same in both. */
  lemma {:induction false} StartedBelow(root: Component, a: Path, m: Marking, n: Marking, q: Path)
    requires Valid(root, a) && Valid(root, q) && a <= q && SameBelow(m, n, a)
    requires Started(root, a, m) == Started(root, a, n)
    ensures Started(root, q, m) == Started(root, q, n)
    decreases |q|
  {
    if q != a {
      var up := Parent(q);
      assert a <= up && SameOn(m, n, q);
      StartedBelow(root, a, m, n, up);
      var c := At(root, up);
      forall j: nat | j < |c.children|
        ensures Done(c.children[j], up + [j], m) == Done(c.children[j], up + [j], n)
      {
        DoneLocal(c.children[j], up + [j], m, n);
      }
    }
  }

  lemma {:induction false} UnstartedBelow(root: Component, a: Path, m: Marking, q: Path)
    requires Valid(root, a) && Valid(root, q) && a <= q && !Started(root, a, m)
    ensures !Started(root, q, m)
    decreases |q|
  {
    if q != a {
      assert a <= Parent(q);
      UnstartedBelow(root, a, m, Parent(q));
    }
  }

  lemma {:induction false} ValidPrefix(root: Component, a: Path, q: Path)
    requires Valid(root, q) && a <= q
    ensures Valid(root, a)
    ensures a < q ==> At(root, a).Container? && q[|a|] < |At(root, a).children| && a + [q[|a|]] <= q
    decreases |q|
  {
    if a == q {
    } else if a == Parent(q) {
      assert a + [q[|a|]] == q;
    } else {
      assert a <= Parent(q);
      ValidPrefix(root, a, Parent(q));
    }
  }
}
