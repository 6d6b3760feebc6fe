/**
 Documents as the code holds them: maps that refer to each other and are changed in place through a
 reference that moves down a path. The tree they form changes as the path functions say.
 */
module DocumentStore {
  import opened Outcomes
  import opened Texts
  import opened CanonicalJson
  import opened DocumentPaths
  import opened Redaction

  /** What a map holds under a key: a value that is no object, or a reference to another map. */
  datatype Slot = Leaf(v: Json) | Ref(id: nat)

  type Nodes = map<nat, map<string, Slot>>

  /** The maps by identity, the next free identity, and the path at which each map was put. */
  datatype Heap = Heap(nodes: Nodes, next: nat, home: map<nat, Path>)

  const ROOT: nat := 0

  ghost predicate SlotOk(h: Heap, id: nat, k: string, slot: Slot)
    requires id in h.home
  {
    match slot
    case Leaf(v) => !v.Obj?
    case Ref(c) => c in h.nodes && id < c && c in h.home && h.home[c] == h.home[id] + [k]
  }

  /** References lead to later maps and to the path they stand for, so that the maps form a tree. */
  ghost predicate Wf(h: Heap) {
    && h.home.Keys == h.nodes.Keys && ROOT in h.nodes && h.home[ROOT] == []
    && (forall id | id in h.nodes :: id < h.next)
    && (forall id, k | id in h.nodes && k in h.nodes[id] :: SlotOk(h, id, k, h.nodes[id][k]))
  }

  ghost function TreeOf(h: Heap, id: nat): Fields
    requires Wf(h) && id in h.nodes
    decreases h.next - id, 1
  {
    map k | k in h.nodes[id] :: (assert SlotOk(h, id, k, h.nodes[id][k]); ValueOf(h, id, h.nodes[id][k]))
  }

  ghost function ValueOf(h: Heap, id: nat, slot: Slot): Json
    requires Wf(h) && id in h.nodes && (slot.Ref? ==> slot.id in h.nodes && id < slot.id)
    decreases h.next - id, 0
  {
    match slot
    case Leaf(v) => v
    case Ref(c) => Obj(TreeOf(h, c))
  }

  /** The map that a path of references leads to. */
  ghost predicate Leads(h: Heap, id: nat, p: Path, c: nat)
    requires Wf(h) && id in h.nodes
    decreases |p|
  {
    if p == [] then id == c
    else
      && p[0] in h.nodes[id] && h.nodes[id][p[0]].Ref?
      && (assert SlotOk(h, id, p[0], h.nodes[id][p[0]]); Leads(h, h.nodes[id][p[0]].id, p[1..], c))
  }

  lemma {:induction false} LeadsHome(h: Heap, id: nat, p: Path, c: nat)
    requires Wf(h) && id in h.nodes && Leads(h, id, p, c)
    ensures c in h.nodes && id <= c && h.home[c] == h.home[id] + p
    decreases |p|
  {
    if p != [] {
      var d := h.nodes[id][p[0]].id;
      assert SlotOk(h, id, p[0], h.nodes[id][p[0]]);
      LeadsHome(h, d, p[1..], c);
      assert h.home[id] + [p[0]] + p[1..] == h.home[id] + p;
    } else {
      assert h.home[id] + p == h.home[id];
    }
  }

  /** Only the map `c` differs, and everything new lies behind it. */
  ghost predicate Differs(h: Heap, g: Heap, c: nat) {
    && Wf(h) && Wf(g) && c in h.nodes
    && (forall id | id in h.nodes ::
          id in g.nodes && g.home[id] == h.home[id] && (id != c ==> g.nodes[id] == h.nodes[id]))
  }

  /** A map whose path does not lead to `c` looks the same. */
  lemma {:induction false} TreeSame(h: Heap, g: Heap, c: nat, id: nat)
    requires Differs(h, g, c) && id in h.nodes && !(h.home[id] <= h.home[c])
    ensures TreeOf(g, id) == TreeOf(h, id)
    decreases h.next - id
  {
    assert id != c;
    forall k | k in h.nodes[id]
      ensures ValueOf(g, id, g.nodes[id][k]) == ValueOf(h, id, h.nodes[id][k])
    {
      assert SlotOk(h, id, k, h.nodes[id][k]);
      if h.nodes[id][k].Ref? {
        var d := h.nodes[id][k].id;
        assert h.home[id] <= h.home[d];
        TreeSame(h, g, c, d);
      }
    }
  }

  /** `fields` with what stands at a path of objects replaced. */
  ghost function Graft(fields: Fields, p: Path, sub: Fields): Fields
    decreases |p|
  {
    if p == [] then sub
    else if p[0] in fields && fields[p[0]].Obj? then fields[p[0] := Obj(Graft(fields[p[0]].fields, p[1..], sub))]
    else fields
  }

  lemma NotOnTheWay(h: Heap, id: nat, k: string, l: string, p: Path, c: nat)
    requires id in h.home && c in h.home && h.home[c] == h.home[id] + p && p != [] && p[0] == l && k != l
    ensures !(h.home[id] + [k] <= h.home[c])
  {
    var n := |h.home[id]|;
    assert h.home[c][n] == l && (h.home[id] + [k])[n] == k;
  }

  /** The maps beside the path look the same. */
  lemma SiblingsSame(h: Heap, g: Heap, id: nat, p: Path, c: nat)
    requires Differs(h, g, c) && id in h.nodes && p != [] && Leads(h, id, p, c) && id != c
    ensures TreeOf(g, id) - {p[0]} == TreeOf(h, id) - {p[0]}
  {
    LeadsHome(h, id, p, c);
    forall k | k in h.nodes[id] && k != p[0]
      ensures TreeOf(g, id)[k] == TreeOf(h, id)[k]
    {
      assert SlotOk(h, id, k, h.nodes[id][k]) && SlotOk(g, id, k, g.nodes[id][k]);
      if h.nodes[id][k].Ref? {
        NotOnTheWay(h, id, k, p[0], p, c);
        TreeSame(h, g, c, h.nodes[id][k].id);
      }
    }
  }

  /** Changing one map in place changes the tree at the path that leads to it, and nowhere else. */
  lemma {:induction false} TreeGraft(h: Heap, g: Heap, id: nat, p: Path, c: nat)
    requires Differs(h, g, c) && id in h.nodes && Leads(h, id, p, c)
    ensures TreeOf(g, id) == Graft(TreeOf(h, id), p, TreeOf(g, c))
    decreases |p|
  {
    if p != [] {
      var d := h.nodes[id][p[0]].id;
      assert SlotOk(h, id, p[0], h.nodes[id][p[0]]);
      LeadsHome(h, d, p[1..], c);
      TreeGraft(h, g, d, p[1..], c);
      SiblingsSame(h, g, id, p, c);
      RefTree(h, id, p[0], d);
      RefTree(g, id, p[0], d);
      WithKey(TreeOf(g, id), TreeOf(h, id), p[0], Obj(TreeOf(g, d)));
    }
  }

  lemma {:induction false} LeadsGet(h: Heap, id: nat, p: Path, c: nat)
    requires Wf(h) && id in h.nodes && Leads(h, id, p, c)
    ensures c in h.nodes && Get(Obj(TreeOf(h, id)), p) == Some(Obj(TreeOf(h, c)))
    decreases |p|
  {
    if p != [] {
      assert SlotOk(h, id, p[0], h.nodes[id][p[0]]);
      LeadsGet(h, h.nodes[id][p[0]].id, p[1..], c);
    }
  }

  lemma {:induction false} GraftIsSet(fields: Fields, p: Path, sub: Fields, k: string, v: Json)
    requires Get(Obj(fields), p) == Some(Obj(sub))
    ensures Graft(fields, p, sub[k := v]) == Set(fields, p + [k], v)
    decreases |p|
  {
    if p != [] {
      assert (p + [k])[1..] == p[1..] + [k];
      GraftIsSet(fields[p[0]].fields, p[1..], sub, k, v);
    }
  }

  lemma {:induction false} GraftIsDelete(fields: Fields, p: Path, sub: Fields, k: string)
    requires Get(Obj(fields), p) == Some(Obj(sub))
    ensures Graft(fields, p, sub - {k}) == Delete(fields, p + [k])
    decreases |p|
  {
    if p != [] {
      assert (p + [k])[1..] == p[1..] + [k];
      GraftIsDelete(fields[p[0]].fields, p[1..], sub, k);
    }
  }

  /** Putting an empty object where the path is blocked does not change what is written at its end. */
  lemma {:induction false} SetThroughEmpty(fields: Fields, p: Path, q: Path, v: Json)
    requires p != [] && q != [] && !(Get(Obj(fields), p).Some? && Get(Obj(fields), p).value.Obj?)
    ensures Set(Set(fields, p, Obj(map[])), p + q, v) == Set(fields, p + q, v)
    decreases |p|
  {
    var k := p[0];
    var emptied := Set(fields, p, Obj(map[]));
    assert (p + q)[1..] == p[1..] + q;
    if |p| > 1 {
      SetThroughEmpty(ChildAt(fields, k), p[1..], q, v);
      assert ChildAt(emptied, k) == Set(ChildAt(fields, k), p[1..], Obj(map[]));
    } else {
      assert p[1..] + q == q;
      assert ChildAt(emptied, k) == ChildAt(fields, k) == map[];
    }
    Overwrite(fields, k, emptied[k], Obj(Set(ChildAt(fields, k), p[1..] + q, v)));
  }

  lemma Overwrite(m: Fields, k: string, v: Json, w: Json)
    ensures m[k := v][k := w] == m[k := w]
  {
  }

  // -------------------------------------------------------------------------------------------
  // The three changes of one map
  // -------------------------------------------------------------------------------------------

  /** What a slot of the changed map stood for, it still stands for. */
  lemma SlotSame(h: Heap, g: Heap, c: nat, k: string)
    requires Differs(h, g, c) && k in h.nodes[c] && k in g.nodes[c] && g.nodes[c][k] == h.nodes[c][k]
    ensures SlotOk(h, c, k, h.nodes[c][k]) && SlotOk(g, c, k, h.nodes[c][k])
    ensures ValueOf(g, c, h.nodes[c][k]) == ValueOf(h, c, h.nodes[c][k])
  {
    assert SlotOk(h, c, k, h.nodes[c][k]) && SlotOk(g, c, k, g.nodes[c][k]);
    if h.nodes[c][k].Ref? {
      var d := h.nodes[c][k].id;
      assert |h.home[d]| > |h.home[c]|;
      TreeSame(h, g, c, d);
    }
  }

  /** The map changed under one key only, and so did the tree. */
  lemma TreeButKey(h: Heap, g: Heap, c: nat, k: string)
    requires Differs(h, g, c) && g.nodes[c] - {k} == h.nodes[c] - {k}
    ensures TreeOf(g, c) - {k} == TreeOf(h, c) - {k}
  {
    assert (g.nodes[c] - {k}).Keys == (h.nodes[c] - {k}).Keys;
    forall l | l in h.nodes[c] && l != k
      ensures l in g.nodes[c] && TreeOf(g, c)[l] == TreeOf(h, c)[l]
    {
      assert l in h.nodes[c] - {k} && l in g.nodes[c] - {k} && (g.nodes[c] - {k})[l] == (h.nodes[c] - {k})[l];
      SlotSame(h, g, c, l);
    }
    forall l | l in g.nodes[c] && l != k
      ensures l in h.nodes[c]
    {
      assert l in g.nodes[c] - {k};
    }
  }

  lemma ButKey<V>(m: map<string, V>, k: string, v: V)
    ensures m[k := v] - {k} == m - {k} && m - {k} - {k} == m - {k}
    ensures k !in m ==> m - {k} == m
  {
  }

  lemma WithKey(m: Fields, n: Fields, k: string, v: Json)
    requires m - {k} == n - {k} && k in m && m[k] == v
    ensures m == n[k := v]
  {
    assert m == (m - {k})[k := v];
    assert n[k := v] == (n - {k})[k := v];
  }

  ghost function Written(h: Heap, c: nat, k: string, v: Json): Heap
    requires c in h.nodes
  {
    h.(nodes := h.nodes[c := h.nodes[c][k := Leaf(v)]])
  }

  lemma WrittenWf(h: Heap, c: nat, k: string, v: Json)
    requires Wf(h) && c in h.nodes && !v.Obj?
    ensures Differs(h, Written(h, c, k, v), c)
  {
    var g := Written(h, c, k, v);
    forall id, l | id in g.nodes && l in g.nodes[id]
      ensures SlotOk(g, id, l, g.nodes[id][l])
    {
      if id != c || l != k { assert SlotOk(h, id, l, h.nodes[id][l]); }
    }
  }

  lemma WrittenTree(h: Heap, c: nat, k: string, v: Json)
    requires Wf(h) && c in h.nodes && !v.Obj?
    ensures var g := Written(h, c, k, v); Differs(h, g, c) && TreeOf(g, c) == TreeOf(h, c)[k := v]
  {
    var g := Written(h, c, k, v);
    WrittenWf(h, c, k, v);
    ButKey(h.nodes[c], k, Leaf(v));
    TreeButKey(h, g, c, k);
    WithKey(TreeOf(g, c), TreeOf(h, c), k, v);
  }

  ghost function Removed(h: Heap, c: nat, k: string): Heap
    requires c in h.nodes
  {
    h.(nodes := h.nodes[c := h.nodes[c] - {k}])
  }

  lemma RemovedWf(h: Heap, c: nat, k: string)
    requires Wf(h) && c in h.nodes
    ensures Differs(h, Removed(h, c, k), c)
  {
    var g := Removed(h, c, k);
    forall id, l | id in g.nodes && l in g.nodes[id]
      ensures SlotOk(g, id, l, g.nodes[id][l])
    {
      assert SlotOk(h, id, l, h.nodes[id][l]);
    }
  }

  lemma RemovedTree(h: Heap, c: nat, k: string)
    requires Wf(h) && c in h.nodes
    ensures var g := Removed(h, c, k); Differs(h, g, c) && TreeOf(g, c) == TreeOf(h, c) - {k}
  {
    var g := Removed(h, c, k);
    RemovedWf(h, c, k);
    ButKey(h.nodes[c], k, Leaf(Null));
    TreeButKey(h, g, c, k);
    ButKey(TreeOf(g, c), k, Null);
  }

  /** A new empty map under a key. */
  ghost function Extended(h: Heap, c: nat, k: string): Heap
    requires c in h.nodes && c in h.home
  {
    Heap(h.nodes[c := h.nodes[c][k := Ref(h.next)]][h.next := map[]], h.next + 1, h.home[h.next := h.home[c] + [k]])
  }

  lemma ExtendedWf(h: Heap, c: nat, k: string)
    requires Wf(h) && c in h.nodes
    ensures Differs(h, Extended(h, c, k), c)
  {
    var g := Extended(h, c, k);
    forall id, l | id in g.nodes && l in g.nodes[id]
      ensures SlotOk(g, id, l, g.nodes[id][l])
    {
      if id in h.nodes && (id != c || l != k) { assert SlotOk(h, id, l, h.nodes[id][l]); }
    }
  }

  lemma ExtendedSlots(h: Heap, c: nat, k: string)
    requires Wf(h) && c in h.nodes
    ensures var g := Extended(h, c, k);
            && c in g.nodes && g.nodes[c] == h.nodes[c][k := Ref(h.next)]
            && h.next in g.nodes && g.nodes[h.next] == map[]
  {
  }

  lemma EmptyTree(h: Heap, id: nat)
    requires Wf(h) && id in h.nodes && h.nodes[id] == map[]
    ensures TreeOf(h, id) == map[]
  {
  }

  lemma RefTree(h: Heap, c: nat, k: string, d: nat)
    requires Wf(h) && c in h.nodes && k in h.nodes[c] && h.nodes[c][k] == Ref(d)
    ensures d in h.nodes && k in TreeOf(h, c) && TreeOf(h, c)[k] == Obj(TreeOf(h, d))
  {
    assert SlotOk(h, c, k, h.nodes[c][k]);
  }

  lemma ExtendedTree(h: Heap, c: nat, k: string)
    requires Wf(h) && c in h.nodes
    ensures var g := Extended(h, c, k); Differs(h, g, c) && TreeOf(g, c) == TreeOf(h, c)[k := Obj(map[])]
  {
    var g := Extended(h, c, k);
    ExtendedWf(h, c, k);
    ExtendedSlots(h, c, k);
    ButKey(h.nodes[c], k, Ref(h.next));
    TreeButKey(h, g, c, k);
    EmptyTree(g, h.next);
    RefTree(g, c, k, h.next);
    WithKey(TreeOf(g, c), TreeOf(h, c), k, Obj(map[]));
  }

  /** The path to the changed map still leads to it, and a reference there leads one step further. */
  lemma {:induction false} LeadsStill(h: Heap, g: Heap, id: nat, p: Path, c: nat)
    requires Differs(h, g, c) && id in h.nodes && Leads(h, id, p, c)
    ensures Leads(g, id, p, c)
    decreases |p|
  {
    if p != [] {
      assert SlotOk(h, id, p[0], h.nodes[id][p[0]]);
      var d := h.nodes[id][p[0]].id;
      LeadsHome(h, d, p[1..], c);
      LeadsStill(h, g, d, p[1..], c);
    }
  }

  lemma {:induction false} LeadsFurther(h: Heap, id: nat, p: Path, c: nat, k: string, d: nat)
    requires Wf(h) && id in h.nodes && Leads(h, id, p, c) && c in h.nodes && k in h.nodes[c] && h.nodes[c][k] == Ref(d)
    ensures Leads(h, id, p + [k], d)
    decreases |p|
  {
    if p == [] {
      assert (p + [k])[1..] == [];
      assert SlotOk(h, c, k, h.nodes[c][k]);
    } else {
      assert (p + [k])[1..] == p[1..] + [k];
      assert SlotOk(h, id, p[0], h.nodes[id][p[0]]);
      LeadsFurther(h, h.nodes[id][p[0]].id, p[1..], c, k, d);
    }
  }

  // -------------------------------------------------------------------------------------------
  // The same changes seen from the root
  // -------------------------------------------------------------------------------------------

  ghost function Tree(h: Heap): Fields
    requires Wf(h)
  {
    TreeOf(h, ROOT)
  }

  lemma PutAt(h: Heap, g: Heap, p: Path, c: nat, k: string, v: Json)
    requires Differs(h, g, c) && Leads(h, ROOT, p, c) && TreeOf(g, c) == TreeOf(h, c)[k := v]
    ensures Tree(g) == Set(Tree(h), p + [k], v)
  {
    TreeGraft(h, g, ROOT, p, c);
    LeadsGet(h, ROOT, p, c);
    GraftIsSet(Tree(h), p, TreeOf(h, c), k, v);
  }

  lemma RemovedAt(h: Heap, p: Path, c: nat, k: string)
    requires Wf(h) && Leads(h, ROOT, p, c) && c in h.nodes
    ensures var g := Removed(h, c, k); Wf(g) && Tree(g) == Delete(Tree(h), p + [k])
  {
    RemovedTree(h, c, k);
    TreeGraft(h, Removed(h, c, k), ROOT, p, c);
    LeadsGet(h, ROOT, p, c);
    GraftIsDelete(Tree(h), p, TreeOf(h, c), k);
  }

  lemma ExtendedAt(h: Heap, p: Path, c: nat, k: string)
    requires Wf(h) && Leads(h, ROOT, p, c) && c in h.nodes
    ensures var g := Extended(h, c, k);
            Wf(g) && Tree(g) == Set(Tree(h), p + [k], Obj(map[])) && Leads(g, ROOT, p + [k], h.next)
  {
    var g := Extended(h, c, k);
    ExtendedTree(h, c, k);
    TreeGraft(h, g, ROOT, p, c);
    LeadsGet(h, ROOT, p, c);
    GraftIsSet(Tree(h), p, TreeOf(h, c), k, Obj(map[]));
    LeadsStill(h, g, ROOT, p, c);
    ExtendedSlots(h, c, k);
    LeadsFurther(g, ROOT, p, c, k, h.next);
  }

  /** What stands one step past a map on the path. */
  lemma GetNext(h: Heap, p: Path, c: nat, k: string)
    requires Wf(h) && Leads(h, ROOT, p, c) && c in h.nodes
    ensures Get(Obj(Tree(h)), p + [k]) == if k in TreeOf(h, c) then Some(TreeOf(h, c)[k]) else None
  {
    LeadsGet(h, ROOT, p, c);
    GetThrough(Obj(Tree(h)), p, [k]);
    assert [k][1..] == [];
  }

  lemma BlockedStep(h: Heap, p: Path, i: nat, c: nat)
    requires Wf(h) && i < |p| && Leads(h, ROOT, p[..i], c) && c in h.nodes
    requires p[i] !in h.nodes[c] || h.nodes[c][p[i]].Leaf?
    ensures var v := Get(Obj(Tree(h)), p[..i + 1]);
            if p[i] in h.nodes[c] then v.Some? && !v.value.Obj? else v.None?
  {
    GetNext(h, p[..i], c, p[i]);
    assert p[..i + 1] == p[..i] + [p[i]];
    if p[i] in h.nodes[c] {
      assert SlotOk(h, c, p[i], h.nodes[c][p[i]]);
    }
  }

  lemma NothingPast(doc: Json, p: Path, i: nat)
    requires i < |p|
    requires var v := Get(doc, p[..i + 1]); v.None? || (i + 1 < |p| && !v.value.Obj?)
    ensures Get(doc, p).None?
  {
    assert p == p[..i + 1] + p[i + 1..];
    GetThrough(doc, p[..i + 1], p[i + 1..]);
  }

  /** Where the walk cannot go on, the whole path leads nowhere. */
  lemma Blocked(h: Heap, p: Path, i: nat, c: nat)
    requires Wf(h) && i < |p| && Leads(h, ROOT, p[..i], c) && c in h.nodes
    requires p[i] !in h.nodes[c] || (i + 1 < |p| && h.nodes[c][p[i]].Leaf?)
    ensures Get(Obj(Tree(h)), p).None? && Delete(Tree(h), p) == Tree(h)
  {
    BlockedStep(h, p, i, c);
    NothingPast(Obj(Tree(h)), p, i);
    DeleteAbsent(Tree(h), p);
  }

  /** A new map opens the way and does not change what is written at the end of it. */
  lemma Unblocked(h: Heap, p: Path, i: nat, c: nat, v: Json)
    requires Wf(h) && i + 1 < |p| && Leads(h, ROOT, p[..i], c) && c in h.nodes
    requires p[i] !in h.nodes[c] || h.nodes[c][p[i]].Leaf?
    ensures var g := Extended(h, c, p[i]);
            Wf(g) && Leads(g, ROOT, p[..i + 1], h.next) && Set(Tree(g), p, v) == Set(Tree(h), p, v)
  {
    BlockedStep(h, p, i, c);
    ExtendedAt(h, p[..i], c, p[i]);
    assert p[..i + 1] == p[..i] + [p[i]];
    assert p == p[..i + 1] + p[i + 1..];
    SetThroughEmpty(Tree(h), p[..i + 1], p[i + 1..], v);
  }

  /** Where it can, it reaches the next map. */
  lemma Passed(h: Heap, p: Path, i: nat, c: nat)
    requires Wf(h) && i < |p| && Leads(h, ROOT, p[..i], c) && c in h.nodes
    requires p[i] in h.nodes[c] && h.nodes[c][p[i]].Ref?
    ensures h.nodes[c][p[i]].id in h.nodes && Leads(h, ROOT, p[..i + 1], h.nodes[c][p[i]].id)
  {
    assert SlotOk(h, c, p[i], h.nodes[c][p[i]]);
    assert p[..i + 1] == p[..i] + [p[i]];
    LeadsFurther(h, ROOT, p[..i], c, p[i], h.nodes[c][p[i]].id);
  }

  /** What is found in the last map is what stands at the path. */
  lemma Reached(h: Heap, p: Path, c: nat)
    requires Wf(h) && p != [] && Leads(h, ROOT, p[..|p| - 1], c) && c in h.nodes && p[|p| - 1] in h.nodes[c]
    ensures var slot := h.nodes[c][p[|p| - 1]];
            SlotOk(h, c, p[|p| - 1], slot) && Get(Obj(Tree(h)), p) == Some(ValueOf(h, c, slot))
  {
    var n := |p| - 1;
    assert SlotOk(h, c, p[n], h.nodes[c][p[n]]);
    assert p == p[..n] + [p[n]];
    GetNext(h, p[..n], c, p[n]);
  }

  lemma OneMore(fields: Fields, rest: set<string>, k: string)
    requires k in rest && rest <= fields.Keys
    ensures (fields - rest)[k := fields[k]] == fields - (rest - {k})
  {
  }

  lemma DiffersTwice(h: Heap, g: Heap, f: Heap, c: nat)
    requires Differs(h, g, c) && Differs(g, f, c)
    ensures Differs(h, f, c)
  {
  }

  /** Filling the new map under a key changes the tree of its parent under that key. */
  lemma FilledChild(h: Heap, g: Heap, f: Heap, id: nat, k: string, child: nat)
    requires Wf(h) && id in h.nodes && g == Extended(h, id, k) && Differs(h, g, id) && child == h.next
    requires TreeOf(g, id) == TreeOf(h, id)[k := Obj(map[])] && Differs(g, f, child)
    ensures Differs(h, f, id) && TreeOf(f, id) == TreeOf(h, id)[k := Obj(TreeOf(f, child))]
  {
    ExtendedSlots(h, id, k);
    assert child !in h.nodes;
    assert SlotOk(g, id, k, g.nodes[id][k]);
    assert [k][1..] == [] && Leads(g, id, [k], child);
    TreeGraft(g, f, id, [k], child);
    Overwrite(TreeOf(h, id), k, Obj(map[]), Obj(TreeOf(f, child)));
  }

  // -------------------------------------------------------------------------------------------
  // The code's own form
  // -------------------------------------------------------------------------------------------

  class Document {
    var nodes: Nodes
    var next: nat
    ghost var home: map<nat, Path>

    ghost function State(): Heap
      reads this
    {
      Heap(nodes, next, home)
    }

    ghost predicate Valid()
      reads this
    {
      Wf(State())
    }

    /** The document the maps form. */
    ghost function Contents(): Fields
      reads this
      requires Valid()
    {
      Tree(State())
    }

    /** A copy of the data: its own maps, forming the same document. */
    constructor (data: Fields)
      ensures Valid() && Contents() == data
    {
      nodes, next, home := map[ROOT := map[]], 1, map[ROOT := []];
      new;
      Fill(ROOT, Obj(data));
    }

    /** Puts copies of an object's fields into an empty map. */
    method Fill(id: nat, doc: Json)
      requires Valid() && id in nodes && nodes[id] == map[] && doc.Obj?
      modifies this
      ensures Differs(old(State()), State(), id) && TreeOf(State(), id) == doc.fields
      decreases doc, 0
    {
      var rest := doc.fields.Keys;
      EmptyTree(State(), id);
      while rest != {}
        invariant Differs(old(State()), State(), id) && rest <= doc.fields.Keys
        invariant TreeOf(State(), id) == doc.fields - rest
        decreases |rest|
      {
        var k :| k in rest;
        ghost var h := State();
        Put(id, k, doc.fields[k]);
        DiffersTwice(old(State()), h, State(), id);
        OneMore(doc.fields, rest, k);
        rest := rest - {k};
      }
    }

    /** Puts a copy of a value under a key. */
    method Put(id: nat, k: string, v: Json)
      requires Valid() && id in nodes
      modifies this
      ensures Differs(old(State()), State(), id) && TreeOf(State(), id) == TreeOf(old(State()), id)[k := v]
      decreases v, 1
    {
      ghost var h := State();
      if !v.Obj? {
        WrittenTree(h, id, k, v);
        nodes := nodes[id := nodes[id][k := Leaf(v)]];
        return;
      }
      var child := next;
      ExtendedTree(h, id, k);
      ExtendedSlots(h, id, k);
      nodes := nodes[id := nodes[id][k := Ref(child)]][child := map[]];
      home := home[child := home[id] + [k]];
      next := next + 1;
      ghost var g := State();
      Fill(child, v);
      FilledChild(h, g, State(), id, k, child);
    }

    /** Whether something stands at the path, and whether it is a reference to a map. */
    method Find(path: string) returns (slot: Option<Slot>)
      requires Valid()
      ensures SplitPath(path) == [] ==> slot.None?
      ensures slot.Some? <==> SplitPath(path) != [] && Get(Obj(Contents()), SplitPath(path)).Some?
      ensures slot.Some? && slot.value.Leaf? ==> Get(Obj(Contents()), SplitPath(path)).value == slot.value.v
      ensures slot.Some? && slot.value.Ref? ==>
                slot.value.id in nodes
                    && Get(Obj(Contents()), SplitPath(path)).value == Obj(TreeOf(State(), slot.value.id))
    {
      var segments := SplitSegments(path);
      if segments == [] {
        return None;
      }
      var n := |segments| - 1;
      var current := ROOT;
      for i := 0 to n
        invariant current in nodes && Leads(State(), ROOT, segments[..i], current)
      {
        if segments[i] !in nodes[current] || nodes[current][segments[i]].Leaf? {
          Blocked(State(), segments, i, current);
          return None;
        }
        Passed(State(), segments, i, current);
        current := nodes[current][segments[i]].id;
      }
      if segments[n] !in nodes[current] {
        Blocked(State(), segments, n, current);
        return None;
      }
      Reached(State(), segments, current);
      return Some(nodes[current][segments[n]]);
    }

    /** Writes a value, creating the maps on the way where there are none. */
    method SetByPath(path: string, v: Json) returns (ok: bool)
      requires Valid()
      modifies this
      ensures Valid() && ok == (SplitPath(path) != [])
      ensures Contents() == if ok then Set(old(Contents()), SplitPath(path), v) else old(Contents())
    {
      var segments := SplitSegments(path);
      if segments == [] {
        return false;
      }
      var n := |segments| - 1;
      var current := ROOT;
      for i := 0 to n
        invariant Valid() && current in nodes && Leads(State(), ROOT, segments[..i], current)
        invariant Set(Contents(), segments, v) == Set(old(Contents()), segments, v)
      {
        current := StepInto(segments, i, current, v);
      }
      assert segments == segments[..n] + [segments[n]];
      ghost var h := State();
      Put(current, segments[n], v);
      PutAt(h, State(), segments[..n], current, segments[n], v);
      return true;
    }

    /** Moves one segment down, into a new map when there is none. */
    method StepInto(segments: Path, i: nat, current: nat, ghost v: Json) returns (child: nat)
      requires Valid() && i + 1 < |segments| && current in nodes && Leads(State(), ROOT, segments[..i], current)
      modifies this
      ensures Valid() && child in nodes && Leads(State(), ROOT, segments[..i + 1], child)
      ensures Set(Contents(), segments, v) == Set(old(Contents()), segments, v)
    {
      var segment := segments[i];
      ghost var h := State();
      if segment in nodes[current] && nodes[current][segment].Ref? {
        Passed(h, segments, i, current);
        return nodes[current][segment].id;
      }
      Unblocked(h, segments, i, current, v);
      child := next;
      nodes := nodes[current := nodes[current][segment := Ref(child)]][child := map[]];
      home := home[child := home[current] + [segment]];
      next := next + 1;
      assert State() == Extended(h, current, segment);
    }

    method DeleteByPath(path: string) returns (ok: bool)
      requires Valid()
      modifies this
      ensures Valid() && ok == (SplitPath(path) != [] && Get(Obj(old(Contents())), SplitPath(path)).Some?)
      ensures Contents() == if SplitPath(path) == [] then old(Contents()) else Delete(old(Contents()), SplitPath(path))
    {
      var segments := SplitSegments(path);
      if segments == [] {
        return false;
      }
      var n := |segments| - 1;
      var current := ROOT;
      for i := 0 to n
        invariant State() == old(State()) && current in nodes && Leads(State(), ROOT, segments[..i], current)
      {
        if segments[i] !in nodes[current] || nodes[current][segments[i]].Leaf? {
          Blocked(State(), segments, i, current);
          return false;
        }
        Passed(State(), segments, i, current);
        current := nodes[current][segments[i]].id;
      }
      if segments[n] !in nodes[current] {
        Blocked(State(), segments, n, current);
        return false;
      }
      Reached(State(), segments, current);
      assert segments == segments[..n] + [segments[n]];
      RemovedAt(State(), segments[..n], current, segments[n]);
      nodes := nodes[current := nodes[current] - {segments[n]}];
      return true;
    }

    /** The document that a map and those it refers to form. */
    method ReadMap(id: nat) returns (fields: Fields)
      requires Valid() && id in nodes
      ensures fields == TreeOf(State(), id)
      decreases next - id
    {
      fields := map[];
      var rest := nodes[id].Keys;
      while rest != {}
        invariant rest <= nodes[id].Keys && fields.Keys == nodes[id].Keys - rest
        invariant forall k | k in fields :: fields[k] == TreeOf(State(), id)[k]
        decreases |rest|
      {
        var k :| k in rest;
        assert SlotOk(State(), id, k, nodes[id][k]);
        match nodes[id][k] {
          case Leaf(v) => fields := fields[k := v];
          case Ref(c) =>
            var inner := ReadMap(c);
            fields := fields[k := Obj(inner)];
        }
        rest := rest - {k};
      }
      assert fields.Keys == TreeOf(State(), id).Keys;
    }

    /** Applies one rule to the document in place. */
    method ApplyRule(rule: Rule, role: string, rewrite: Rewriting) returns (ok: bool)
      requires Valid()
      modifies this
      ensures Valid()
      ensures match RedactField(old(Contents()), rule, role, rewrite)
              case Ok(after) => ok && Contents() == after
              case Err(_) => !ok
    {
      var slot := Find(rule.path);
      if slot.None? {
        return true;
      }
      if rule.roles.None? {
        return false;
      }
      if ContainsRole(rule.roles.value, role) {
        return true;
      }
      match rule.action
      case Unsupported(_) => return false;
      case Hide =>
        var _ := DeleteByPath(rule.path);
        return true;
      case _ =>
        var seen := Null;
        if slot.value.Leaf? {
          seen := slot.value.v;
        } else {
          var inner := ReadMap(slot.value.id);
          seen := Obj(inner);
        }
        var _ := SetByPath(rule.path, Str(rewrite(seen, rule)));
        return true;
    }

    /** Redacts this copy of the data for a reader; after a failure the copy is dropped. */
    method RedactSensitiveData(rules: seq<Rule>, reader: Reader, rewrite: Rewriting) returns (ok: bool)
      requires Valid()
      modifies this
      ensures Valid()
      ensures match Redact(old(Contents()), rules, reader, rewrite)
              case Ok(after) => ok && Contents() == after
              case Err(_) => !ok
    {
      if reader.isSystem {
        return true;
      }
      for i := 0 to |rules|
        invariant Valid() && RedactTo(old(Contents()), rules, i, reader.role, rewrite) == Ok(Contents())
      {
        ok := ApplyRule(rules[i], reader.role, rewrite);
        if !ok {
          ErrorStays(old(Contents()), rules, i + 1, reader.role, rewrite, |rules|);
          return;
        }
      }
      return true;
    }
  }

  /** The whole operation: the data is copied, the copy redacted in place and read back; the data stays as it is. */
  method RedactCopy(data: Fields, rules: seq<Rule>, reader: Reader, rewrite: Rewriting) returns (r: Result<Fields>)
    ensures r.Ok? <==> Redact(data, rules, reader, rewrite).Ok?
    ensures r.Ok? ==> r == Redact(data, rules, reader, rewrite)
  {
    var copy := new Document(data);
    var ok := copy.RedactSensitiveData(rules, reader, rewrite);
    if !ok {
      return Err("redaction failed");
    }
    var fields := copy.ReadMap(ROOT);
    return Ok(fields);
  }
}
