/** Dotted paths into nested documents: reading, writing and deleting what they lead to. */
module DocumentPaths {
  import opened Outcomes
  import opened Texts
  import opened CanonicalJson

  type Path = seq<string>

  type Fields = map<string, Json>

  // -------------------------------------------------------------------------------------------
  // Writing paths down
  // -------------------------------------------------------------------------------------------

  /** The parts without blanks at their ends, the empty ones left out. */
  function Clean(parts: seq<string>): Path {
    if parts == [] then []
    else
      var n := |parts| - 1;
      var part := TrimSpace(parts[n]);
      if part == "" then Clean(parts[..n]) else Clean(parts[..n]) + [part]
  }

  function SplitPath(path: string): Path {
    Clean(Split(TrimSpace(path), ""))
  }

  method SplitSegments(path: string) returns (segments: Path)
    ensures segments == SplitPath(path)
  {
    var parts := Split(TrimSpace(path), "");
    segments := [];
    for i := 0 to |parts|
      invariant segments == Clean(parts[..i])
    {
      assert parts[..i + 1][..i] == parts[..i];
      var segment := TrimSpace(parts[i]);
      if segment == "" {
        continue;
      }
      segments := segments + [segment];
    }
    assert parts[..|parts|] == parts;
  }

  /** A segment that stands for itself in a dotted path. */
  predicate Segment(s: string) {
    s != "" && !IsSpace(s[0]) && !IsSpace(s[|s| - 1]) && '.' !in s
  }

  function Dotted(p: Path): string {
    if p == [] then "" else if |p| == 1 then p[0] else p[0] + "." + Dotted(p[1..])
  }

  lemma {:induction false} SplitSegment(s: string, rest: string, current: string)
    requires '.' !in s
    ensures rest == "" ==> Split(s + rest, current) == [current + s]
    ensures rest != "" && rest[0] == '.' ==> Split(s + rest, current) == [current + s] + Split(rest[1..], "")
    decreases |s|
  {
    if s == "" {
      assert s + rest == rest;
      assert current + s == current;
    } else {
      assert (s + rest)[1..] == s[1..] + rest;
      SplitSegment(s[1..], rest, current + [s[0]]);
      assert current + [s[0]] + s[1..] == current + s;
    }
  }

  lemma {:induction false} SplitDotted(p: Path)
    requires p != [] && forall i | 0 <= i < |p| :: '.' !in p[i]
    ensures Split(Dotted(p), "") == p
    decreases |p|
  {
    if |p| == 1 {
      SplitSegment(p[0], "", "");
      assert p[0] + "" == p[0] && "" + p[0] == p[0];
    } else {
      var rest := "." + Dotted(p[1..]);
      SplitSegment(p[0], rest, "");
      assert Dotted(p) == p[0] + rest && rest[1..] == Dotted(p[1..]) && "" + p[0] == p[0];
      SplitDotted(p[1..]);
    }
  }

  lemma {:induction false} CleanSegments(p: Path)
    requires forall i | 0 <= i < |p| :: Segment(p[i])
    ensures Clean(p) == p
    decreases |p|
  {
    if p != [] {
      var n := |p| - 1;
      CleanSegments(p[..n]);
      assert TrimSpace(p[n]) == p[n];
      assert p == p[..n] + [p[n]];
    }
  }

  lemma {:induction false} DottedTight(p: Path)
    requires p != [] && forall i | 0 <= i < |p| :: Segment(p[i])
    ensures var t := Dotted(p); t != "" && !IsSpace(t[0]) && !IsSpace(t[|t| - 1])
    decreases |p|
  {
    if |p| > 1 {
      DottedTight(p[1..]);
    }
  }

  /** Splitting what was joined with dots gives the segments back. */
  lemma SplitJoined(p: Path)
    requires forall i | 0 <= i < |p| :: Segment(p[i])
    ensures SplitPath(Dotted(p)) == p
  {
    if p == [] {
      assert Clean([""]) == [];
    } else {
      DottedTight(p);
      SplitDotted(p);
      CleanSegments(p);
    }
  }

  // -------------------------------------------------------------------------------------------
  // Reading, writing, deleting
  // -------------------------------------------------------------------------------------------

  function Get(doc: Json, p: Path): Option<Json> {
    if p == [] then Some(doc)
    else if doc.Obj? && p[0] in doc.fields then Get(doc.fields[p[0]], p[1..])
    else None
  }

  /** The object under a key, empty when there is none. */
  function ChildAt(fields: Fields, k: string): Fields {
    if k in fields && fields[k].Obj? then fields[k].fields else map[]
  }

  /** Missing steps of the path are created, and steps that are no objects are replaced. */
  function Set(fields: Fields, p: Path, v: Json): Fields
    requires p != []
    decreases |p|
  {
    if |p| == 1 then fields[p[0] := v]
    else fields[p[0] := Obj(Set(ChildAt(fields, p[0]), p[1..], v))]
  }

  function Delete(fields: Fields, p: Path): Fields
    requires p != []
    decreases |p|
  {
    if |p| == 1 then fields - {p[0]}
    else if p[0] in fields && fields[p[0]].Obj? then fields[p[0] := Obj(Delete(fields[p[0]].fields, p[1..]))]
    else fields
  }

  predicate Prefix(p: Path, q: Path) {
    p == [] || (q != [] && p[0] == q[0] && Prefix(p[1..], q[1..]))
  }

  /** Neither leads through the other. */
  predicate Apart(p: Path, q: Path) {
    !Prefix(p, q) && !Prefix(q, p)
  }

  /** What was written is found there, and so is everything inside it. */
  lemma {:induction false} GetAfterSet(fields: Fields, p: Path, v: Json, q: Path)
    requires p != []
    ensures Get(Obj(Set(fields, p, v)), p + q) == Get(v, q)
    decreases |p|
  {
    assert (p + q)[1..] == p[1..] + q;
    if |p| == 1 {
      assert p[1..] + q == q;
    } else {
      GetAfterSet(ChildAt(fields, p[0]), p[1..], v, q);
    }
  }

  /** Writing changes nothing beside the path, even where it replaces a step that was no object. */
  lemma {:induction false} SetElsewhere(fields: Fields, p: Path, v: Json, q: Path)
    requires p != [] && Apart(p, q)
    ensures Get(Obj(Set(fields, p, v)), q) == Get(Obj(fields), q)
    decreases |p|
  {
    if p[0] == q[0] {
      assert Apart(p[1..], q[1..]);
      SetElsewhere(ChildAt(fields, p[0]), p[1..], v, q[1..]);
    }
  }

  lemma {:induction false} AbsentAfterDelete(fields: Fields, p: Path, q: Path)
    requires p != []
    ensures Get(Obj(Delete(fields, p)), p + q) == None
    decreases |p|
  {
    assert (p + q)[1..] == p[1..] + q;
    if |p| > 1 && p[0] in fields && fields[p[0]].Obj? {
      AbsentAfterDelete(fields[p[0]].fields, p[1..], q);
    }
  }

  lemma {:induction false} DeleteElsewhere(fields: Fields, p: Path, q: Path)
    requires p != [] && Apart(p, q)
    ensures Get(Obj(Delete(fields, p)), q) == Get(Obj(fields), q)
    decreases |p|
  {
    if p[0] == q[0] {
      assert Apart(p[1..], q[1..]);
      if p[0] in fields && fields[p[0]].Obj? {
        DeleteElsewhere(fields[p[0]].fields, p[1..], q[1..]);
      }
    }
  }

  /** The last write wins, and deleting what was never there changes nothing. */
  lemma {:induction false} SetTwice(fields: Fields, p: Path, v: Json, w: Json)
    requires p != []
    ensures Set(Set(fields, p, v), p, w) == Set(fields, p, w)
    decreases |p|
  {
    if |p| > 1 {
      SetTwice(ChildAt(fields, p[0]), p[1..], v, w);
      assert ChildAt(Set(fields, p, v), p[0]) == Set(ChildAt(fields, p[0]), p[1..], v);
    }
  }

  lemma {:induction false} DeleteAbsent(fields: Fields, p: Path)
    requires p != [] && Get(Obj(fields), p).None?
    ensures Delete(fields, p) == fields
    decreases |p|
  {
    if |p| > 1 && p[0] in fields && fields[p[0]].Obj? {
      DeleteAbsent(fields[p[0]].fields, p[1..]);
      assert fields[p[0] := fields[p[0]]] == fields;
    }
  }

  /** A path on the way to one that exists exists. */
  lemma {:induction false} PrefixPresent(doc: Json, p: Path, q: Path)
    requires Prefix(p, q) && Get(doc, q).Some?
    ensures Get(doc, p).Some?
    decreases |p|
  {
    if p != [] { PrefixPresent(doc.fields[p[0]], p[1..], q[1..]); }
  }
}
