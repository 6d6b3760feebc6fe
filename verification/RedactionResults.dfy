/**
 What a redacted document holds: which paths are left, the text at each masked or truncated one, and when
 the redaction fails, told from the data and the rules.
 */
module RedactionResults {
  import opened Outcomes
  import opened Texts
  import opened CanonicalJson
  import opened DocumentPaths
  import opened Redaction

  /** The rule has a path and is meant for this reader. */
  predicate Applies(rule: Rule, role: string) {
    Target(rule) != [] && Denied(rule, role)
  }

  predicate Rewrites(rule: Rule) {
    rule.action == Mask || rule.action == Truncate
  }

  /** The path lies at or below one the rule hides, or strictly below one it masks or truncates. */
  predicate Covers(rule: Rule, role: string, q: Path) {
    && Applies(rule, role) && Prefix(Target(rule), q)
    && (rule.action == Hide || (Rewrites(rule) && Target(rule) != q))
  }

  // -------------------------------------------------------------------------------------------
  // One rule
  // -------------------------------------------------------------------------------------------

  lemma {:induction false} PrefixBoth(p: Path, q: Path)
    requires Prefix(p, q) && Prefix(q, p)
    ensures p == q
    decreases |p|
  {
    if p != [] {
      PrefixBoth(p[1..], q[1..]);
      assert p == [p[0]] + p[1..] && q == [q[0]] + q[1..];
    }
  }

  /** Deleting a path leaves what is above it. */
  lemma {:induction false} DeleteKeepsAbove(fields: Fields, p: Path, q: Path)
    requires p != [] && Prefix(q, p) && q != p && Get(Obj(fields), q).Some?
    ensures Get(Obj(Delete(fields, p)), q).Some?
    decreases |p|
  {
    if q != [] {
      assert p == [p[0]] + p[1..] && q == [q[0]] + q[1..];
      assert q[1..] != p[1..] && |p| > 1;
      if fields[p[0]].Obj? {
        DeleteKeepsAbove(fields[p[0]].fields, p[1..], q[1..]);
      }
    }
  }

  lemma RewrittenAbsent(fields: Fields, p: Path, text: string, q: Path)
    requires p != [] && Get(Obj(fields), p).Some?
    ensures Get(Obj(Set(fields, p, Str(text))), q).None?
            <==> Get(Obj(fields), q).None? || (Prefix(p, q) && p != q)
  {
    var after := Set(fields, p, Str(text));
    assert p + [] == p;
    GetAfterSet(fields, p, Str(text), []);
    if Prefix(q, p) {
      PrefixPresent(Obj(fields), q, p);
      PrefixPresent(Obj(after), q, p);
      if Prefix(p, q) { PrefixBoth(p, q); }
    } else if Prefix(p, q) {
      TextHasNoInside(after, p, q);
    } else {
      SetElsewhere(fields, p, Str(text), q);
    }
  }

  lemma HiddenAbsent(fields: Fields, p: Path, q: Path)
    requires p != []
    ensures Get(Obj(Delete(fields, p)), q).None? <==> Get(Obj(fields), q).None? || Prefix(p, q)
  {
    if Prefix(p, q) {
      PrefixSplits(p, q);
      AbsentAfterDelete(fields, p, q[|p|..]);
    } else {
      if Get(Obj(Delete(fields, p)), q).Some? { DeleteNoNewPath(fields, p, q); }
      if Get(Obj(fields), q).Some? {
        if Prefix(q, p) {
          DeleteKeepsAbove(fields, p, q);
        } else {
          DeleteElsewhere(fields, p, q);
        }
      }
    }
  }

  lemma FieldAbsent(fields: Fields, rule: Rule, role: string, rewrite: Rewriting, q: Path)
    requires RedactField(fields, rule, role, rewrite).Ok?
    ensures Get(Obj(RedactField(fields, rule, role, rewrite).value), q).None?
            <==> Get(Obj(fields), q).None? || Covers(rule, role, q)
  {
    var p := Target(rule);
    if Applies(rule, role) {
      if Get(Obj(fields), p).None? {
        if Prefix(p, q) && Get(Obj(fields), q).Some? { PrefixPresent(Obj(fields), p, q); }
      } else if rule.action == Hide {
        HiddenAbsent(fields, p, q);
      } else {
        RewrittenAbsent(fields, p, rewrite(Get(Obj(fields), p).value, rule), q);
      }
    }
  }

  // -------------------------------------------------------------------------------------------
  // All rules
  // -------------------------------------------------------------------------------------------

  ghost predicate Covered(rules: seq<Rule>, n: nat, role: string, q: Path)
    requires n <= |rules|
  {
    exists j :: 0 <= j < n && Covers(rules[j], role, q)
  }

  lemma {:induction false} RulesAbsent(fields: Fields, rules: seq<Rule>, n: nat, role: string, rewrite: Rewriting,
      q: Path)
    requires n <= |rules| && RedactTo(fields, rules, n, role, rewrite).Ok?
    ensures Get(Obj(RedactTo(fields, rules, n, role, rewrite).value), q).None?
            <==> Get(Obj(fields), q).None? || Covered(rules, n, role, q)
  {
    if n > 0 {
      RulesAbsent(fields, rules, n - 1, role, rewrite, q);
      FieldAbsent(RedactTo(fields, rules, n - 1, role, rewrite).value, rules[n - 1], role, rewrite, q);
      if Covered(rules, n - 1, role, q) {
        var j :| 0 <= j < n - 1 && Covers(rules[j], role, q);
        assert 0 <= j < n;
      }
    }
  }

  /**
   A path is missing from the redacted document exactly when it was missing before, or lies at or below a
   hidden path, or strictly below a masked or truncated one.
   */
  lemma AbsentIff(fields: Fields, rules: seq<Rule>, reader: Reader, rewrite: Rewriting, q: Path)
    requires !reader.isSystem && Redact(fields, rules, reader, rewrite).Ok?
    ensures Get(Obj(Redact(fields, rules, reader, rewrite).value), q).None?
            <==> Get(Obj(fields), q).None? || Covered(rules, |rules|, reader.role, q)
  {
    RulesAbsent(fields, rules, |rules|, reader.role, rewrite, q);
  }

  /** Rules that do not apply, or are about other paths, leave a path alone. */
  lemma {:induction false} UntouchedBy(fields: Fields, rules: seq<Rule>, m: nat, n: nat, role: string,
      rewrite: Rewriting, q: Path)
    requires m <= n <= |rules| && RedactTo(fields, rules, n, role, rewrite).Ok?
    requires forall i | m <= i < n :: Applies(rules[i], role) ==> Apart(Target(rules[i]), q)
    ensures RedactTo(fields, rules, m, role, rewrite).Ok?
    ensures Get(Obj(RedactTo(fields, rules, n, role, rewrite).value), q)
            == Get(Obj(RedactTo(fields, rules, m, role, rewrite).value), q)
    decreases n
  {
    if m < n {
      UntouchedBy(fields, rules, m, n - 1, role, rewrite, q);
      if Applies(rules[n - 1], role) {
        FieldElsewhere(RedactTo(fields, rules, n - 1, role, rewrite).value, rules[n - 1], role, rewrite, q);
      }
    }
  }

  /**
   Where something is masked or truncated, and no other rule for this reader is about it, the redacted
   document has exactly the rewritten text of the value that was there.
   */
  lemma RewrittenText(fields: Fields, rules: seq<Rule>, reader: Reader, rewrite: Rewriting, j: nat)
    requires !reader.isSystem && Redact(fields, rules, reader, rewrite).Ok? && j < |rules|
    requires Applies(rules[j], reader.role) && Rewrites(rules[j]) && Get(Obj(fields), Target(rules[j])).Some?
    requires forall i | 0 <= i < |rules| && i != j && Applies(rules[i], reader.role) ::
               Apart(Target(rules[i]), Target(rules[j]))
    ensures Get(Obj(Redact(fields, rules, reader, rewrite).value), Target(rules[j]))
            == Some(Str(rewrite(Get(Obj(fields), Target(rules[j])).value, rules[j])))
  {
    var role, p := reader.role, Target(rules[j]);
    UntouchedBy(fields, rules, j + 1, |rules|, role, rewrite, p);
    UntouchedBy(fields, rules, 0, j, role, rewrite, p);
    var before := RedactTo(fields, rules, j, role, rewrite).value;
    assert p + [] == p;
    GetAfterSet(before, p, Str(rewrite(Get(Obj(before), p).value, rules[j])), []);
  }

  lemma SameRoleField(fields: Fields, rule: Rule, role: string, other: string, rewrite: Rewriting)
    requires TrimSpace(ToUpper(role)) == TrimSpace(ToUpper(other))
    ensures RedactField(fields, rule, role, rewrite) == RedactField(fields, rule, other, rewrite)
  {
    if rule.roles.Some? {
      assert ContainsRole(rule.roles.value, role) <==> ContainsRole(rule.roles.value, other);
    }
  }

  /** Roles are compared without regard to case and blanks around them. */
  lemma {:induction false} SameRole(fields: Fields, rules: seq<Rule>, n: nat, role: string, other: string,
      rewrite: Rewriting)
    requires n <= |rules| && TrimSpace(ToUpper(role)) == TrimSpace(ToUpper(other))
    ensures RedactTo(fields, rules, n, role, rewrite) == RedactTo(fields, rules, n, other, rewrite)
  {
    if n > 0 {
      SameRole(fields, rules, n - 1, role, other, rewrite);
      if RedactTo(fields, rules, n - 1, role, rewrite).Ok? {
        SameRoleField(RedactTo(fields, rules, n - 1, role, rewrite).value, rules[n - 1], role, other, rewrite);
      }
    }
  }

  // -------------------------------------------------------------------------------------------
  // Failure
  // -------------------------------------------------------------------------------------------

  /** The rule cannot be carried out: its roles are unreadable, or it applies and its action is not known. */
  predicate Unusable(rule: Rule, role: string) {
    rule.roles.None? || (Denied(rule, role) && rule.action.Unsupported?)
  }

  /** The path of the rule is there when its turn comes. */
  ghost predicate Meets(fields: Fields, rules: seq<Rule>, j: nat, role: string)
    requires j < |rules|
  {
    var p := Target(rules[j]);
    p != [] && Get(Obj(fields), p).Some? && !Covered(rules, j, role, p)
  }

  ghost predicate Fatal(fields: Fields, rules: seq<Rule>, j: nat, role: string) {
    j < |rules| && Unusable(rules[j], role) && Meets(fields, rules, j, role)
  }

  lemma FieldFailsIff(fields: Fields, rule: Rule, role: string, rewrite: Rewriting)
    ensures RedactField(fields, rule, role, rewrite).Err?
            <==> Target(rule) != [] && Get(Obj(fields), Target(rule)).Some? && Unusable(rule, role)
  {
  }

  lemma {:induction false} FailsIff(fields: Fields, rules: seq<Rule>, n: nat, role: string, rewrite: Rewriting)
    requires n <= |rules|
    ensures RedactTo(fields, rules, n, role, rewrite).Err? <==> exists j: nat :: j < n && Fatal(fields, rules, j, role)
  {
    if n > 0 {
      FailsIff(fields, rules, n - 1, role, rewrite);
      if RedactTo(fields, rules, n - 1, role, rewrite).Ok? {
        RulesAbsent(fields, rules, n - 1, role, rewrite, Target(rules[n - 1]));
        FieldFailsIff(RedactTo(fields, rules, n - 1, role, rewrite).value, rules[n - 1], role, rewrite);
        assert RedactTo(fields, rules, n, role, rewrite).Err? <==> Fatal(fields, rules, n - 1, role);
      } else {
        var j: nat :| j < n - 1 && Fatal(fields, rules, j, role);
        assert j < n;
      }
    }
  }

  /**
   Exactly when a reader gets no document: a rule cannot be carried out whose path is in the data and not
   covered by an earlier rule.
   */
  lemma RedactionFailsIff(fields: Fields, rules: seq<Rule>, reader: Reader, rewrite: Rewriting)
    ensures Redact(fields, rules, reader, rewrite).Err?
            <==> !reader.isSystem && exists j: nat :: Fatal(fields, rules, j, reader.role)
    ensures reader.isSystem ==> Redact(fields, rules, reader, rewrite) == Ok(fields)
  {
    FailsIff(fields, rules, |rules|, reader.role, rewrite);
  }
}
