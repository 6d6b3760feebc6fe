/** Redacting documents for a reader's role: sensitive paths are masked, truncated or hidden. */
module Redaction {
  import opened Outcomes
  import opened Texts
  import opened CanonicalJson
  import opened DocumentPaths

  datatype Action = Mask | Truncate | Hide | Unsupported(name: string)

  /** A sensitive field; `roles` is missing when the stored list cannot be decoded. */
  datatype Rule = Rule(path: string, action: Action, pattern: Option<string>, roles: Option<seq<string>>)

  datatype Reader = Reader(isSystem: bool, role: string)

  /** How a value is turned into its masked or truncated text. */
  type Rewriting = (Json, Rule) -> string

  function Role(role: string): string {
    TrimSpace(ToUpper(role))
  }

  predicate ContainsRole(allowed: seq<string>, role: string) {
    exists i | 0 <= i < |allowed| :: Role(allowed[i]) == Role(role)
  }

  /** The rule's path when it has one that can be looked up. */
  function Target(rule: Rule): Path {
    SplitPath(rule.path)
  }

  function RedactField(fields: Fields, rule: Rule, role: string, rewrite: Rewriting): Result<Fields> {
    var p := Target(rule);
    if p == [] || Get(Obj(fields), p).None? then Ok(fields)
    else if rule.roles.None? then Err("decode allowed roles")
    else if ContainsRole(rule.roles.value, role) then Ok(fields)
    else
      match rule.action
      case Mask => Ok(Set(fields, p, Str(rewrite(Get(Obj(fields), p).value, rule))))
      case Truncate => Ok(Set(fields, p, Str(rewrite(Get(Obj(fields), p).value, rule))))
      case Hide => Ok(Delete(fields, p))
      case Unsupported(_) => Err("unsupported redaction rule")
  }

  /** The first `n` rules, one after the other. */
  function RedactTo(fields: Fields, rules: seq<Rule>, n: nat, role: string, rewrite: Rewriting): Result<Fields>
    requires n <= |rules|
  {
    if n == 0 then Ok(fields)
    else
      var before :- RedactTo(fields, rules, n - 1, role, rewrite);
      RedactField(before, rules[n - 1], role, rewrite)
  }

  function Redact(fields: Fields, rules: seq<Rule>, reader: Reader, rewrite: Rewriting): Result<Fields> {
    if reader.isSystem then Ok(fields) else RedactTo(fields, rules, |rules|, reader.role, rewrite)
  }

  // -------------------------------------------------------------------------------------------
  // What one rule does
  // -------------------------------------------------------------------------------------------

  /** Every path of `after` is a path of `before`. */
  ghost predicate NoNewPath(before: Fields, after: Fields) {
    forall q :: Get(Obj(after), q).Some? ==> Get(Obj(before), q).Some?
  }

  lemma {:induction false} PrefixSplits(p: Path, q: Path)
    requires Prefix(p, q)
    ensures |p| <= |q| && q == p + q[|p|..]
    decreases |p|
  {
    if p != [] {
      PrefixSplits(p[1..], q[1..]);
      assert q[1..][|p| - 1..] == q[|p|..];
      assert q == [q[0]] + q[1..] && p == [p[0]] + p[1..];
    }
  }

  lemma SetNoNewPath(fields: Fields, p: Path, text: string, q: Path)
    requires p != [] && Get(Obj(fields), p).Some? && Get(Obj(Set(fields, p, Str(text))), q).Some?
    ensures Get(Obj(fields), q).Some?
  {
    assert p + [] == p;
    if Prefix(q, p) {
      PrefixPresent(Obj(fields), q, p);
    } else if Prefix(p, q) && p != q {
      PrefixSplits(p, q);
      GetAfterSet(fields, p, Str(text), q[|p|..]);
    } else if p != q {
      SetElsewhere(fields, p, Str(text), q);
    }
  }

  lemma {:induction false} DeleteNoNewPath(fields: Fields, p: Path, q: Path)
    requires p != [] && Get(Obj(Delete(fields, p)), q).Some?
    ensures Get(Obj(fields), q).Some?
    decreases |p|
  {
    if q != [] && q[0] == p[0] && |p| > 1 && p[0] in fields && fields[p[0]].Obj? {
      DeleteNoNewPath(fields[p[0]].fields, p[1..], q[1..]);
    }
  }

  /** The rule applies to this reader when its roles are known and do not include theirs. */
  predicate Denied(rule: Rule, role: string) {
    rule.roles.Some? && !ContainsRole(rule.roles.value, role)
  }

  lemma FieldNoNewPath(fields: Fields, rule: Rule, role: string, rewrite: Rewriting)
    requires RedactField(fields, rule, role, rewrite).Ok?
    ensures NoNewPath(fields, RedactField(fields, rule, role, rewrite).value)
  {
    var p := Target(rule);
    var after := RedactField(fields, rule, role, rewrite).value;
    forall q | Get(Obj(after), q).Some?
      ensures Get(Obj(fields), q).Some?
    {
      if after != fields {
        if rule.action == Hide {
          DeleteNoNewPath(fields, p, q);
        } else {
          SetNoNewPath(fields, p, rewrite(Get(Obj(fields), p).value, rule), q);
        }
      }
    }
  }

  lemma FieldElsewhere(fields: Fields, rule: Rule, role: string, rewrite: Rewriting, q: Path)
    requires RedactField(fields, rule, role, rewrite).Ok?
    requires Target(rule) == [] || Apart(Target(rule), q)
    ensures Get(Obj(RedactField(fields, rule, role, rewrite).value), q) == Get(Obj(fields), q)
  {
    var p := Target(rule);
    if p != [] && Get(Obj(fields), p).Some? && Denied(rule, role) {
      if rule.action == Hide {
        DeleteElsewhere(fields, p, q);
      } else {
        SetElsewhere(fields, p, Str(rewrite(Get(Obj(fields), p).value, rule)), q);
      }
    }
  }

  /** Absent, or no more than a text. */
  predicate AtMostText(fields: Fields, p: Path) {
    Get(Obj(fields), p).None? || Get(Obj(fields), p).value.Str?
  }

  /** What is hidden is gone, what is masked or truncated is at most a text. */
  lemma FieldRedacted(fields: Fields, rule: Rule, role: string, rewrite: Rewriting)
    requires RedactField(fields, rule, role, rewrite).Ok? && Denied(rule, role) && Target(rule) != []
    ensures var after := RedactField(fields, rule, role, rewrite).value;
            && (rule.action == Hide ==> Get(Obj(after), Target(rule)).None?)
            && AtMostText(after, Target(rule))
  {
    var p := Target(rule);
    assert p + [] == p;
    if Get(Obj(fields), p).Some? {
      AbsentAfterDelete(fields, p, []);
      GetAfterSet(fields, p, Str(rewrite(Get(Obj(fields), p).value, rule)), []);
    }
  }

  /** No rule turns a text or nothing into anything else. */
  lemma AtMostTextStays(fields: Fields, rule: Rule, role: string, rewrite: Rewriting, q: Path)
    requires RedactField(fields, rule, role, rewrite).Ok? && AtMostText(fields, q) && q != []
    ensures AtMostText(RedactField(fields, rule, role, rewrite).value, q)
  {
    var p := Target(rule);
    var after := RedactField(fields, rule, role, rewrite).value;
    FieldNoNewPath(fields, rule, role, rewrite);
    if p == q {
      if Denied(rule, role) { FieldRedacted(fields, rule, role, rewrite); }
    } else if p == [] || Apart(p, q) {
      FieldElsewhere(fields, rule, role, rewrite, q);
    } else if Prefix(p, q) {
      BelowText(fields, rule, role, rewrite, q);
    } else {
      TextHasNoInside(fields, q, p);
    }
  }

  /** Below a text there is nothing. */
  lemma TextHasNoInside(fields: Fields, q: Path, p: Path)
    requires Prefix(q, p) && q != p && AtMostText(fields, q)
    ensures Get(Obj(fields), p).None?
  {
    PrefixSplits(q, p);
    GetThrough(Obj(fields), q, p[|q|..]);
  }

  lemma {:induction false} GetThrough(doc: Json, q: Path, r: Path)
    ensures Get(doc, q + r) == match Get(doc, q) case Some(v) => Get(v, r) case None => None
    decreases |q|
  {
    if q == [] {
      assert q + r == r;
    } else {
      assert (q + r)[1..] == q[1..] + r;
      if doc.Obj? && q[0] in doc.fields { GetThrough(doc.fields[q[0]], q[1..], r); }
    }
  }

  /** A rule on the way to `q` leaves nothing there, or what was there. */
  lemma BelowText(fields: Fields, rule: Rule, role: string, rewrite: Rewriting, q: Path)
    requires RedactField(fields, rule, role, rewrite).Ok? && AtMostText(fields, q)
    requires Target(rule) != [] && Prefix(Target(rule), q) && Target(rule) != q
    ensures AtMostText(RedactField(fields, rule, role, rewrite).value, q)
  {
    var p := Target(rule);
    var after := RedactField(fields, rule, role, rewrite).value;
    if after != fields {
      FieldRedacted(fields, rule, role, rewrite);
      TextHasNoInside(after, p, q);
    }
  }

  // -------------------------------------------------------------------------------------------
  // What all of them do, in whatever order they come
  // -------------------------------------------------------------------------------------------

  lemma {:induction false} ErrorStays(fields: Fields, rules: seq<Rule>, i: nat, role: string, rewrite: Rewriting,
      n: nat)
    requires i <= n <= |rules| && RedactTo(fields, rules, i, role, rewrite).Err?
    ensures RedactTo(fields, rules, n, role, rewrite).Err?
    decreases n
  {
    if i < n { ErrorStays(fields, rules, i, role, rewrite, n - 1); }
  }

  lemma {:induction false} RulesNoNewPath(fields: Fields, rules: seq<Rule>, n: nat, role: string, rewrite: Rewriting)
    requires n <= |rules| && RedactTo(fields, rules, n, role, rewrite).Ok?
    ensures NoNewPath(fields, RedactTo(fields, rules, n, role, rewrite).value)
  {
    if n > 0 {
      RulesNoNewPath(fields, rules, n - 1, role, rewrite);
      FieldNoNewPath(RedactTo(fields, rules, n - 1, role, rewrite).value, rules[n - 1], role, rewrite);
    }
  }

  lemma {:induction false} RuleLasts(fields: Fields, rules: seq<Rule>, n: nat, role: string, rewrite: Rewriting, j: nat)
    requires j < n <= |rules| && RedactTo(fields, rules, n, role, rewrite).Ok?
    requires Denied(rules[j], role) && Target(rules[j]) != []
    ensures var after := RedactTo(fields, rules, n, role, rewrite).value;
            && (rules[j].action == Hide ==> Get(Obj(after), Target(rules[j])).None?)
            && AtMostText(after, Target(rules[j]))
  {
    var before := RedactTo(fields, rules, n - 1, role, rewrite).value;
    if j == n - 1 {
      FieldRedacted(before, rules[j], role, rewrite);
    } else {
      RuleLasts(fields, rules, n - 1, role, rewrite, j);
      FieldNoNewPath(before, rules[n - 1], role, rewrite);
      AtMostTextStays(before, rules[n - 1], role, rewrite, Target(rules[j]));
    }
  }

  /**
   Whatever the order of the rules, a reader who is not the system sees no path that was not there,
   nothing at or below a path hidden from them, and at most a text where something is masked or truncated.
   */
  lemma RedactionHides(fields: Fields, rules: seq<Rule>, reader: Reader, rewrite: Rewriting, j: nat, inside: Path)
    requires !reader.isSystem && Redact(fields, rules, reader, rewrite).Ok?
    requires j < |rules| && Denied(rules[j], reader.role) && Target(rules[j]) != []
    ensures var after := Redact(fields, rules, reader, rewrite).value;
            && NoNewPath(fields, after)
            && (rules[j].action == Hide ==> Get(Obj(after), Target(rules[j]) + inside).None?)
            && AtMostText(after, Target(rules[j]))
            && (inside != [] ==> Get(Obj(after), Target(rules[j]) + inside).None?)
  {
    RulesNoNewPath(fields, rules, |rules|, reader.role, rewrite);
    RuleLasts(fields, rules, |rules|, reader.role, rewrite, j);
    GetThrough(Obj(Redact(fields, rules, reader, rewrite).value), Target(rules[j]), inside);
  }

  /** What no rule touches is seen as it is. */
  lemma {:induction false} RedactionElsewhere(fields: Fields, rules: seq<Rule>, n: nat, role: string,
      rewrite: Rewriting, q: Path)
    requires n <= |rules| && RedactTo(fields, rules, n, role, rewrite).Ok?
    requires forall j | 0 <= j < n :: Target(rules[j]) == [] || Apart(Target(rules[j]), q)
    ensures Get(Obj(RedactTo(fields, rules, n, role, rewrite).value), q) == Get(Obj(fields), q)
  {
    if n > 0 {
      RedactionElsewhere(fields, rules, n - 1, role, rewrite, q);
      FieldElsewhere(RedactTo(fields, rules, n - 1, role, rewrite).value, rules[n - 1], role, rewrite, q);
    }
  }

  /** A reader who is allowed everything sees everything. */
  lemma {:induction false} AllowedSeesAll(fields: Fields, rules: seq<Rule>, n: nat, role: string, rewrite: Rewriting)
    requires n <= |rules| && forall j | 0 <= j < n :: rules[j].roles.Some? && ContainsRole(rules[j].roles.value, role)
    ensures RedactTo(fields, rules, n, role, rewrite) == Ok(fields)
  {
    if n > 0 { AllowedSeesAll(fields, rules, n - 1, role, rewrite); }
  }
}
