/**
 What approval expressions mean, said of the numbers, truth values and texts that their operands stand
 for: comparisons, connectives and fields, of a tree and of the text it is printed to.
 */
module ExpressionMeaning {
  import opened Outcomes
  import opened Texts
  import opened Lexer
  import opened Expression
  import opened ExpressionPrinter
  import DocumentPaths

  // -------------------------------------------------------------------------------------------
  // What a value stands for
  // -------------------------------------------------------------------------------------------

  /** A number, or a text that spells one. */
  predicate NumberIn(v: Value, lib: Library, x: Float) {
    v == Num(x) || (v.Str? && lib.parseFloat(TrimSpace(v.s)) == Some(x))
  }

  ghost predicate Numeric(v: Value, lib: Library) {
    exists x :: NumberIn(v, lib, x)
  }

  /** A truth value, or a text that spells one in any case. */
  predicate TruthIn(v: Value, b: bool) {
    v == Bool(b) || (v.Str? && TrimSpace(ToLower(v.s)) == if b then "true" else "false")
  }

  predicate Truthful(v: Value) {
    TruthIn(v, true) || TruthIn(v, false)
  }

  /** The text a value is compared as when it is neither number nor truth value. */
  predicate TextIn(v: Value, lib: Library, t: string) {
    match v
    case Str(s) => t == s
    case Bool(b) => t == if b then "true" else "false"
    case _ => t == lib.sprint(v)
  }

  lemma NumberRead(v: Value, lib: Library, x: Float)
    ensures NumberIn(v, lib, x) <==> AsFloat(v, lib) == Some(x)
  {
  }

  lemma NumericRead(v: Value, lib: Library)
    ensures Numeric(v, lib) <==> AsFloat(v, lib).Some?
  {
    if AsFloat(v, lib).Some? { assert NumberIn(v, lib, AsFloat(v, lib).value); }
  }

  lemma TruthRead(v: Value, b: bool)
    ensures TruthIn(v, b) <==> AsBool(v) == Some(b)
  {
  }

  // -------------------------------------------------------------------------------------------
  // Trees and printed texts
  // -------------------------------------------------------------------------------------------

  ghost predicate Comes(e: Expr, env: Env, v: Value) {
    Proper(e) && Eval(e, env) == Ok(v)
  }

  /** The tree has this truth value, and evaluating the text it is printed to gives it. */
  ghost predicate Yields(e: Expr, env: Env, b: bool) {
    Comes(e, env, Bool(b)) && (Writable(e) ==> EvaluateInSteps(Render(Print(e, 0)), env) == Ok(b))
  }

  /** The tree has no value, and evaluating its text fails. */
  ghost predicate Fails(e: Expr, env: Env) {
    Proper(e) && Eval(e, env).Err? && (Writable(e) ==> EvaluateInSteps(Render(Print(e, 0)), env).Err?)
  }

  lemma TextYields(e: Expr, env: Env, b: bool)
    requires Comes(e, env, Bool(b))
    ensures Yields(e, env, b)
  {
    if Writable(e) { PrintThenEvaluate(e, env); }
  }

  lemma TextFails(e: Expr, env: Env)
    requires Proper(e) && Eval(e, env).Err?
    ensures Fails(e, env)
  {
    if Writable(e) { PrintThenEvaluate(e, env); }
  }

  // -------------------------------------------------------------------------------------------
  // Comparisons
  // -------------------------------------------------------------------------------------------

  /** All six comparisons, by how the operands relate. */
  ghost predicate Compares(l: Expr, r: Expr, env: Env, less: bool, equal: bool, greater: bool) {
    && Yields(Compare(Eq, l, r), env, equal) && Yields(Compare(Ne, l, r), env, !equal)
    && Yields(Compare(Lt, l, r), env, less) && Yields(Compare(Gt, l, r), env, greater)
    && Yields(Compare(Le, l, r), env, less || equal) && Yields(Compare(Ge, l, r), env, greater || equal)
  }

  /** The same for two values. */
  predicate Related(lv: Value, rv: Value, lib: Library, less: bool, equal: bool, greater: bool) {
    && EvaluateComparison(Eq, lv, rv, lib) == Ok(equal) && EvaluateComparison(Ne, lv, rv, lib) == Ok(!equal)
    && EvaluateComparison(Lt, lv, rv, lib) == Ok(less) && EvaluateComparison(Gt, lv, rv, lib) == Ok(greater)
    && EvaluateComparison(Le, lv, rv, lib) == Ok(less || equal)
    && EvaluateComparison(Ge, lv, rv, lib) == Ok(greater || equal)
  }

  lemma OneCompares(op: Kind, l: Expr, r: Expr, env: Env, lv: Value, rv: Value)
    requires IsComparison(op) && Comes(l, env, lv) && Comes(r, env, rv)
    ensures var e, result := Compare(op, l, r), EvaluateComparison(op, lv, rv, env.lib);
            if result.Ok? then Yields(e, env, result.value) else Fails(e, env)
  {
    var e, result := Compare(op, l, r), EvaluateComparison(op, lv, rv, env.lib);
    if result.Ok? {
      TextYields(e, env, result.value);
    } else {
      TextFails(e, env);
    }
  }

  lemma ComparesBy(l: Expr, r: Expr, env: Env, lv: Value, rv: Value, less: bool, equal: bool, greater: bool)
    requires Comes(l, env, lv) && Comes(r, env, rv) && Related(lv, rv, env.lib, less, equal, greater)
    ensures Compares(l, r, env, less, equal, greater)
  {
    OneCompares(Eq, l, r, env, lv, rv);
    OneCompares(Ne, l, r, env, lv, rv);
    OneCompares(Lt, l, r, env, lv, rv);
    OneCompares(Gt, l, r, env, lv, rv);
    OneCompares(Le, l, r, env, lv, rv);
    OneCompares(Ge, l, r, env, lv, rv);
  }

  /** The order of the numbers with the two infinities; NaN is below nothing and above nothing. */
  predicate Below(x: Float, y: Float) {
    && !x.NaN? && !y.NaN? && x != y
    && (x.NegInf? || y.PosInf? || (x.Finite? && y.Finite? && x.r < y.r))
  }

  /** Operands that stand for numbers are compared as numbers, and NaN is only ever unequal. */
  lemma FloatsCompare(l: Expr, r: Expr, env: Env, lv: Value, rv: Value, x: Float, y: Float)
    requires Comes(l, env, lv) && Comes(r, env, rv) && NumberIn(lv, env.lib, x) && NumberIn(rv, env.lib, y)
    ensures Compares(l, r, env, Below(x, y), x == y && !x.NaN?, Below(y, x))
  {
    NumberRead(lv, env.lib, x);
    NumberRead(rv, env.lib, y);
    ComparesBy(l, r, env, lv, rv, Below(x, y), x == y && !x.NaN?, Below(y, x));
  }

  /** On real numbers the six comparisons are the six relations. */
  lemma NumbersCompare(l: Expr, r: Expr, env: Env, lv: Value, rv: Value, a: real, b: real)
    requires Comes(l, env, lv) && Comes(r, env, rv)
    requires NumberIn(lv, env.lib, Finite(a)) && NumberIn(rv, env.lib, Finite(b))
    ensures Yields(Compare(Eq, l, r), env, a == b) && Yields(Compare(Ne, l, r), env, a != b)
    ensures Yields(Compare(Lt, l, r), env, a < b) && Yields(Compare(Gt, l, r), env, a > b)
    ensures Yields(Compare(Le, l, r), env, a <= b) && Yields(Compare(Ge, l, r), env, a >= b)
  {
    FloatsCompare(l, r, env, lv, rv, Finite(a), Finite(b));
  }

  /** The texts are the same up to `i`, where `s` ends or has the smaller code point. */
  ghost predicate DiffersAt(s: string, t: string, i: nat) {
    && i <= |s| && i < |t| && s[..i] == t[..i]
    && (i < |s| ==> s[i] < t[i])
  }

  ghost predicate Before(s: string, t: string) {
    exists i: nat :: DiffersAt(s, t, i)
  }

  lemma {:induction false} TextOrder(s: string, t: string)
    ensures TextLess(s, t) <==> Before(s, t)
    decreases |s|
  {
    if s == "" {
      if t != "" { assert DiffersAt(s, t, 0); }
    } else if t != "" {
      if s[0] == t[0] {
        TextOrder(s[1..], t[1..]);
        if Before(s[1..], t[1..]) {
          var i: nat :| DiffersAt(s[1..], t[1..], i);
          assert s[..i + 1] == [s[0]] + s[1..][..i] && t[..i + 1] == [t[0]] + t[1..][..i];
          assert DiffersAt(s, t, i + 1);
        }
        if Before(s, t) {
          var i: nat :| DiffersAt(s, t, i);
          assert i > 0 && s[1..][..i - 1] == s[..i][1..] && t[1..][..i - 1] == t[..i][1..];
          assert DiffersAt(s[1..], t[1..], i - 1);
        }
      } else {
        if s[0] < t[0] { assert DiffersAt(s, t, 0); }
        if Before(s, t) {
          var i: nat :| DiffersAt(s, t, i);
          assert i > 0 ==> s[..i][0] == t[..i][0];
        }
      }
    }
  }

  lemma TextsRelated(lv: Value, rv: Value, lib: Library, s: string, t: string)
    requires AsFloat(lv, lib).None? && AsBool(lv).None? && TextIn(lv, lib, s) && TextIn(rv, lib, t)
    ensures Related(lv, rv, lib, TextLess(s, t), s == t, TextLess(t, s))
  {
    assert Text(lv, lib) == s && Text(rv, lib) == t;
    assert forall op | IsComparison(op) :: EvaluateComparison(op, lv, rv, lib) == Ok(CompareTexts(op, s, t));
  }

  /** Otherwise the texts are compared, by code points. */
  lemma TextsCompare(l: Expr, r: Expr, env: Env, lv: Value, rv: Value, s: string, t: string)
    requires Comes(l, env, lv) && Comes(r, env, rv) && !Numeric(lv, env.lib) && !Truthful(lv)
    requires TextIn(lv, env.lib, s) && TextIn(rv, env.lib, t)
    ensures Compares(l, r, env, Before(s, t), s == t, Before(t, s))
  {
    NumericRead(lv, env.lib);
    TruthRead(lv, true);
    TruthRead(lv, false);
    TextsRelated(lv, rv, env.lib, s, t);
    ComparesBy(l, r, env, lv, rv, TextLess(s, t), s == t, TextLess(t, s));
    TextOrder(s, t);
    TextOrder(t, s);
  }

  /** Truth values can only be equal or not. */
  lemma TruthsCompare(l: Expr, r: Expr, env: Env, lv: Value, rv: Value, a: bool, b: bool)
    requires Comes(l, env, lv) && Comes(r, env, rv) && !Numeric(lv, env.lib) && TruthIn(lv, a) && TruthIn(rv, b)
    ensures Yields(Compare(Eq, l, r), env, a == b) && Yields(Compare(Ne, l, r), env, a != b)
  {
    NumericRead(lv, env.lib);
    TruthRead(lv, a);
    TruthRead(rv, b);
    OneCompares(Eq, l, r, env, lv, rv);
    OneCompares(Ne, l, r, env, lv, rv);
  }

  /** A number against something else, a truth value against something else, or an order of truth values. */
  ghost predicate Mismatch(op: Kind, lv: Value, rv: Value, lib: Library) {
    if Numeric(lv, lib) then !Numeric(rv, lib)
    else Truthful(lv) && (!Truthful(rv) || (op != Eq && op != Ne))
  }

  /** Exactly when a comparison fails. */
  lemma ComparisonFailsIff(op: Kind, l: Expr, r: Expr, env: Env)
    requires IsComparison(op) && Proper(l) && Proper(r)
    ensures Fails(Compare(op, l, r), env) <==>
            || Eval(l, env).Err? || Eval(r, env).Err?
            || Mismatch(op, Eval(l, env).value, Eval(r, env).value, env.lib)
    ensures Fails(Compare(op, l, r), env) || exists b :: Yields(Compare(op, l, r), env, b)
  {
    if Eval(l, env).Ok? && Eval(r, env).Ok? {
      var lv, rv := Eval(l, env).value, Eval(r, env).value;
      MismatchFails(op, lv, rv, env.lib);
      OneCompares(op, l, r, env, lv, rv);
    } else {
      TextFails(Compare(op, l, r), env);
    }
  }

  lemma MismatchFails(op: Kind, lv: Value, rv: Value, lib: Library)
    requires IsComparison(op)
    ensures Mismatch(op, lv, rv, lib) <==> EvaluateComparison(op, lv, rv, lib).Err?
  {
    NumericRead(lv, lib);
    NumericRead(rv, lib);
    TruthRead(lv, true);
    TruthRead(lv, false);
    TruthRead(rv, true);
    TruthRead(rv, false);
  }

  // -------------------------------------------------------------------------------------------
  // Connectives
  // -------------------------------------------------------------------------------------------

  lemma ConnectivesMean(l: Expr, r: Expr, env: Env, lv: Value, rv: Value, a: bool, b: bool)
    requires Comes(l, env, lv) && Comes(r, env, rv) && TruthIn(lv, a) && TruthIn(rv, b)
    ensures Yields(AndOf(l, r), env, a && b) && Yields(OrOf(l, r), env, a || b)
  {
    TruthRead(lv, a);
    TruthRead(rv, b);
    TextYields(AndOf(l, r), env, a && b);
    TextYields(OrOf(l, r), env, a || b);
  }

  ghost predicate HasTruth(e: Expr, env: Env)
    requires Proper(e)
  {
    Eval(e, env).Ok? && Truthful(Eval(e, env).value)
  }

  /** Neither operand is left out: a connective fails as soon as one of them has no truth value. */
  lemma ConnectiveFailsIff(l: Expr, r: Expr, env: Env)
    requires Proper(l) && Proper(r)
    ensures Fails(AndOf(l, r), env) <==> !HasTruth(l, env) || !HasTruth(r, env)
    ensures Fails(OrOf(l, r), env) <==> !HasTruth(l, env) || !HasTruth(r, env)
  {
    if HasTruth(l, env) && HasTruth(r, env) {
      var a, b := TruthIn(Eval(l, env).value, true), TruthIn(Eval(r, env).value, true);
      ConnectivesMean(l, r, env, Eval(l, env).value, Eval(r, env).value, a, b);
    } else {
      if Eval(l, env).Ok? {
        TruthRead(Eval(l, env).value, true);
        TruthRead(Eval(l, env).value, false);
      }
      if Eval(r, env).Ok? {
        TruthRead(Eval(r, env).value, true);
        TruthRead(Eval(r, env).value, false);
      }
      TextFails(AndOf(l, r), env);
      TextFails(OrOf(l, r), env);
    }
  }

  // -------------------------------------------------------------------------------------------
  // Fields
  // -------------------------------------------------------------------------------------------

  /** `chain` goes from `v` through one field per part. */
  ghost predicate Walks(v: Value, parts: seq<string>, chain: seq<Value>) {
    && |chain| == |parts| + 1 && chain[0] == v
    && forall k | 0 <= k < |parts| ::
         chain[k].Obj? && parts[k] in chain[k].fields && chain[k + 1] == chain[k].fields[parts[k]]
  }

  lemma {:induction false} LookupWalks(v: Value, parts: seq<string>) returns (chain: seq<Value>)
    requires Lookup(v, parts).Some?
    ensures Walks(v, parts, chain) && chain[|parts|] == Lookup(v, parts).value
    decreases |parts|
  {
    if parts == [] {
      chain := [v];
    } else {
      var rest := LookupWalks(v.fields[parts[0]], parts[1..]);
      chain := [v] + rest;
      forall k | 0 <= k < |parts|
        ensures chain[k].Obj? && parts[k] in chain[k].fields && chain[k + 1] == chain[k].fields[parts[k]]
      {
        if k > 0 { assert parts[k] == parts[1..][k - 1] && chain[k] == rest[k - 1]; }
      }
    }
  }

  lemma {:induction false} WalkFound(v: Value, parts: seq<string>, chain: seq<Value>)
    requires Walks(v, parts, chain)
    ensures Lookup(v, parts) == Some(chain[|parts|])
    decreases |parts|
  {
    if parts != [] {
      assert parts[0] in chain[0].fields;
      forall k | 0 <= k < |parts| - 1
        ensures var c := chain[1..]; c[k].Obj? && parts[1..][k] in c[k].fields && c[k + 1] == c[k].fields[parts[1..][k]]
      {
        assert chain[k + 1].Obj? && parts[k + 1] in chain[k + 1].fields;
      }
      WalkFound(chain[1], parts[1..], chain[1..]);
    }
  }

  /** A dotted name stands for what one field after the other leads to, and for nothing when one is missing. */
  lemma FieldMeans(parts: seq<string>, env: Env, v: Value)
    requires parts != [] && forall i | 0 <= i < |parts| :: '.' !in parts[i]
    ensures Comes(Field(DocumentPaths.Dotted(parts)), env, v)
            <==> exists chain :: Walks(Obj(env.ctx), parts, chain) && chain[|parts|] == v
  {
    DocumentPaths.SplitDotted(parts);
    if Lookup(Obj(env.ctx), parts) == Some(v) {
      var chain := LookupWalks(Obj(env.ctx), parts);
    }
    if exists chain :: Walks(Obj(env.ctx), parts, chain) && chain[|parts|] == v {
      var chain :| Walks(Obj(env.ctx), parts, chain) && chain[|parts|] == v;
      WalkFound(Obj(env.ctx), parts, chain);
    }
  }

  // -------------------------------------------------------------------------------------------
  // As it is written
  // -------------------------------------------------------------------------------------------

  /** Evaluating `name operator number` as a policy author writes it. */
  ghost predicate Written(name: string, operator: string, number: string, env: Env, b: bool) {
    EvaluateInSteps(name + " " + operator + " " + number, env) == Ok(b)
  }

  lemma PrintedThree(name: string, op: Kind, number: string)
    requires IsComparison(op)
    ensures Print(Compare(op, Field(name), NumberLit(number)), 0)
            == [Lexeme(Identifier, name), Lexeme(op, OperatorText(op)), Lexeme(Number, number)]
  {
    var l, r := Field(name), NumberLit(number);
    assert Print(l, 3) == [Lexeme(Identifier, name)] && Print(r, 3) == [Lexeme(Number, number)];
    assert PrintBare(Compare(op, l, r)) == Print(l, 3) + [Lexeme(op, OperatorText(op))] + Print(r, 3);
  }

  lemma WrittenYields(name: string, op: Kind, number: string, env: Env, b: bool)
    requires IsIdentifierText(name) && IsNumberText(number) && IsComparison(op)
    requires Yields(Compare(op, Field(name), NumberLit(number)), env, b)
    ensures Written(name, OperatorText(op), number, env, b)
  {
    assert Writable(Field(name)) && Writable(NumberLit(number));
    PrintedThree(name, op, number);
    RenderThree(Lexeme(Identifier, name), Lexeme(op, OperatorText(op)), Lexeme(Number, number));
  }

  lemma RenderThree(x: Lexeme, y: Lexeme, z: Lexeme)
    ensures Render([x, y, z]) == Spelling(x) + " " + Spelling(y) + " " + Spelling(z)
  {
    assert [x, y, z][1..] == [y, z] && [y, z][1..] == [z];
    assert Render([y, z]) == Spelling(y) + " " + Spelling(z);
    assert Render([x, y, z]) == Spelling(x) + " " + (Spelling(y) + " " + Spelling(z));
  }

  /** All six operators as written. */
  ghost predicate WrittenSix(name: string, number: string, env: Env, less: bool, equal: bool, greater: bool) {
    && Written(name, "==", number, env, equal) && Written(name, "!=", number, env, !equal)
    && Written(name, "<", number, env, less) && Written(name, ">", number, env, greater)
    && Written(name, "<=", number, env, less || equal) && Written(name, ">=", number, env, greater || equal)
  }

  lemma WrittenStrictly(name: string, number: string, env: Env, less: bool, equal: bool, greater: bool)
    requires IsIdentifierText(name) && IsNumberText(number)
    requires Compares(Field(name), NumberLit(number), env, less, equal, greater)
    ensures Written(name, "==", number, env, equal)
    ensures Written(name, "<", number, env, less) && Written(name, ">", number, env, greater)
  {
    WrittenYields(name, Eq, number, env, equal);
    WrittenYields(name, Lt, number, env, less);
    WrittenYields(name, Gt, number, env, greater);
  }

  lemma WrittenLoosely(name: string, number: string, env: Env, less: bool, equal: bool, greater: bool)
    requires IsIdentifierText(name) && IsNumberText(number)
    requires Compares(Field(name), NumberLit(number), env, less, equal, greater)
    ensures Written(name, "!=", number, env, !equal)
    ensures Written(name, "<=", number, env, less || equal) && Written(name, ">=", number, env, greater || equal)
  {
    WrittenYields(name, Ne, number, env, !equal);
    WrittenYields(name, Le, number, env, less || equal);
    WrittenYields(name, Ge, number, env, greater || equal);
  }

  /** A field that holds a number against a number: the operators as written are the relations they stand for. */
  lemma FieldAgainstNumber(name: string, number: string, env: Env, v: Value, a: real, b: real)
    requires IsIdentifierText(name) && IsNumberText(number) && env.lib.parseFloat(number) == Some(Finite(b))
    requires Comes(Field(name), env, v) && NumberIn(v, env.lib, Finite(a))
    ensures WrittenSix(name, number, env, a < b, a == b, a > b)
  {
    FloatsCompare(Field(name), NumberLit(number), env, v, Num(Finite(b)), Finite(a), Finite(b));
    WrittenStrictly(name, number, env, a < b, a == b, a > b);
    WrittenLoosely(name, number, env, a < b, a == b, a > b);
  }
}
