/**
 Approval expressions: their syntax trees, the meaning of a tree, and the recursive-descent parser.

 The code evaluates while it parses. Here `ParseOr` and its companions only build a tree and `Eval`
 only evaluates one; the class `ExprParser` is the fused parser and evaluator, and is proved to
 succeed with a value exactly when the two separate steps do.
 */
module Expression {
  import opened Outcomes
  import opened Texts
  import opened Lexer

  // -------------------------------------------------------------------------------------------
  // Values
  // -------------------------------------------------------------------------------------------

  /** A float64 with rounding left out: a real number or one of the special values. */
  datatype Float = Finite(r: real) | PosInf | NegInf | NaN {
    predicate Equals(that: Float) {
      !NaN? && this == that
    }

    predicate Less(that: Float) {
      match (this, that)
      case (Finite(a), Finite(b)) => a < b
      case (NegInf, Finite(_)) => true
      case (NegInf, PosInf) => true
      case (Finite(_), PosInf) => true
      case _ => false
    }
  }

  /** A value of the JSON-like context. */
  datatype Value =
    | Num(n: Float)
    | Str(s: string)
    | Bool(b: bool)
    | Null
    | List(items: seq<Value>)
    | Obj(fields: map<string, Value>)

  /** The library conversions the code relies on: `strconv.ParseFloat` and `fmt.Sprint`. */
  datatype Library = Library(parseFloat: string -> Option<Float>, sprint: Value -> string)

  function AsBool(v: Value): Option<bool> {
    match v
    case Bool(b) => Some(b)
    case Str(s) =>
      var t := TrimSpace(ToLower(s));
      if t == "true" then Some(true) else if t == "false" then Some(false) else None
    case _ => None
  }

  function AsFloat(v: Value, lib: Library): Option<Float> {
    match v
    case Num(n) => Some(n)
    case Str(s) => lib.parseFloat(TrimSpace(s))
    case _ => None
  }

  function Text(v: Value, lib: Library): string {
    match v
    case Str(s) => s
    case Bool(b) => if b then "true" else "false"
    case _ => lib.sprint(v)
  }

  function Lookup(v: Value, parts: seq<string>): Option<Value> {
    if parts == [] then Some(v)
    else if v.Obj? && parts[0] in v.fields then Lookup(v.fields[parts[0]], parts[1..])
    else None
  }

  /** `lookupPath`: walk one field per part; None when a part is missing or its parent is no object. */
  method LookupPath(ctx: map<string, Value>, path: string) returns (r: Option<Value>)
    ensures r == Lookup(Obj(ctx), Split(path, ""))
  {
    var parts := Split(path, "");
    var current := Obj(ctx);
    var i := 0;
    while i < |parts|
      invariant 0 <= i <= |parts|
      invariant Lookup(Obj(ctx), parts) == Lookup(current, parts[i..])
    {
      if !current.Obj? || parts[i] !in current.fields {
        return None;
      }
      assert parts[i..][1..] == parts[i + 1..];
      current, i := current.fields[parts[i]], i + 1;
    }
    r := Some(current);
  }

  predicate IsComparison(k: Kind) {
    k.Eq? || k.Ne? || k.Lt? || k.Gt? || k.Le? || k.Ge?
  }

  /** Numbers first, then booleans, then text; the left operand decides. */
  function EvaluateComparison(op: Kind, left: Value, right: Value, lib: Library): Result<bool>
    requires IsComparison(op)
  {
    match AsFloat(left, lib)
    case Some(l) =>
      (match AsFloat(right, lib)
       case None => Err("numeric comparison with non-numeric right operand")
       case Some(r) => Ok(CompareFloats(op, l, r)))
    case None =>
      match AsBool(left)
      case Some(l) =>
        (match AsBool(right)
         case None => Err("boolean comparison with non-boolean right operand")
         case Some(r) =>
           if op == Eq then Ok(l == r)
           else if op == Ne then Ok(l != r)
           else Err("boolean supports only == and !="))
      case None => Ok(CompareTexts(op, Text(left, lib), Text(right, lib)))
  }

  predicate CompareFloats(op: Kind, l: Float, r: Float)
    requires IsComparison(op)
  {
    match op
    case Eq => l.Equals(r)
    case Ne => !l.Equals(r)
    case Lt => l.Less(r)
    case Gt => r.Less(l)
    case Le => l.Less(r) || l.Equals(r)
    case Ge => r.Less(l) || l.Equals(r)
  }

  predicate CompareTexts(op: Kind, l: string, r: string)
    requires IsComparison(op)
  {
    match op
    case Eq => l == r
    case Ne => l != r
    case Lt => TextLess(l, r)
    case Gt => TextLess(r, l)
    case Le => TextLess(l, r) || l == r
    case Ge => TextLess(r, l) || l == r
  }

  // -------------------------------------------------------------------------------------------
  // Trees and their meaning
  // -------------------------------------------------------------------------------------------

  datatype Expr =
    | NumberLit(text: string)
    | StringLit(text: string)
    | BoolLit(b: bool)
    | Field(path: string)
    | Compare(op: Kind, left: Expr, right: Expr)
    | AndOf(left: Expr, right: Expr)
    | OrOf(left: Expr, right: Expr)

  /** Operators name a comparison. */
  predicate Proper(e: Expr) {
    match e
    case Compare(op, l, r) => IsComparison(op) && Proper(l) && Proper(r)
    case AndOf(l, r) => Proper(l) && Proper(r)
    case OrOf(l, r) => Proper(l) && Proper(r)
    case _ => true
  }

  datatype Env = Env(ctx: map<string, Value>, lib: Library)

  /** Strict evaluation: both operands of && and || are evaluated and must be boolean. */
  function Eval(e: Expr, env: Env): Result<Value>
    requires Proper(e)
  {
    match e
    case NumberLit(text) =>
      (match env.lib.parseFloat(text)
       case Some(n) => Ok(Num(n))
       case None => Err("invalid numeric literal"))
    case StringLit(text) => Ok(Str(text))
    case BoolLit(b) => Ok(Bool(b))
    case Field(path) =>
      (match Lookup(Obj(env.ctx), Split(path, ""))
       case Some(v) => Ok(v)
       case None => Err("unknown field"))
    case Compare(op, l, r) =>
      var lv :- Eval(l, env);
      var rv :- Eval(r, env);
      var b :- EvaluateComparison(op, lv, rv, env.lib);
      Ok(Bool(b))
    case AndOf(l, r) =>
      var lv :- Eval(l, env);
      var rv :- Eval(r, env);
      Both(lv, rv, true)
    case OrOf(l, r) =>
      var lv :- Eval(l, env);
      var rv :- Eval(r, env);
      Both(lv, rv, false)
  }

  function Both(lv: Value, rv: Value, conjunction: bool): Result<Value> {
    match (AsBool(lv), AsBool(rv))
    case (Some(l), Some(r)) => Ok(Bool(if conjunction then l && r else l || r))
    case (None, _) => Err("left side is not boolean")
    case (_, None) => Err("right side is not boolean")
  }

  // -------------------------------------------------------------------------------------------
  // Parsing to a tree
  // -------------------------------------------------------------------------------------------

  function Current(ts: seq<Token>, i: nat): Token {
    if i < |ts| then ts[i] else Token(EOF, "", 0)
  }

  /** A parse result: a tree and the position after it. Every successful parse consumes at least one token. */
  ghost predicate Consumes(ts: seq<Token>, i: nat, r: Result<(Expr, nat)>) {
    r.Ok? ==> i < r.value.1 <= |ts| && Proper(r.value.0)
  }

  function ParseOr(ts: seq<Token>, i: nat): (r: Result<(Expr, nat)>)
    ensures Consumes(ts, i, r)
    decreases |ts| - i, 5
  {
    var (e, j) :- ParseAnd(ts, i);
    OrRest(ts, j, e)
  }

  function OrRest(ts: seq<Token>, i: nat, left: Expr): (r: Result<(Expr, nat)>)
    requires i <= |ts| && Proper(left)
    ensures r.Ok? ==> i <= r.value.1 <= |ts| && Proper(r.value.0)
    decreases |ts| - i, 4
  {
    if Current(ts, i).kind != Or then Ok((left, i))
    else
      var (e, j) :- ParseAnd(ts, i + 1);
      OrRest(ts, j, OrOf(left, e))
  }

  function ParseAnd(ts: seq<Token>, i: nat): (r: Result<(Expr, nat)>)
    ensures Consumes(ts, i, r)
    decreases |ts| - i, 3
  {
    var (e, j) :- ParseComparison(ts, i);
    AndRest(ts, j, e)
  }

  function AndRest(ts: seq<Token>, i: nat, left: Expr): (r: Result<(Expr, nat)>)
    requires i <= |ts| && Proper(left)
    ensures r.Ok? ==> i <= r.value.1 <= |ts| && Proper(r.value.0)
    decreases |ts| - i, 2
  {
    if Current(ts, i).kind != And then Ok((left, i))
    else
      var (e, j) :- ParseComparison(ts, i + 1);
      AndRest(ts, j, AndOf(left, e))
  }

  function ParseComparison(ts: seq<Token>, i: nat): (r: Result<(Expr, nat)>)
    ensures Consumes(ts, i, r)
    decreases |ts| - i, 1
  {
    var (l, j) :- ParsePrimary(ts, i);
    if !IsComparison(Current(ts, j).kind) then Ok((l, j))
    else
      var (r, k) :- ParsePrimary(ts, j + 1);
      Ok((Compare(Current(ts, j).kind, l, r), k))
  }

  function ParsePrimary(ts: seq<Token>, i: nat): (r: Result<(Expr, nat)>)
    ensures Consumes(ts, i, r)
    decreases |ts| - i, 0
  {
    var t := Current(ts, i);
    match t.kind
    case LParen =>
      var (e, j) :- ParseOr(ts, i + 1);
      if Current(ts, j).kind == RParen then Ok((e, j + 1)) else Err("expected ')'")
    case Number => Ok((NumberLit(t.text), i + 1))
    case String => Ok((StringLit(t.text), i + 1))
    case Boolean => Ok((BoolLit(t.text == "true"), i + 1))
    case Identifier => Ok((Field(t.text), i + 1))
    case _ => Err("expected literal, identifier, or '('")
  }

  /** Parsing and then evaluating, as two separate steps. */
  function Meaning(r: Result<(Expr, nat)>, env: Env): (v: Result<(Value, nat)>)
    requires r.Ok? ==> Proper(r.value.0)
  {
    match r
    case Err(e) => Err(e)
    case Ok((e, j)) =>
      match Eval(e, env)
      case Ok(v) => Ok((v, j))
      case Err(m) => Err(m)
  }

  /** Agreement of a parser method with the two steps: the same successes with the same value and position. */
  ghost predicate SameOutcome(r: Result<Value>, pos: nat, spec: Result<(Value, nat)>) {
    && (r.Ok? <==> spec.Ok?)
    && (r.Ok? ==> spec.value == (r.value, pos))
  }

  /** What cannot be evaluated stays so when more operands are added on the right. */
  lemma {:induction false} OrRestStuck(ts: seq<Token>, i: nat, left: Expr, env: Env)
    requires i <= |ts| && Proper(left) && Eval(left, env).Err?
    ensures Meaning(OrRest(ts, i, left), env).Err?
    decreases |ts| - i
  {
    if Current(ts, i).kind == Or {
      match ParseAnd(ts, i + 1)
      case Ok((e, j)) => OrRestStuck(ts, j, OrOf(left, e), env);
      case Err(_) =>
    }
  }

  lemma {:induction false} AndRestStuck(ts: seq<Token>, i: nat, left: Expr, env: Env)
    requires i <= |ts| && Proper(left) && Eval(left, env).Err?
    ensures Meaning(AndRest(ts, i, left), env).Err?
    decreases |ts| - i
  {
    if Current(ts, i).kind == And {
      match ParseComparison(ts, i + 1)
      case Ok((e, j)) => AndRestStuck(ts, j, AndOf(left, e), env);
      case Err(_) =>
    }
  }

  // -------------------------------------------------------------------------------------------
  // The fused parser
  // -------------------------------------------------------------------------------------------

  class ExprParser {
    const tokens: seq<Token>
    const env: Env
    var pos: nat

    constructor (tokens: seq<Token>, env: Env)
      ensures this.tokens == tokens && this.env == env && pos == 0
    {
      this.tokens := tokens;
      this.env := env;
      pos := 0;
    }

    method Consume() returns (t: Token)
      modifies this
      ensures t == Current(tokens, old(pos))
      ensures pos == if old(pos) < |tokens| then old(pos) + 1 else old(pos)
    {
      t := Current(tokens, pos);
      if pos < |tokens| {
        pos := pos + 1;
      }
    }

    method ParseExpression() returns (r: Result<Value>)
      modifies this
      ensures SameOutcome(r, pos, Meaning(ParseOr(tokens, old(pos)), env))
      decreases |tokens| - pos, 6
    {
      var left := ParseConjunction();
      if left.Err? {
        if ParseAnd(tokens, old(pos)).Ok? {
          OrRestStuck(tokens, ParseAnd(tokens, old(pos)).value.1, ParseAnd(tokens, old(pos)).value.0, env);
        }
        return left;
      }
      var value := left.value;
      ghost var e := ParseAnd(tokens, old(pos)).value.0;
      while Current(tokens, pos).kind == Or
        invariant old(pos) < pos <= |tokens| && Proper(e) && Eval(e, env) == Ok(value)
        invariant ParseOr(tokens, old(pos)) == OrRest(tokens, pos, e)
        decreases |tokens| - pos
      {
        var _ := Consume();
        ghost var next := ParseAnd(tokens, pos);
        var right := ParseConjunction();
        if next.Ok? {
          assert ParseOr(tokens, old(pos)) == OrRest(tokens, next.value.1, OrOf(e, next.value.0));
        }
        if right.Err? || AsBool(value).None? || AsBool(right.value).None? {
          if next.Ok? {
            OrRestStuck(tokens, next.value.1, OrOf(e, next.value.0), env);
          }
          return Err(if right.Err? then right.error else "operand of || is not boolean");
        }
        value := Bool(AsBool(value).value || AsBool(right.value).value);
        e := OrOf(e, next.value.0);
      }
      r := Ok(value);
    }

    method ParseConjunction() returns (r: Result<Value>)
      modifies this
      ensures SameOutcome(r, pos, Meaning(ParseAnd(tokens, old(pos)), env))
      decreases |tokens| - pos, 4
    {
      var left := ParseComparisonValue();
      if left.Err? {
        if ParseComparison(tokens, old(pos)).Ok? {
          AndRestStuck(tokens, ParseComparison(tokens, old(pos)).value.1,
                       ParseComparison(tokens, old(pos)).value.0, env);
        }
        return left;
      }
      var value := left.value;
      ghost var e := ParseComparison(tokens, old(pos)).value.0;
      while Current(tokens, pos).kind == And
        invariant old(pos) < pos <= |tokens| && Proper(e) && Eval(e, env) == Ok(value)
        invariant ParseAnd(tokens, old(pos)) == AndRest(tokens, pos, e)
        decreases |tokens| - pos
      {
        var _ := Consume();
        ghost var next := ParseComparison(tokens, pos);
        var right := ParseComparisonValue();
        if next.Ok? {
          assert ParseAnd(tokens, old(pos)) == AndRest(tokens, next.value.1, AndOf(e, next.value.0));
        }
        if right.Err? || AsBool(value).None? || AsBool(right.value).None? {
          if next.Ok? {
            AndRestStuck(tokens, next.value.1, AndOf(e, next.value.0), env);
          }
          return Err(if right.Err? then right.error else "operand of && is not boolean");
        }
        value := Bool(AsBool(value).value && AsBool(right.value).value);
        e := AndOf(e, next.value.0);
      }
      r := Ok(value);
    }

    method ParseComparisonValue() returns (r: Result<Value>)
      modifies this
      ensures SameOutcome(r, pos, Meaning(ParseComparison(tokens, old(pos)), env))
      decreases |tokens| - pos, 2
    {
      var left := ParsePrimaryValue();
      if left.Err? {
        return left;
      }
      var op := Current(tokens, pos).kind;
      if !IsComparison(op) {
        return left;
      }
      var _ := Consume();
      var right := ParsePrimaryValue();
      if right.Err? {
        return right;
      }
      var b := EvaluateComparison(op, left.value, right.value, env.lib);
      match b
      case Ok(result) => r := Ok(Bool(result));
      case Err(e) => r := Err(e);
    }

    method ParsePrimaryValue() returns (r: Result<Value>)
      modifies this
      ensures SameOutcome(r, pos, Meaning(ParsePrimary(tokens, old(pos)), env))
      decreases |tokens| - pos, 0
    {
      var t := Current(tokens, pos);
      match t.kind {
        case LParen =>
          var _ := Consume();
          var value := ParseExpression();
          if value.Err? {
            return value;
          }
          if Current(tokens, pos).kind != RParen {
            return Err("expected ')'");
          }
          var _ := Consume();
          r := value;
        case Number =>
          var _ := Consume();
          match env.lib.parseFloat(t.text) {
            case Some(n) => r := Ok(Num(n));
            case None => r := Err("invalid numeric literal");
          }
        case String =>
          var _ := Consume();
          r := Ok(Str(t.text));
        case Boolean =>
          var _ := Consume();
          r := Ok(Bool(t.text == "true"));
        case Identifier =>
          var _ := Consume();
          var found := LookupPath(env.ctx, t.text);
          match found {
            case Some(v) => r := Ok(v);
            case None => r := Err("unknown field");
          }
        case _ =>
          r := Err("expected literal, identifier, or '('");
      }
    }
  }

  /** The evaluator in separate steps: trim, tokenize, parse to a tree, evaluate it, convert to a boolean. */
  function EvaluateInSteps(expression: string, env: Env): Result<bool> {
    var trimmed := TrimSpace(expression);
    if trimmed == "" then Err("expression is empty")
    else
      var ts :- Lex(trimmed, 0);
      var (e, j) :- ParseOr(ts, 0);
      if Current(ts, j).kind != EOF then Err("unexpected token")
      else
        var v :- Eval(e, env);
        match AsBool(v)
        case Some(b) => Ok(b)
        case None => Err("final expression is not boolean")
  }

  /** `Evaluate`: the fused evaluator gives a truth value exactly when the separate steps give that value. */
  method Evaluate(expression: string, env: Env) returns (r: Result<bool>)
    ensures r.Ok? <==> EvaluateInSteps(expression, env).Ok?
    ensures r.Ok? ==> r == EvaluateInSteps(expression, env)
  {
    var trimmed := TrimSpace(expression);
    if trimmed == "" {
      return Err("expression is empty");
    }
    var lexed := Tokenize(trimmed);
    if lexed.Err? {
      return Err(lexed.error);
    }
    var parser := new ExprParser(lexed.value, env);
    var value := parser.ParseExpression();
    if value.Err? {
      return Err(value.error);
    }
    if Current(parser.tokens, parser.pos).kind != EOF {
      return Err("unexpected token");
    }
    match AsBool(value.value)
    case Some(b) => r := Ok(b);
    case None => r := Err("final expression is not boolean");
  }
}
