/**
 Printing expression trees with as few tokens as the grammar allows, and the round trip: printing,
 tokenizing and parsing gives the tree back, so evaluating the printed text gives the tree's own meaning.
 */
module ExpressionPrinter {
  import opened Outcomes
  import opened Texts
  import opened Lexer
  import opened Expression

  /** A token without its position. */
  datatype Lexeme = Lexeme(kind: Kind, text: string)

  // -------------------------------------------------------------------------------------------
  // Trees to lexemes
  // -------------------------------------------------------------------------------------------

  /** How tightly a tree binds: || below && below comparison below primary. */
  function Level(e: Expr): nat {
    match e
    case OrOf(_, _) => 0
    case AndOf(_, _) => 1
    case Compare(_, _, _) => 2
    case _ => 3
  }

  function OperatorText(k: Kind): string {
    match k
    case Eq => "=="
    case Ne => "!="
    case Lt => "<"
    case Gt => ">"
    case Le => "<="
    case Ge => ">="
    case _ => ""
  }

  /** The lexemes of `e` where a tree of at least the given level is expected. */
  function Print(e: Expr, level: nat): (ls: seq<Lexeme>)
    ensures ls != []
    decreases e, 1
  {
    if Level(e) < level then [Lexeme(LParen, "(")] + PrintBare(e) + [Lexeme(RParen, ")")] else PrintBare(e)
  }

  function PrintBare(e: Expr): (ls: seq<Lexeme>)
    ensures ls != []
    decreases e, 0
  {
    match e
    case NumberLit(text) => [Lexeme(Number, text)]
    case StringLit(text) => [Lexeme(String, text)]
    case BoolLit(b) => [Lexeme(Boolean, if b then "true" else "false")]
    case Field(path) => [Lexeme(Identifier, path)]
    case Compare(op, l, r) => Print(l, 3) + [Lexeme(op, OperatorText(op))] + Print(r, 3)
    case AndOf(l, r) => Print(l, 1) + [Lexeme(And, "&&")] + Print(r, 2)
    case OrOf(l, r) => Print(l, 0) + [Lexeme(Or, "||")] + Print(r, 1)
  }

  // -------------------------------------------------------------------------------------------
  // Lexemes back to the tree
  // -------------------------------------------------------------------------------------------

  /** The tokens from `i` on begin with these lexemes. */
  ghost predicate Shows(ts: seq<Token>, i: nat, ls: seq<Lexeme>) {
    && i + |ls| <= |ts|
    && forall k {:trigger ls[k]} | 0 <= k < |ls| :: ts[i + k].kind == ls[k].kind && ts[i + k].text == ls[k].text
  }

  lemma {:induction false} ShowsParts(ts: seq<Token>, i: nat, a: seq<Lexeme>, x: Lexeme, b: seq<Lexeme>)
    requires Shows(ts, i, a + [x] + b)
    ensures Shows(ts, i, a) && Shows(ts, i + |a| + 1, b)
    ensures i + |a| < |ts| && ts[i + |a|].kind == x.kind && ts[i + |a|].text == x.text
  {
    var whole := a + [x] + b;
    assert forall k | 0 <= k < |a| :: whole[k] == a[k];
    assert whole[|a|] == x;
    forall k | 0 <= k < |b|
      ensures ts[i + |a| + 1 + k].kind == b[k].kind && ts[i + |a| + 1 + k].text == b[k].text
    {
      assert whole[|a| + 1 + k] == b[k];
    }
  }

  lemma {:induction false} LeafBack(e: Expr, ts: seq<Token>, i: nat)
    requires Level(e) == 3 && Shows(ts, i, PrintBare(e))
    ensures ParsePrimary(ts, i) == Ok((e, i + 1))
  {
    var x := PrintBare(e)[0];
    assert ts[i + 0].kind == x.kind && ts[i + 0].text == x.text;
  }

  lemma {:induction false} ParenthesisBack(e: Expr, ts: seq<Token>, i: nat)
    requires Shows(ts, i, [Lexeme(LParen, "(")] + PrintBare(e) + [Lexeme(RParen, ")")])
    ensures Shows(ts, i + 1, PrintBare(e))
    ensures Current(ts, i).kind == LParen && Current(ts, i + 1 + |PrintBare(e)|).kind == RParen
  {
    var open, close := Lexeme(LParen, "("), Lexeme(RParen, ")");
    assert [] + [open] + (PrintBare(e) + [close]) == [open] + PrintBare(e) + [close];
    ShowsParts(ts, i, [], open, PrintBare(e) + [close]);
    assert PrintBare(e) + [close] + [] == PrintBare(e) + [close];
    ShowsParts(ts, i + 1, PrintBare(e), close, []);
  }

  lemma {:induction false} PrimaryBack(e: Expr, ts: seq<Token>, i: nat)
    requires Proper(e) && Shows(ts, i, Print(e, 3))
    ensures ParsePrimary(ts, i) == Ok((e, i + |Print(e, 3)|))
    decreases e, if Level(e) < 3 then 10 else 0
  {
    if Level(e) < 3 {
      ParenthesisBack(e, ts, i);
      OrBack(e, ts, i + 1);
    } else {
      LeafBack(e, ts, i);
    }
  }

  lemma {:induction false} ComparisonBack(e: Expr, ts: seq<Token>, i: nat)
    requires Proper(e) && Shows(ts, i, Print(e, 2))
    requires !IsComparison(Current(ts, i + |Print(e, 2)|).kind)
    ensures ParseComparison(ts, i) == Ok((e, i + |Print(e, 2)|))
    decreases e, if Level(e) < 2 then 11 else 1
  {
    if e.Compare? {
      ComparePairBack(e.left, e.op, e.right, ts, i);
    } else {
      PrimaryBack(e, ts, i);
      NotCompared(ts, i, e, i + |Print(e, 2)|);
    }
  }

  lemma {:induction false} ComparePairBack(left: Expr, op: Kind, right: Expr, ts: seq<Token>, i: nat)
    requires Proper(left) && Proper(right) && IsComparison(op)
    requires Shows(ts, i, Print(left, 3) + [Lexeme(op, OperatorText(op))] + Print(right, 3))
    ensures ParseComparison(ts, i) == Ok((Compare(op, left, right), i + |Print(left, 3)| + 1 + |Print(right, 3)|))
    decreases Compare(op, left, right), 0
  {
    var l, r := Print(left, 3), Print(right, 3);
    ShowsParts(ts, i, l, Lexeme(op, OperatorText(op)), r);
    PrimaryBack(left, ts, i);
    PrimaryBack(right, ts, i + |l| + 1);
    Compared(ts, i, i + |l|, left, op, right, i + |l| + 1 + |r|);
  }

  lemma {:induction false} Compared(ts: seq<Token>, i: nat, j: nat, left: Expr, op: Kind, right: Expr, k: nat)
    requires ParsePrimary(ts, i) == Ok((left, j)) && IsComparison(op) && Current(ts, j).kind == op
    requires ParsePrimary(ts, j + 1) == Ok((right, k))
    ensures ParseComparison(ts, i) == Ok((Compare(op, left, right), k))
  {
  }

  lemma {:induction false} NotCompared(ts: seq<Token>, i: nat, e: Expr, j: nat)
    requires ParsePrimary(ts, i) == Ok((e, j)) && !IsComparison(Current(ts, j).kind)
    ensures ParseComparison(ts, i) == Ok((e, j))
  {
  }

  lemma {:induction false} AndOnce(ts: seq<Token>, i: nat, left: Expr, right: Expr, j: nat)
    requires i <= |ts| && Proper(left) && Current(ts, i).kind == And
    requires ParseComparison(ts, i + 1) == Ok((right, j))
    ensures Proper(AndOf(left, right)) && AndRest(ts, i, left) == AndRest(ts, j, AndOf(left, right))
  {
  }

  lemma {:induction false} OrOnce(ts: seq<Token>, i: nat, left: Expr, right: Expr, j: nat)
    requires i <= |ts| && Proper(left) && Current(ts, i).kind == Or
    requires ParseAnd(ts, i + 1) == Ok((right, j))
    ensures Proper(OrOf(left, right)) && OrRest(ts, i, left) == OrRest(ts, j, OrOf(left, right))
  {
  }

  lemma {:induction false} AndFirst(ts: seq<Token>, i: nat, e: Expr, j: nat)
    requires ParseComparison(ts, i) == Ok((e, j))
    ensures ParseAnd(ts, i) == AndRest(ts, j, e)
  {
  }

  lemma {:induction false} AndStops(ts: seq<Token>, j: nat, e: Expr)
    requires j <= |ts| && Proper(e) && Current(ts, j).kind != And
    ensures AndRest(ts, j, e) == Ok((e, j))
  {
  }

  lemma {:induction false} OrFirst(ts: seq<Token>, i: nat, e: Expr, j: nat)
    requires ParseAnd(ts, i) == Ok((e, j))
    ensures ParseOr(ts, i) == OrRest(ts, j, e)
  {
  }

  /** Left associativity: after the tokens of `e` the parser continues with `e` as its left operand. */
  lemma {:induction false} AndBack(e: Expr, ts: seq<Token>, i: nat)
    requires Proper(e) && Shows(ts, i, Print(e, 1))
    requires !IsComparison(Current(ts, i + |Print(e, 1)|).kind)
    ensures ParseAnd(ts, i) == AndRest(ts, i + |Print(e, 1)|, e)
    decreases e, if Level(e) < 1 then 12 else 2
  {
    if e.AndOf? {
      AndPairBack(e.left, e.right, ts, i);
    } else {
      ComparisonBack(e, ts, i);
      AndFirst(ts, i, e, i + |Print(e, 1)|);
    }
  }

  lemma {:induction false} AndPairBack(left: Expr, right: Expr, ts: seq<Token>, i: nat)
    requires Proper(left) && Proper(right) && Shows(ts, i, Print(left, 1) + [Lexeme(And, "&&")] + Print(right, 2))
    requires !IsComparison(Current(ts, i + |Print(left, 1)| + 1 + |Print(right, 2)|).kind)
    ensures ParseAnd(ts, i) == AndRest(ts, i + |Print(left, 1)| + 1 + |Print(right, 2)|, AndOf(left, right))
    decreases AndOf(left, right), 1
  {
    var l, r := Print(left, 1), Print(right, 2);
    ShowsParts(ts, i, l, Lexeme(And, "&&"), r);
    AndLeftBack(left, ts, i);
    AndRightBack(right, ts, i + |l|);
    AndJoins(ts, i, i + |l|, left, right, i + |l| + 1 + |r|);
  }

  lemma {:induction false} AndLeftBack(left: Expr, ts: seq<Token>, i: nat)
    requires Proper(left)
    ensures Shows(ts, i, Print(left, 1)) && Current(ts, i + |Print(left, 1)|).kind == And ==>
              ParseAnd(ts, i) == AndRest(ts, i + |Print(left, 1)|, left)
    decreases left, 14
  {
    if Shows(ts, i, Print(left, 1)) && Current(ts, i + |Print(left, 1)|).kind == And {
      AndBack(left, ts, i);
    }
  }

  lemma {:induction false} AndRightBack(right: Expr, ts: seq<Token>, j: nat)
    requires Proper(right)
    ensures Shows(ts, j + 1, Print(right, 2)) && !IsComparison(Current(ts, j + 1 + |Print(right, 2)|).kind) ==>
              ParseComparison(ts, j + 1) == Ok((right, j + 1 + |Print(right, 2)|))
    decreases right, 14
  {
    if Shows(ts, j + 1, Print(right, 2)) && !IsComparison(Current(ts, j + 1 + |Print(right, 2)|).kind) {
      ComparisonBack(right, ts, j + 1);
    }
  }

  lemma {:induction false} AndJoins(ts: seq<Token>, i: nat, j: nat, left: Expr, right: Expr, k: nat)
    requires j <= |ts| && Proper(left) && Current(ts, j).kind == And && ParseComparison(ts, j + 1) == Ok((right, k))
    requires ParseAnd(ts, i) == AndRest(ts, j, left)
    ensures Proper(AndOf(left, right)) && ParseAnd(ts, i) == AndRest(ts, k, AndOf(left, right))
  {
    AndOnce(ts, j, left, right, k);
  }

  lemma {:induction false} AndWhole(e: Expr, ts: seq<Token>, i: nat)
    requires Proper(e) && Shows(ts, i, Print(e, 1))
    requires var k := Current(ts, i + |Print(e, 1)|).kind; !IsComparison(k) && k != And
    ensures ParseAnd(ts, i) == Ok((e, i + |Print(e, 1)|))
    decreases e, if Level(e) < 1 then 13 else 3
  {
    AndBack(e, ts, i);
    AndStops(ts, i + |Print(e, 1)|, e);
  }

  lemma {:induction false} OrBack(e: Expr, ts: seq<Token>, i: nat)
    requires Proper(e) && Shows(ts, i, Print(e, 0))
    requires var k := Current(ts, i + |Print(e, 0)|).kind; !IsComparison(k) && k != And
    ensures ParseOr(ts, i) == OrRest(ts, i + |Print(e, 0)|, e)
    decreases e, 4
  {
    if e.OrOf? {
      OrPairBack(e.left, e.right, ts, i);
    } else {
      AndWhole(e, ts, i);
      OrFirst(ts, i, e, i + |Print(e, 0)|);
    }
  }

  lemma {:induction false} OrPairBack(left: Expr, right: Expr, ts: seq<Token>, i: nat)
    requires Proper(left) && Proper(right) && Shows(ts, i, Print(left, 0) + [Lexeme(Or, "||")] + Print(right, 1))
    requires var k := Current(ts, i + |Print(left, 0)| + 1 + |Print(right, 1)|).kind; !IsComparison(k) && k != And
    ensures ParseOr(ts, i) == OrRest(ts, i + |Print(left, 0)| + 1 + |Print(right, 1)|, OrOf(left, right))
    decreases OrOf(left, right), 3
  {
    var l, r := Print(left, 0), Print(right, 1);
    ShowsParts(ts, i, l, Lexeme(Or, "||"), r);
    OrLeftBack(left, ts, i);
    OrRightBack(right, ts, i + |l|);
    OrJoins(ts, i, i + |l|, left, right, i + |l| + 1 + |r|);
  }

  lemma {:induction false} OrLeftBack(left: Expr, ts: seq<Token>, i: nat)
    requires Proper(left)
    ensures Shows(ts, i, Print(left, 0)) && Current(ts, i + |Print(left, 0)|).kind == Or ==>
              ParseOr(ts, i) == OrRest(ts, i + |Print(left, 0)|, left)
    decreases left, 14
  {
    if Shows(ts, i, Print(left, 0)) && Current(ts, i + |Print(left, 0)|).kind == Or {
      OrBack(left, ts, i);
    }
  }

  lemma {:induction false} OrRightBack(right: Expr, ts: seq<Token>, j: nat)
    requires Proper(right)
    ensures var k := Current(ts, j + 1 + |Print(right, 1)|).kind;
            Shows(ts, j + 1, Print(right, 1)) && !IsComparison(k) && k != And ==>
              ParseAnd(ts, j + 1) == Ok((right, j + 1 + |Print(right, 1)|))
    decreases right, 14
  {
    var k := Current(ts, j + 1 + |Print(right, 1)|).kind;
    if Shows(ts, j + 1, Print(right, 1)) && !IsComparison(k) && k != And {
      AndWhole(right, ts, j + 1);
    }
  }

  lemma {:induction false} OrJoins(ts: seq<Token>, i: nat, j: nat, left: Expr, right: Expr, k: nat)
    requires j <= |ts| && Proper(left) && Current(ts, j).kind == Or && ParseAnd(ts, j + 1) == Ok((right, k))
    requires ParseOr(ts, i) == OrRest(ts, j, left)
    ensures Proper(OrOf(left, right)) && ParseOr(ts, i) == OrRest(ts, k, OrOf(left, right))
  {
    OrOnce(ts, j, left, right, k);
  }

  // -------------------------------------------------------------------------------------------
  // Lexemes to text and back
  // -------------------------------------------------------------------------------------------

  /** Backslashes and double quotes are escaped. */
  function Escape(s: string): string {
    if s == "" then ""
    else if s[0] == '\\' || s[0] == '\"' then ['\\', s[0]] + Escape(s[1..])
    else [s[0]] + Escape(s[1..])
  }

  function Spelling(x: Lexeme): string {
    if x.kind == String then "\"" + Escape(x.text) + "\"" else x.text
  }

  predicate IsNumberText(s: string) {
    s != "" && IsNumberStart(s[0]) && forall i | 1 <= i < |s| :: IsNumberPart(s[i])
  }

  predicate IsIdentifierText(s: string) {
    && s != "" && IsIdentifierStart(s[0]) && (forall i | 1 <= i < |s| :: IsIdentifierPart(s[i]))
    && ToLower(s) != "true" && ToLower(s) != "false"
  }

  /** A lexeme the tokenizer can produce. */
  predicate Spellable(x: Lexeme) {
    match x.kind
    case EOF => false
    case Number => IsNumberText(x.text)
    case Identifier => IsIdentifierText(x.text)
    case Boolean => x.text == "true" || x.text == "false"
    case String => true
    case LParen => x.text == "("
    case RParen => x.text == ")"
    case And => x.text == "&&"
    case Or => x.text == "||"
    case k => x.text == OperatorText(k)
  }

  predicate AllSpellable(ls: seq<Lexeme>) {
    forall k | 0 <= k < |ls| :: Spellable(ls[k])
  }

  /** Literals and names are written as the tokenizer reads them. */
  predicate Writable(e: Expr) {
    match e
    case NumberLit(text) => IsNumberText(text)
    case Field(path) => IsIdentifierText(path)
    case Compare(op, l, r) => IsComparison(op) && Writable(l) && Writable(r)
    case AndOf(l, r) => Writable(l) && Writable(r)
    case OrOf(l, r) => Writable(l) && Writable(r)
    case _ => true
  }

  function Render(ls: seq<Lexeme>): string {
    if ls == [] then ""
    else if |ls| == 1 then Spelling(ls[0])
    else Spelling(ls[0]) + " " + Render(ls[1..])
  }

  /** The end of the text or a blank: no token runs past it. */
  predicate Stops(rest: string) {
    rest == "" || rest[0] == ' '
  }

  lemma {:induction false} QuotedBack(s: string, rest: string)
    ensures Quoted(Escape(s) + "\"" + rest, '\"') == Ok((s, |Escape(s)| + 1))
    decreases |s|
  {
    var whole := Escape(s) + "\"" + rest;
    if s == "" {
      assert whole == "\"" + rest;
    } else {
      QuotedBack(s[1..], rest);
      var tail := Escape(s[1..]) + "\"" + rest;
      assert s == [s[0]] + s[1..];
      if s[0] == '\\' || s[0] == '\"' {
        assert whole == ['\\', s[0]] + tail && whole[2..] == tail;
      } else {
        assert whole == [s[0]] + tail && whole[1..] == tail;
      }
    }
  }

  lemma {:induction false} NumberSpanBack(s: string, rest: string)
    requires (forall i | 0 <= i < |s| :: IsNumberPart(s[i])) && Stops(rest)
    ensures NumberSpan(s + rest) == |s|
    decreases |s|
  {
    if s == "" {
      assert s + rest == rest;
    } else {
      NumberSpanBack(s[1..], rest);
      assert (s + rest)[1..] == s[1..] + rest;
    }
  }

  lemma {:induction false} IdentifierSpanBack(s: string, rest: string)
    requires (forall i | 0 <= i < |s| :: IsIdentifierPart(s[i])) && Stops(rest)
    ensures IdentifierSpan(s + rest) == |s|
    decreases |s|
  {
    if s == "" {
      assert s + rest == rest;
    } else {
      IdentifierSpanBack(s[1..], rest);
      assert (s + rest)[1..] == s[1..] + rest;
    }
  }

  lemma {:induction false} LowerUnchanged(s: string)
    requires forall i | 0 <= i < |s| :: LowerChar(s[i]) == s[i]
    ensures ToLower(s) == s
    decreases |s|
  {
    if s != "" {
      LowerUnchanged(s[1..]);
      assert s == [s[0]] + s[1..];
    }
  }

  lemma {:induction false} WordHead(s: string)
    requires s != "" && IsIdentifierStart(s[0])
    ensures var n := 1 + IdentifierSpan(s[1..]); HeadOf(s) == Word(s[..n], n)
  {
  }

  lemma {:induction false} WordBack(x: Lexeme, rest: string)
    requires x.kind == Identifier || x.kind == Boolean
    requires Spellable(x) && Stops(rest)
    ensures HeadOf(x.text + rest) == Found(x.kind, x.text, |x.text|)
  {
    var s := x.text + rest;
    assert s[0] == x.text[0] && s[1..] == x.text[1..] + rest;
    assert s[..|x.text|] == x.text;
    IdentifierSpanBack(x.text[1..], rest);
    WordHead(s);
    if x.kind == Boolean {
      LowerUnchanged(x.text);
    }
  }

  lemma {:induction false} NumberBack(x: Lexeme, rest: string)
    requires x.kind == Number && Spellable(x) && Stops(rest)
    ensures HeadOf(x.text + rest) == Found(Number, x.text, |x.text|)
  {
    var s := x.text + rest;
    assert s[0] == x.text[0] && s[1..] == x.text[1..] + rest;
    NumberSpanBack(x.text[1..], rest);
    assert s[..|x.text|] == x.text;
  }

  lemma {:induction false} StringBack(x: Lexeme, rest: string)
    requires x.kind == String
    ensures HeadOf(Spelling(x) + rest) == Found(String, x.text, |Spelling(x)|)
  {
    var s := Spelling(x) + rest;
    assert s[0] == '\"' && s[1..] == Escape(x.text) + "\"" + rest;
    QuotedBack(x.text, rest);
  }

  lemma {:induction false} SymbolBack(x: Lexeme, rest: string)
    requires x.kind !in {String, Number, Identifier, Boolean}
    requires Spellable(x) && Stops(rest)
    ensures HeadOf(x.text + rest) == Found(x.kind, x.text, |x.text|)
  {
    var s := x.text + rest;
    assert s[0] == x.text[0];
    assert |s| > 1 ==> s[1] == if |x.text| == 2 then x.text[1] else ' ';
  }

  /** The tokenizer reads one spelled lexeme back and stops at the blank after it. */
  lemma {:induction false} HeadBack(x: Lexeme, rest: string)
    requires Spellable(x) && Stops(rest)
    ensures Spelling(x) != "" && !IsBlank(Spelling(x)[0])
    ensures HeadOf(Spelling(x) + rest) == Found(x.kind, x.text, |Spelling(x)|)
  {
    match x.kind
    case String => StringBack(x, rest);
    case Number => NumberBack(x, rest);
    case Identifier => WordBack(x, rest);
    case Boolean => WordBack(x, rest);
    case _ => SymbolBack(x, rest);
  }

  /** A reader of single tokens that reads every spelled lexeme back and skips blanks. */
  ghost predicate Reads(head: string -> Head) {
    && (forall s :: head(" " + s) == Blank)
    && (forall x, rest | Spellable(x) && Stops(rest) :: ReadsOne(head, x, rest))
  }

  ghost predicate ReadsOne(head: string -> Head, x: Lexeme, rest: string) {
    Spelling(x) != "" && head(Spelling(x) + rest) == Found(x.kind, x.text, |Spelling(x)|)
  }

  lemma {:induction false} TokenizerReads()
    ensures Reads(HeadOf)
  {
    forall x, rest | Spellable(x) && Stops(rest)
      ensures ReadsOne(HeadOf, x, rest)
    {
      HeadBack(x, rest);
    }
  }

  lemma {:induction false} LexFirst(head: string -> Head, x: Lexeme, rest: string, off: nat)
    requires ReadsOne(head, x, rest)
    ensures LexBy(head, Spelling(x) + rest, off) ==
            Prepend([Token(x.kind, x.text, off)], LexBy(head, rest, off + |Spelling(x)|))
  {
    assert (Spelling(x) + rest)[|Spelling(x)|..] == rest;
  }

  lemma {:induction false} LexBlank(head: string -> Head, s: string, off: nat)
    requires head(" " + s) == Blank
    ensures LexBy(head, " " + s, off) == LexBy(head, s, off + 1)
  {
    assert (" " + s)[1..] == s;
  }

  /** The tokens of `ls` followed by the end marker. */
  ghost predicate ReadsBack(r: Result<seq<Token>>, ls: seq<Lexeme>) {
    r.Ok? && Shows(r.value, 0, ls) && |r.value| == |ls| + 1 && r.value[|ls|].kind == EOF
  }

  lemma {:induction false} ReadsCons(pos: nat, r: Result<seq<Token>>, x: Lexeme, ls: seq<Lexeme>)
    ensures ReadsBack(r, ls) ==> ReadsBack(Prepend([Token(x.kind, x.text, pos)], r), [x] + ls)
  {
    if ReadsBack(r, ls) {
      var ts := [Token(x.kind, x.text, pos)] + r.value;
      forall k | 0 <= k < |ls| + 1
        ensures ts[0 + k].kind == ([x] + ls)[k].kind && ts[0 + k].text == ([x] + ls)[k].text
      {
        if k > 0 {
          assert r.value[0 + (k - 1)].kind == ls[k - 1].kind;
        }
      }
    }
  }

  lemma {:induction false} LexLast(head: string -> Head, x: Lexeme, off: nat)
    requires ReadsOne(head, x, "")
    ensures ReadsBack(LexBy(head, Spelling(x) + "", off), [x])
  {
    LexFirst(head, x, "", off);
    ReadsCons(off, LexBy(head, "", off + |Spelling(x)|), x, []);
    assert [x] + [] == [x];
  }

  lemma {:induction false} LexMore(head: string -> Head, x: Lexeme, text: string, ls: seq<Lexeme>, off: nat)
    requires ReadsOne(head, x, " " + text) && head(" " + text) == Blank
    ensures ReadsBack(LexBy(head, text, off + |Spelling(x)| + 1), ls) ==>
              ReadsBack(LexBy(head, Spelling(x) + (" " + text), off), [x] + ls)
  {
    LexFirst(head, x, " " + text, off);
    LexBlank(head, text, off + |Spelling(x)|);
    ReadsCons(off, LexBy(head, text, off + |Spelling(x)| + 1), x, ls);
  }

  lemma {:induction false} ReadsHere(head: string -> Head, ls: seq<Lexeme>, rest: string)
    requires Reads(head) && ls != [] && AllSpellable(ls) && Stops(rest)
    ensures ReadsOne(head, ls[0], rest) && AllSpellable(ls[1..])
  {
  }

  /** Tokenizing rendered lexemes gives them back. */
  lemma {:induction false} LexBack(head: string -> Head, ls: seq<Lexeme>, off: nat)
    requires Reads(head) && AllSpellable(ls)
    ensures ReadsBack(LexBy(head, Render(ls), off), ls)
    decreases |ls|
  {
    if ls != [] {
      var x, text := ls[0], Render(ls[1..]);
      assert ls == [x] + ls[1..];
      if |ls| == 1 {
        assert Render(ls) == Spelling(x) + "";
        ReadsHere(head, ls, "");
        LexLast(head, x, off);
      } else {
        assert Render(ls) == Spelling(x) + (" " + text);
        ReadsHere(head, ls, " " + text);
        LexBack(head, ls[1..], off + |Spelling(x)| + 1);
        LexMore(head, x, text, ls[1..], off);
      }
    }
  }

  // -------------------------------------------------------------------------------------------
  // The round trip
  // -------------------------------------------------------------------------------------------

  lemma {:induction false} SpellableParts(a: seq<Lexeme>, x: Lexeme, b: seq<Lexeme>)
    requires AllSpellable(a) && Spellable(x) && AllSpellable(b)
    ensures AllSpellable(a + [x] + b)
  {
  }

  lemma {:induction false} PrintSpellable(e: Expr, level: nat)
    requires Writable(e)
    ensures AllSpellable(Print(e, level))
    decreases e
  {
    match e
    case Compare(op, l, r) =>
      PrintSpellable(l, 3);
      PrintSpellable(r, 3);
      assert Spellable(Lexeme(op, OperatorText(op)));
      SpellableParts(Print(l, 3), Lexeme(op, OperatorText(op)), Print(r, 3));
    case AndOf(l, r) =>
      PrintSpellable(l, 1);
      PrintSpellable(r, 2);
      SpellableParts(Print(l, 1), Lexeme(And, "&&"), Print(r, 2));
    case OrOf(l, r) =>
      PrintSpellable(l, 0);
      PrintSpellable(r, 1);
      SpellableParts(Print(l, 0), Lexeme(Or, "||"), Print(r, 1));
    case _ =>
  }

  lemma {:induction false} WritableIsProper(e: Expr)
    requires Writable(e)
    ensures Proper(e)
    decreases e
  {
    match e
    case Compare(_, l, r) => WritableIsProper(l); WritableIsProper(r);
    case AndOf(l, r) => WritableIsProper(l); WritableIsProper(r);
    case OrOf(l, r) => WritableIsProper(l); WritableIsProper(r);
    case _ =>
  }

  predicate Tight(s: string) {
    s != "" && !IsSpace(s[0]) && !IsSpace(s[|s| - 1])
  }

  lemma {:induction false} SpellingTight(x: Lexeme)
    requires Spellable(x)
    ensures Tight(Spelling(x))
  {
    if x.kind == Number || x.kind == Identifier {
      var last := |x.text| - 1;
      assert last >= 1 ==> IsNumberPart(x.text[last]) || IsIdentifierPart(x.text[last]);
    }
  }

  lemma {:induction false} RenderTight(ls: seq<Lexeme>)
    requires ls != [] && AllSpellable(ls)
    ensures Tight(Render(ls))
    decreases |ls|
  {
    SpellingTight(ls[0]);
    if |ls| > 1 {
      RenderTight(ls[1..]);
    }
  }

  lemma {:induction false} ParseWhole(e: Expr, ts: seq<Token>)
    requires Writable(e) && ReadsBack(Ok(ts), Print(e, 0))
    ensures ParseOr(ts, 0) == Ok((e, |Print(e, 0)|)) && Current(ts, |Print(e, 0)|).kind == EOF
  {
    WritableIsProper(e);
    OrBack(e, ts, 0);
  }

  /** Printing a tree and parsing the text gives the same tree, and nothing is left over. */
  lemma {:induction false} PrintThenParse(e: Expr)
    requires Writable(e)
    ensures Lex(Render(Print(e, 0)), 0).Ok?
    ensures var ts := Lex(Render(Print(e, 0)), 0).value;
            ParseOr(ts, 0) == Ok((e, |Print(e, 0)|)) && Current(ts, |Print(e, 0)|).kind == EOF
  {
    PrintSpellable(e, 0);
    TokenizerReads();
    LexBack(HeadOf, Print(e, 0), 0);
    ParseWhole(e, Lex(Render(Print(e, 0)), 0).value);
  }

  /**
   Evaluating the printed text of a tree gives the truth value of the tree's own meaning, and fails when that
   has none.
   */
  lemma {:induction false} PrintThenEvaluate(e: Expr, env: Env)
    requires Writable(e)
    ensures Proper(e)
    ensures match EvaluateInSteps(Render(Print(e, 0)), env)
            case Ok(b) => Eval(e, env).Ok? && AsBool(Eval(e, env).value) == Some(b)
            case Err(_) => Eval(e, env).Err? || AsBool(Eval(e, env).value) == None
  {
    WritableIsProper(e);
    PrintSpellable(e, 0);
    RenderTight(Print(e, 0));
    assert TrimSpace(Render(Print(e, 0))) == Render(Print(e, 0));
    PrintThenParse(e);
  }

  // -------------------------------------------------------------------------------------------
  // No shorter text
  // -------------------------------------------------------------------------------------------

  /** The tokens a parse used, starting at `i`, are at least as many as the print at this level. */
  ghost predicate UsesEnough(r: Result<(Expr, nat)>, i: nat, level: nat) {
    r.Ok? ==> |Print(r.value.0, level)| <= r.value.1 - i
  }

  lemma {:induction false} PrintLengths(e: Expr, level: nat)
    ensures |Print(e, level)| <= |Print(e, level + 1)|
    ensures |Print(e, level)| <= |Print(e, 0)| + 2
  {
  }

  lemma {:induction false} PrimaryEnough(ts: seq<Token>, i: nat)
    ensures UsesEnough(ParsePrimary(ts, i), i, 3)
    decreases |ts| - i, 0
  {
    if ParsePrimary(ts, i).Ok? && Current(ts, i).kind == LParen {
      OrEnough(ts, i + 1);
      PrintLengths(ParsePrimary(ts, i).value.0, 3);
    }
  }

  lemma {:induction false} ComparisonEnough(ts: seq<Token>, i: nat)
    ensures UsesEnough(ParseComparison(ts, i), i, 2)
    decreases |ts| - i, 1
  {
    PrimaryEnough(ts, i);
    var l := ParsePrimary(ts, i);
    if l.Ok? {
      PrintLengths(l.value.0, 2);
      if IsComparison(Current(ts, l.value.1).kind) { PrimaryEnough(ts, l.value.1 + 1); }
    }
  }

  lemma {:induction false} AndRestEnough(ts: seq<Token>, k: nat, i: nat, left: Expr)
    requires k <= i <= |ts| && Proper(left) && |Print(left, 1)| <= i - k
    ensures UsesEnough(AndRest(ts, i, left), k, 1)
    decreases |ts| - i, 2
  {
    if Current(ts, i).kind == And {
      ComparisonEnough(ts, i + 1);
      var r := ParseComparison(ts, i + 1);
      if r.Ok? { AndRestEnough(ts, k, r.value.1, AndOf(left, r.value.0)); }
    }
  }

  lemma {:induction false} AndEnough(ts: seq<Token>, i: nat)
    ensures UsesEnough(ParseAnd(ts, i), i, 1)
    decreases |ts| - i, 3
  {
    ComparisonEnough(ts, i);
    var l := ParseComparison(ts, i);
    if l.Ok? {
      PrintLengths(l.value.0, 1);
      AndRestEnough(ts, i, l.value.1, l.value.0);
    }
  }

  lemma {:induction false} OrRestEnough(ts: seq<Token>, k: nat, i: nat, left: Expr)
    requires k <= i <= |ts| && Proper(left) && |Print(left, 0)| <= i - k
    ensures UsesEnough(OrRest(ts, i, left), k, 0)
    decreases |ts| - i, 4
  {
    if Current(ts, i).kind == Or {
      AndEnough(ts, i + 1);
      var r := ParseAnd(ts, i + 1);
      if r.Ok? { OrRestEnough(ts, k, r.value.1, OrOf(left, r.value.0)); }
    }
  }

  lemma {:induction false} OrEnough(ts: seq<Token>, i: nat)
    ensures UsesEnough(ParseOr(ts, i), i, 0)
    decreases |ts| - i, 5
  {
    AndEnough(ts, i);
    var l := ParseAnd(ts, i);
    if l.Ok? {
      PrintLengths(l.value.0, 0);
      OrRestEnough(ts, i, l.value.1, l.value.0);
    }
  }

  /** No tokens that parse to a tree are fewer than those of its print: no parenthesis could be left out. */
  lemma ShortestPrint(e: Expr, ts: seq<Token>, j: nat)
    requires ParseOr(ts, 0) == Ok((e, j))
    ensures |Print(e, 0)| <= j <= |ts|
  {
    OrEnough(ts, 0);
  }
}
