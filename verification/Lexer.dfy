/**
 The tokenizer of approval expressions. `Lex` says what the tokens of a text are, one token at a
 time; the method `Tokenize` is the index loop of the code.
 */
module Lexer {
  import opened Outcomes

  datatype Kind =
    | EOF | Identifier | Number | String | Boolean | LParen | RParen
    | And | Or | Eq | Ne | Lt | Gt | Le | Ge

  datatype Token = Token(kind: Kind, text: string, pos: nat)

  // -------------------------------------------------------------------------------------------
  // Characters
  // -------------------------------------------------------------------------------------------

  predicate IsBlank(c: char) {
    c == ' ' || c == '\t' || c == '\n' || c == '\r'
  }

  predicate IsDigit(c: char) {
    '0' <= c <= '9'
  }

  predicate IsNumberStart(c: char) {
    IsDigit(c) || c == '-'
  }

  predicate IsNumberPart(c: char) {
    IsDigit(c) || c == '.'
  }

  predicate IsIdentifierStart(c: char) {
    'a' <= c <= 'z' || 'A' <= c <= 'Z' || c == '_'
  }

  predicate IsIdentifierPart(c: char) {
    IsIdentifierStart(c) || IsDigit(c) || c == '.'
  }

  function LowerChar(c: char): char {
    if 'A' <= c <= 'Z' then ((c as int) + 32) as char else c
  }

  function ToLower(s: string): (r: string)
    ensures |r| == |s|
  {
    if s == "" then "" else [LowerChar(s[0])] + ToLower(s[1..])
  }

  // -------------------------------------------------------------------------------------------
  // One token
  // -------------------------------------------------------------------------------------------

  /** What the text starts with: one blank, one token of `size` characters, or an error. */
  datatype Head = Blank | Found(kind: Kind, text: string, size: nat) | Bad(error: string)

  /** The length of the longest prefix of number (identifier) characters. */
  function NumberSpan(s: string): (n: nat)
    ensures n <= |s|
  {
    if s == "" || !IsNumberPart(s[0]) then 0 else 1 + NumberSpan(s[1..])
  }

  function IdentifierSpan(s: string): (n: nat)
    ensures n <= |s|
  {
    if s == "" || !IsIdentifierPart(s[0]) then 0 else 1 + IdentifierSpan(s[1..])
  }

  /**
   The contents of a string literal whose opening quote has been read, and the length up to and including the
   closing one.
   */
  function Quoted(s: string, quote: char): (r: Result<(string, nat)>)
    ensures r.Ok? ==> 0 < r.value.1 <= |s|
  {
    if s == "" then Err("unterminated string literal")
    else if s[0] == '\\' then
      if |s| == 1 then Err("unterminated escape sequence")
      else After([s[1]], 2, Quoted(s[2..], quote))
    else if s[0] == quote then Ok(("", 1))
    else After([s[0]], 1, Quoted(s[1..], quote))
  }

  function After(text: string, size: nat, r: Result<(string, nat)>): Result<(string, nat)> {
    match r
    case Ok((rest, n)) => Ok((text + rest, size + n))
    case Err(e) => Err(e)
  }

  /** What is left to try once blanks, parentheses and operators are ruled out. */
  function LongHead(s: string): (h: Head)
    requires s != ""
    ensures h.Found? ==> 0 < h.size <= |s|
    ensures !h.Blank?
  {
    var c := s[0];
    if c == '\'' || c == '\"' then
      match Quoted(s[1..], c)
      case Ok((text, n)) => Found(String, text, 1 + n)
      case Err(e) => Bad(e)
    else if IsNumberStart(c) then
      var n := 1 + NumberSpan(s[1..]);
      Found(Number, s[..n], n)
    else if IsIdentifierStart(c) then
      var n := 1 + IdentifierSpan(s[1..]);
      Word(s[..n], n)
    else Bad("unexpected character")
  }

  /** The two characters at `i` are `a` and `b`. */
  predicate Pair(s: string, i: nat, a: char, b: char) {
    i + 1 < |s| && s[i] == a && s[i + 1] == b
  }

  function HeadOf(s: string): (h: Head)
    ensures h.Found? ==> 0 < h.size <= |s|
  {
    if s == "" then Bad("end of text") else
    var c := s[0];
    if IsBlank(c) then Blank
    else if c == '(' then Found(LParen, "(", 1)
    else if c == ')' then Found(RParen, ")", 1)
    else if Pair(s, 0, '&', '&') then Found(And, "&&", 2)
    else if Pair(s, 0, '|', '|') then Found(Or, "||", 2)
    else if Pair(s, 0, '=', '=') then Found(Eq, "==", 2)
    else if Pair(s, 0, '!', '=') then Found(Ne, "!=", 2)
    else if Pair(s, 0, '<', '=') then Found(Le, "<=", 2)
    else if Pair(s, 0, '>', '=') then Found(Ge, ">=", 2)
    else if c == '<' then Found(Lt, "<", 1)
    else if c == '>' then Found(Gt, ">", 1)
    else LongHead(s)
  }

  function Word(word: string, n: nat): Head {
    if ToLower(word) == "true" || ToLower(word) == "false"
    then Found(Boolean, ToLower(word), n)
    else Found(Identifier, word, n)
  }

  // -------------------------------------------------------------------------------------------
  // All tokens
  // -------------------------------------------------------------------------------------------

  /** The tokens of `s`, which starts at offset `off` of the expression, given what a text starts with. */
  function LexBy(head: string -> Head, s: string, off: nat): (r: Result<seq<Token>>)
    decreases |s|
  {
    if s == "" then Ok([Token(EOF, "", off)])
    else
      match head(s)
      case Blank => LexBy(head, s[1..], off + 1)
      case Bad(e) => Err(e)
      case Found(kind, text, n) =>
        if 0 < n <= |s| then Prepend([Token(kind, text, off)], LexBy(head, s[n..], off + n))
        else Err("no progress")
  }

  function Prepend(out: seq<Token>, r: Result<seq<Token>>): Result<seq<Token>> {
    match r
    case Ok(rest) => Ok(out + rest)
    case Err(e) => Err(e)
  }

  function Lex(s: string, off: nat): (r: Result<seq<Token>>) {
    LexBy(HeadOf, s, off)
  }

  /** Token positions strictly increase and the last token is the end marker at the end of the text. */
  lemma {:induction false} PositionsIncrease(head: string -> Head, s: string, off: nat)
    requires LexBy(head, s, off).Ok?
    ensures var ts := LexBy(head, s, off).value;
            && ts != [] && off <= ts[0].pos
            && ts[|ts| - 1] == Token(EOF, "", off + |s|)
            && forall i, j | 0 <= i < j < |ts| :: ts[i].pos < ts[j].pos
    decreases |s|
  {
    if s != "" {
      match head(s)
      case Blank => PositionsIncrease(head, s[1..], off + 1);
      case Found(_, _, n) => PositionsIncrease(head, s[n..], off + n);
    }
  }

  lemma PrependNothing(r: Result<seq<Token>>)
    ensures Prepend([], r) == r
  {
    if r.Ok? {
      assert [] + r.value == r.value;
    }
  }

  lemma PrependOne(out: seq<Token>, t: Token, r: Result<seq<Token>>)
    ensures Prepend(out, Prepend([t], r)) == Prepend(out + [t], r)
  {
    if r.Ok? {
      assert out + ([t] + r.value) == out + [t] + r.value;
    }
  }

  method ScanString(expr: string, start: nat) returns (r: Result<(string, nat)>)
    requires start < |expr| && (expr[start] == '\'' || expr[start] == '\"')
    ensures match Quoted(expr[start + 1..], expr[start])
            case Ok((text, n)) => r == Ok((text, start + 1 + n))
            case Err(e) => r == Err(e)
  {
    var quote := expr[start];
    var i := start + 1;
    var text := "";
    assert After("", 0, Quoted(expr[i..], quote)) == Quoted(expr[i..], quote) by {
      if Quoted(expr[i..], quote).Ok? {
        assert "" + Quoted(expr[i..], quote).value.0 == Quoted(expr[i..], quote).value.0;
      }
    }
    while i < |expr| && expr[i] != quote
      invariant start < i <= |expr|
      invariant Quoted(expr[start + 1..], quote) == After(text, i - start - 1, Quoted(expr[i..], quote))
    {
      if expr[i] == '\\' {
        if i + 1 >= |expr| {
          return Err("unterminated escape sequence");
        }
        assert expr[i..][2..] == expr[i + 2..];
        AfterTwice(text, i - start - 1, [expr[i + 1]], 2, Quoted(expr[i + 2..], quote));
        text := text + [expr[i + 1]];
        i := i + 2;
      } else {
        assert expr[i..][1..] == expr[i + 1..];
        AfterTwice(text, i - start - 1, [expr[i]], 1, Quoted(expr[i + 1..], quote));
        text := text + [expr[i]];
        i := i + 1;
      }
    }
    if i >= |expr| {
      return Err("unterminated string literal");
    }
    assert text + "" == text;
    r := Ok((text, i + 1));
  }

  lemma AfterTwice(a: string, m: nat, b: string, n: nat, r: Result<(string, nat)>)
    ensures After(a, m, After(b, n, r)) == After(a + b, m + n, r)
  {
    if r.Ok? {
      assert a + (b + r.value.0) == a + b + r.value.0;
    }
  }

  /** The tokenizer: one pass over the text with an index, appending to the output. */
  method Tokenize(expr: string) returns (r: Result<seq<Token>>)
    ensures r == Lex(expr, 0)
  {
    var out: seq<Token> := [];
    var i := 0;
    assert expr[0..] == expr;
    PrependNothing(Lex(expr, 0));
    while i < |expr|
      invariant 0 <= i <= |expr|
      invariant Lex(expr, 0) == Prepend(out, Lex(expr[i..], i))
    {
      var h := NextToken(expr, i);
      if h.Bad? {
        return Err(h.error);
      }
      if h.Found? {
        var token := Token(h.kind, h.text, i);
        PrependOne(out, token, Lex(expr[i + h.size..], i + h.size));
        assert Lex(expr, 0) == Prepend(out + [token], Lex(expr[i + h.size..], i + h.size));
        out, i := out + [token], i + h.size;
      } else {
        assert Lex(expr, 0) == Prepend(out, Lex(expr[i + 1..], i + 1));
        i := i + 1;
      }
    }
    r := Ok(out + [Token(EOF, "", |expr|)]);
  }

  /** One round of the loop, in terms of the tokens still to come. */
  method NextToken(expr: string, i: nat) returns (h: Head)
    requires i < |expr|
    ensures match h
            case Blank => Lex(expr[i..], i) == Lex(expr[i + 1..], i + 1)
            case Bad(e) => Lex(expr[i..], i) == Err(e)
            case Found(kind, text, n) =>
              && 0 < n <= |expr| - i
              && Lex(expr[i..], i) == Prepend([Token(kind, text, i)], Lex(expr[i + n..], i + n))
  {
    h := Classify(expr, i);
    assert expr[i..][1..] == expr[i + 1..];
    if h.Found? {
      assert expr[i..][h.size..] == expr[i + h.size..];
    }
  }

  /** The switch over the character at `i`. */
  method Classify(expr: string, i: nat) returns (h: Head)
    requires i < |expr|
    ensures h == HeadOf(expr[i..])
  {
    var c := expr[i];
    ghost var s := expr[i..];
    assert forall a, b :: Pair(s, 0, a, b) == Pair(expr, i, a, b);
    if IsBlank(c) {
      h := Blank;
    } else if c == '(' {
      h := Found(LParen, "(", 1);
    } else if c == ')' {
      h := Found(RParen, ")", 1);
    } else if Pair(expr, i, '&', '&') {
      h := Found(And, "&&", 2);
    } else if Pair(expr, i, '|', '|') {
      h := Found(Or, "||", 2);
    } else if Pair(expr, i, '=', '=') {
      h := Found(Eq, "==", 2);
    } else if Pair(expr, i, '!', '=') {
      h := Found(Ne, "!=", 2);
    } else if Pair(expr, i, '<', '=') {
      h := Found(Le, "<=", 2);
    } else if Pair(expr, i, '>', '=') {
      h := Found(Ge, ">=", 2);
    } else if c == '<' {
      h := Found(Lt, "<", 1);
    } else if c == '>' {
      h := Found(Gt, ">", 1);
    } else {
      h := LongToken(expr, i);
    }
  }

  method NumberEnd(expr: string, start: nat) returns (i: nat)
    requires start <= |expr|
    ensures i == start + NumberSpan(expr[start..])
  {
    i := start;
    while i < |expr| && IsNumberPart(expr[i])
      invariant start <= i <= |expr|
      invariant NumberSpan(expr[start..]) == i - start + NumberSpan(expr[i..])
    {
      assert expr[i..][1..] == expr[i + 1..];
      i := i + 1;
    }
  }

  method WordEnd(expr: string, start: nat) returns (i: nat)
    requires start <= |expr|
    ensures i == start + IdentifierSpan(expr[start..])
  {
    i := start;
    while i < |expr| && IsIdentifierPart(expr[i])
      invariant start <= i <= |expr|
      invariant IdentifierSpan(expr[start..]) == i - start + IdentifierSpan(expr[i..])
    {
      assert expr[i..][1..] == expr[i + 1..];
      i := i + 1;
    }
  }

  /** String, number and word tokens, which run to a character that ends them. */
  method LongToken(expr: string, start: nat) returns (h: Head)
    requires start < |expr|
    ensures h == LongHead(expr[start..])
  {
    var c := expr[start];
    ghost var s := expr[start..];
    assert s[1..] == expr[start + 1..];
    if c == '\'' || c == '\"' {
      var q := ScanString(expr, start);
      match q
      case Ok((text, end)) => return Found(String, text, end - start);
      case Err(e) => return Bad(e);
    }
    if IsNumberStart(c) {
      var i := NumberEnd(expr, start + 1);
      assert s[..i - start] == expr[start..i];
      return Found(Number, expr[start..i], i - start);
    }
    if IsIdentifierStart(c) {
      var i := WordEnd(expr, start + 1);
      var word := expr[start..i];
      assert s[..i - start] == word;
      var lower := ToLower(word);
      if lower == "true" || lower == "false" {
        return Found(Boolean, lower, i - start);
      }
      return Found(Identifier, word, i - start);
    }
    h := Bad("unexpected character");
  }
}
