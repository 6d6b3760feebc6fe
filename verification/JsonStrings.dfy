/**
 Reading JSON strings as section 7 of RFC 8259 defines them: what the canonical text writes for a string is
 read back as that string.
 */
module JsonStrings {
  import opened Outcomes
  import opened CanonicalJson

  /** The value of a hexadecimal digit, in either case. */
  function HexValue(c: char): Option<nat> {
    if '0' <= c <= '9' then Some((c as int) - ('0' as int))
    else if 'a' <= c <= 'f' then Some((c as int) - ('a' as int) + 10)
    else if 'A' <= c <= 'F' then Some((c as int) - ('A' as int) + 10)
    else None
  }

  /** The number that the digits write, one after the other. */
  function HexNumber(digits: string, so: nat): Option<nat>
    decreases |digits|
  {
    if digits == "" then Some(so)
    else
      match HexValue(digits[0])
      case Some(d) => HexNumber(digits[1..], 16 * so + d)
      case None => None
  }

  predicate IsCodePoint(n: nat) {
    n < 0xD800 || 0xE000 <= n < 0x11_0000
  }

  /** The character an escape of two characters stands for. */
  function Escaped(c: char): Option<char> {
    match c
    case '"' => Some('"')
    case '\\' => Some('\\')
    case '/' => Some('/')
    case 'b' => Some('\U{08}')
    case 'f' => Some('\U{0C}')
    case 'n' => Some('\U{0A}')
    case 'r' => Some('\U{0D}')
    case 't' => Some('\U{09}')
    case _ => None
  }

  /** One character of a string and what follows it; pairs of surrogates are left out. */
  function ReadChar(text: string): Option<(char, string)> {
    if text == "" || text[0] == '"' || text[0] < ' ' then None
    else if text[0] != '\\' then Some((text[0], text[1..]))
    else if |text| >= 6 && text[1] == 'u' then
      match HexNumber(text[2..6], 0)
      case Some(n) => if IsCodePoint(n) then Some((n as char, text[6..])) else None
      case None => None
    else if |text| >= 2 && Escaped(text[1]).Some? then Some((Escaped(text[1]).value, text[2..]))
    else None
  }

  /** The rest of a string up to its closing quote, and what follows the quote. */
  function ReadRest(text: string): Option<(string, string)>
    decreases |text|
  {
    if text != "" && text[0] == '"' then Some(("", text[1..]))
    else
      match ReadChar(text)
      case None => None
      case Some((c, after)) =>
        if |after| >= |text| then None
        else
          match ReadRest(after)
          case None => None
          case Some((s, end)) => Some(([c] + s, end))
  }

  function ReadString(text: string): Option<(string, string)> {
    if text != "" && text[0] == '"' then ReadRest(text[1..]) else None
  }

  lemma HexBack(n: nat)
    requires n < 16
    ensures HexValue(Hex(n)) == Some(n)
  {
  }

  lemma HexStep(digits: string, so: nat, d: nat)
    requires digits != "" && d < 16 && digits[0] == Hex(d)
    ensures HexNumber(digits, so) == HexNumber(digits[1..], 16 * so + d)
  {
    HexBack(d);
  }

  lemma Hex4Back(n: nat)
    requires n < 0x10000
    ensures HexNumber(Hex4(n), 0) == Some(n)
  {
    var t := Hex4(n);
    var a, b, c, d := n / 16 / 16 / 16, n / 16 / 16 % 16, n / 16 % 16, n % 16;
    HexStep(t, 0, a);
    HexStep(t[1..], a, b);
    HexStep(t[2..], 16 * a + b, c);
    HexStep(t[3..], 16 * (16 * a + b) + c, d);
    assert t[1..][1..] == t[2..] && t[2..][1..] == t[3..] && t[3..][1..] == "";
  }

  lemma PlainBack(c: char, after: string)
    requires ' ' <= c && c != '"' && c != '\\'
    ensures ReadChar([c] + after) == Some((c, after))
  {
    assert ([c] + after)[1..] == after;
  }

  lemma PairBack(e: char, after: string)
    requires Escaped(e).Some?
    ensures ReadChar(['\\', e] + after) == Some((Escaped(e).value, after))
  {
    assert (['\\', e] + after)[2..] == after;
  }

  lemma CodeBack(c: char, after: string)
    requires (c as int) < 0x10000
    ensures ReadChar("\\u" + Hex4(c as int) + after) == Some((c, after))
  {
    var text := "\\u" + Hex4(c as int) + after;
    Hex4Back(c as int);
    assert text[2..6] == Hex4(c as int) && text[6..] == after;
  }

  /** Every character is read back from its escape. */
  lemma EscapeBack(c: char, after: string)
    ensures ReadChar(Escape(c) + after) == Some((c, after)) && Escape(c) != "" && Escape(c)[0] != '"'
  {
    if |Escape(c)| == 1 {
      PlainBack(c, after);
    } else if |Escape(c)| == 2 {
      var e := Escape(c)[1];
      assert Escape(c) == ['\\', e];
      PairBack(e, after);
    } else {
      CodeBack(c, after);
    }
  }

  lemma {:induction false} RestBack(s: string, i: nat, after: string)
    requires i <= |s|
    ensures ReadRest(EncodeFrom(Escape, s, i) + after) == Some((s[i..], after))
    decreases |s| - i
  {
    var text := EncodeFrom(Escape, s, i) + after;
    if i == |s| {
      assert text == "\"" + after && text[1..] == after && s[i..] == "";
    } else {
      var rest := EncodeFrom(Escape, s, i + 1) + after;
      assert text == Escape(s[i]) + rest;
      EscapeBack(s[i], rest);
      RestBack(s, i + 1, after);
      assert s[i..] == [s[i]] + s[i + 1..];
    }
  }

  /** What is written for a string is read as that string, with nothing of what follows lost. */
  lemma QuoteBack(s: string, after: string)
    ensures ReadString(Quote(s) + after) == Some((s, after))
  {
    RestBack(s, 0, after);
    assert (Quote(s) + after)[1..] == EncodeFrom(Escape, s, 0) + after && s[0..] == s;
  }
}
