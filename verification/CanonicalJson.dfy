/**
 The canonical text of a JSON value, whose hash identifies a deal snapshot: object keys in order, no
 spaces, strings escaped as Go's encoder does.
 */
module CanonicalJson {
  import opened Texts

  /** Numbers are kept as the text they were written with. */
  datatype Json =
    | Null
    | Bool(b: bool)
    | Num(text: string)
    | Str(s: string)
    | Arr(items: seq<Json>)
    | Obj(fields: map<string, Json>)

  predicate NumberChar(c: char) {
    '0' <= c <= '9' || c == '-' || c == '+' || c == '.' || c == 'e' || c == 'E'
  }

  /** What every number of section 6 of RFC 8259 satisfies, and all that is needed of one here. */
  predicate NumberText(t: string) {
    t != "" && (t[0] == '-' || '0' <= t[0] <= '9') && forall c | c in t :: NumberChar(c)
  }

  /** The values a JSON decoder yields: all their numbers are number texts. */
  ghost predicate Decoded(v: Json) {
    match v
    case Num(text) => NumberText(text)
    case Arr(items) => forall i | 0 <= i < |items| :: Decoded(items[i])
    case Obj(fields) => forall k | k in fields :: Decoded(fields[k])
    case _ => true
  }

  // -------------------------------------------------------------------------------------------
  // Strings
  // -------------------------------------------------------------------------------------------

  function Hex(n: nat): char
    requires n < 16
  {
    "0123456789abcdef"[n]
  }

  function Hex4(n: nat): string
    requires n < 0x10000
  {
    [Hex(n / 16 / 16 / 16), Hex(n / 16 / 16 % 16), Hex(n / 16 % 16), Hex(n % 16)]
  }

  predicate NeedsCode(c: char) {
    c < ' ' || c == '<' || c == '>' || c == '&' || c == '\U{2028}' || c == '\U{2029}'
  }

  function Escape(c: char): string {
    if c == '"' then "\\\""
    else if c == '\\' then "\\\\"
    else if c == '\U{08}' then "\\b"
    else if c == '\U{0C}' then "\\f"
    else if c == '\n' then "\\n"
    else if c == '\r' then "\\r"
    else if c == '\t' then "\\t"
    else if NeedsCode(c) then "\\u" + Hex4(c as int)
    else [c]
  }

  /** The characters from `i` on, each replaced by its code, and the closing quote. */
  function EncodeFrom(code: char -> string, s: string, i: nat): string
    requires i <= |s|
    decreases |s| - i
  {
    if i == |s| then "\"" else code(s[i]) + EncodeFrom(code, s, i + 1)
  }

  function Quote(s: string): string {
    "\"" + EncodeFrom(Escape, s, 0)
  }

  lemma HexInjective(m: nat, n: nat)
    requires m < 16 && n < 16 && Hex(m) == Hex(n)
    ensures m == n
  {
  }

  lemma DivMod16(m: nat, n: nat)
    requires m / 16 == n / 16 && m % 16 == n % 16
    ensures m == n
  {
  }

  lemma Hex4Injective(m: nat, n: nat)
    requires m < 0x10000 && n < 0x10000 && Hex4(m) == Hex4(n)
    ensures m == n
  {
    var s, t := Hex4(m), Hex4(n);
    assert s[0] == t[0] && s[1] == t[1] && s[2] == t[2] && s[3] == t[3];
    HexInjective(m / 16 / 16 / 16, n / 16 / 16 / 16);
    HexInjective(m / 16 / 16 % 16, n / 16 / 16 % 16);
    DivMod16(m / 16 / 16, n / 16 / 16);
    HexInjective(m / 16 % 16, n / 16 % 16);
    DivMod16(m / 16, n / 16);
    HexInjective(m % 16, n % 16);
    DivMod16(m, n);
  }

  /** An escape can be read back from the front of a text, and never looks like the closing quote. */
  lemma EscapeInjective(c: char, d: char, x: string, y: string)
    requires Escape(c) + x == Escape(d) + y
    ensures c == d && x == y
  {
    var t := Escape(c) + x;
    assert t[0] == Escape(c)[0] == Escape(d)[0];
    if t[0] == '\\' {
      assert t[1] == Escape(c)[1] == Escape(d)[1];
      if t[1] == 'u' {
        assert t[2..6] == Hex4(c as int) && t[2..6] == Hex4(d as int);
        Hex4Injective(c as int, d as int);
      }
    }
    assert c == d;
    assert t[|Escape(c)|..] == x && t[|Escape(c)|..] == y;
  }

  /** Codes that can be read back from the front of a text and never look like the closing quote. */
  ghost predicate PrefixCode(code: char -> string) {
    && (forall c :: code(c) != "" && code(c)[0] != '"')
    && forall c, d, x, y | code(c) + x == code(d) + y :: c == d && x == y
  }

  lemma EncodedHead(code: char -> string, s: string, i: nat, y: string)
    requires PrefixCode(code) && i < |s|
    ensures (EncodeFrom(code, s, i) + y)[0] != '"'
  {
    assert (EncodeFrom(code, s, i) + y)[0] == code(s[i])[0];
  }

  lemma EncodedEnd(code: char -> string, s: string, i: nat, x: string, y: string)
    requires PrefixCode(code) && i <= |s| && "\"" + x == EncodeFrom(code, s, i) + y
    ensures i == |s| && x == y
  {
    var t := EncodeFrom(code, s, i) + y;
    assert t[0] == '"' && t[1..] == x;
    if i < |s| {
      EncodedHead(code, s, i, y);
    } else {
      assert t[1..] == y;
    }
  }

  lemma {:induction false} EncodedInjective(code: char -> string, a: string, b: string, i: nat, x: string, y: string)
    requires PrefixCode(code) && i <= |a| && i <= |b| && a[..i] == b[..i]
    requires EncodeFrom(code, a, i) + x == EncodeFrom(code, b, i) + y
    ensures a == b && x == y
    decreases |a| - i
  {
    if i == |a| {
      EncodedEnd(code, b, i, x, y);
      assert a == a[..i] && b == b[..i];
    } else if i == |b| {
      EncodedEnd(code, a, i, y, x);
    } else {
      var t, u := EncodeFrom(code, a, i + 1) + x, EncodeFrom(code, b, i + 1) + y;
      assert EncodeFrom(code, a, i) + x == code(a[i]) + t;
      assert EncodeFrom(code, b, i) + y == code(b[i]) + u;
      assert a[i] == b[i] && t == u;
      assert a[..i + 1] == a[..i] + [a[i]] && b[..i + 1] == b[..i] + [b[i]];
      EncodedInjective(code, a, b, i + 1, x, y);
    }
  }

  lemma EscapeIsPrefixCode()
    ensures PrefixCode(Escape)
  {
    forall c, d, x, y | Escape(c) + x == Escape(d) + y
      ensures c == d && x == y
    {
      EscapeInjective(c, d, x, y);
    }
  }

  lemma QuoteInjective(a: string, b: string, x: string, y: string)
    requires Quote(a) + x == Quote(b) + y
    ensures a == b && x == y
  {
    EscapeIsPrefixCode();
    assert (Quote(a) + x)[1..] == EncodeFrom(Escape, a, 0) + x;
    assert (Quote(b) + y)[1..] == EncodeFrom(Escape, b, 0) + y;
    EncodedInjective(Escape, a, b, 0, x, y);
  }

  // -------------------------------------------------------------------------------------------
  // Keys in order
  // -------------------------------------------------------------------------------------------

  /** The keys, each once, in increasing order. */
  ghost predicate InOrder(ks: seq<string>, keys: set<string>) {
    && (forall k :: k in ks <==> k in keys)
    && forall i, j | 0 <= i < j < |ks| :: TextLess(ks[i], ks[j])
  }

  /** There is only one such order, whatever order the keys were met in. */
  lemma {:induction false} InOrderUnique(ks: seq<string>, ls: seq<string>, keys: set<string>)
    requires InOrder(ks, keys) && InOrder(ls, keys)
    ensures ks == ls
    decreases |ks|
  {
    if ks == [] || ls == [] {
      SameMembersEmpty(ks, ls);
    } else {
      HeadsAgree(ks, ls, keys);
      RestInOrder(ks, keys);
      RestInOrder(ls, keys);
      InOrderUnique(ks[1..], ls[1..], keys - {ks[0]});
      assert ks == [ks[0]] + ks[1..] && ls == [ls[0]] + ls[1..];
    }
  }

  lemma SameMembersEmpty(ks: seq<string>, ls: seq<string>)
    requires forall k :: k in ks <==> k in ls
    ensures ks == [] <==> ls == []
  {
    if ks != [] { assert ks[0] in ls; }
    if ls != [] { assert ls[0] in ks; }
  }

  lemma HeadsAgree(ks: seq<string>, ls: seq<string>, keys: set<string>)
    requires InOrder(ks, keys) && InOrder(ls, keys) && ks != [] && ls != []
    ensures ks[0] == ls[0]
  {
    assert ks[0] in ls && ls[0] in ks;
    TextLessTotal(ks[0], ls[0]);
  }

  lemma RestInOrder(ks: seq<string>, keys: set<string>)
    requires InOrder(ks, keys) && ks != []
    ensures InOrder(ks[1..], keys - {ks[0]})
  {
    forall k
      ensures k in ks[1..] <==> k in keys - {ks[0]}
    {
      if k in ks[1..] {
        var j :| 0 <= j < |ks[1..]| && ks[1..][j] == k;
        assert TextLess(ks[0], ks[j + 1]);
        TextLessTotal(ks[0], k);
      }
    }
  }

  function Insert(ks: seq<string>, k: string): seq<string> {
    if ks == [] || TextLess(k, ks[0]) then [k] + ks else [ks[0]] + Insert(ks[1..], k)
  }

  lemma {:induction false} InsertMembers(ks: seq<string>, k: string)
    ensures forall x :: x in Insert(ks, k) <==> x in ks || x == k
  {
    if ks != [] {
      assert ks == [ks[0]] + ks[1..];
      InsertMembers(ks[1..], k);
    }
  }

  lemma {:induction false} InsertInOrder(ks: seq<string>, k: string, keys: set<string>)
    requires InOrder(ks, keys) && k !in keys
    ensures InOrder(Insert(ks, k), keys + {k})
    decreases |ks|
  {
    InsertMembers(ks, k);
    var r := Insert(ks, k);
    if ks != [] && TextLess(k, ks[0]) {
      forall j | 0 < j < |ks|
        ensures TextLess(k, ks[j])
      {
        TextLessTransitive(k, ks[0], ks[j]);
      }
    } else if ks != [] {
      TextLessTotal(k, ks[0]);
      RestInOrder(ks, keys);
      InsertInOrder(ks[1..], k, keys - {ks[0]});
      InsertMembers(ks[1..], k);
      forall j | 0 < j < |r|
        ensures TextLess(ks[0], r[j])
      {
        assert r[j] in Insert(ks[1..], k);
        if r[j] != k {
          var m :| 0 <= m < |ks[1..]| && ks[1..][m] == r[j];
          assert ks[m + 1] == r[j];
        }
      }
    }
  }

  lemma {:induction false} OrderExists(keys: set<string>)
    ensures exists ks :: InOrder(ks, keys)
    decreases |keys|
  {
    if keys == {} {
      assert InOrder([], keys);
    } else {
      var k :| k in keys;
      OrderExists(keys - {k});
      var ks :| InOrder(ks, keys - {k});
      InsertInOrder(ks, k, keys - {k});
      assert keys - {k} + {k} == keys;
    }
  }

  ghost function Ordered(keys: set<string>): (ks: seq<string>)
    ensures InOrder(ks, keys)
  {
    OrderExists(keys);
    var ks :| InOrder(ks, keys);
    ks
  }

  /** The keys met in any order, then sorted. */
  method SortKeys(keys: set<string>) returns (ks: seq<string>)
    ensures ks == Ordered(keys)
  {
    ks := [];
    var rest := keys;
    while rest != {}
      invariant rest <= keys && InOrder(ks, keys - rest)
      decreases |rest|
    {
      var k :| k in rest;
      InsertInOrder(ks, k, keys - rest);
      assert keys - (rest - {k}) == keys - rest + {k};
      ks := Insert(ks, k);
      rest := rest - {k};
    }
    assert keys - rest == keys;
    InOrderUnique(ks, Ordered(keys), keys);
  }

  // -------------------------------------------------------------------------------------------
  // Values
  // -------------------------------------------------------------------------------------------

  function Comma(i: nat): string {
    if i == 0 then "" else ","
  }

  /** The parts from `i` on, separated by commas, and the closing bracket. */
  function Joined(parts: seq<string>, i: nat, close: char): string
    requires i <= |parts|
    decreases |parts| - i
  {
    if i == |parts| then [close] else Comma(i) + parts[i] + Joined(parts, i + 1, close)
  }

  ghost function ItemTexts(v: Json): seq<string>
    requires v.Arr?
    decreases v, 0
  {
    seq(|v.items|, i requires 0 <= i < |v.items| => Canon(v.items[i]))
  }

  function Member(key: string, text: string): string {
    Quote(key) + ":" + text
  }

  ghost function FieldTexts(v: Json): seq<string>
    requires v.Obj?
    decreases v, 0
  {
    var keys := Ordered(v.fields.Keys);
    seq(|keys|, i requires 0 <= i < |keys| => assert keys[i] in keys; Member(keys[i], Canon(v.fields[keys[i]])))
  }

  ghost function Canon(v: Json): string
    decreases v, 1
  {
    match v
    case Null => "null"
    case Bool(b) => if b then "true" else "false"
    case Num(text) => text
    case Str(s) => Quote(s)
    case Arr(_) => "[" + Joined(ItemTexts(v), 0, ']')
    case Obj(_) => "{" + Joined(FieldTexts(v), 0, '}')
  }

  // -------------------------------------------------------------------------------------------
  // Injectivity
  // -------------------------------------------------------------------------------------------

  predicate Delimiter(c: char) {
    c == ',' || c == ']' || c == '}'
  }

  /** Nothing, or what can follow a value inside another one. */
  predicate Delimited(x: string) {
    x == "" || Delimiter(x[0])
  }

  /** Not to be taken for what can follow a value. */
  predicate Solid(p: string) {
    p != "" && !Delimiter(p[0])
  }

  /** Where `p` or `q` stands before a delimiter, what stands there tells which of them it is. */
  ghost predicate Readable(p: string, q: string) {
    forall x, y | Delimited(x) && Delimited(y) && p + x == q + y :: p == q && x == y
  }

  lemma JoinedHead(parts: seq<string>, i: nat, close: char, x: string)
    requires i <= |parts| && Delimiter(close) && close != ',' && (i < |parts| ==> Solid(parts[i]))
    ensures var t := Joined(parts, i, close) + x; t != "" && (t[0] == close <==> i == |parts|)
  {
  }

  ghost predicate Distinguishable(ps: seq<string>, qs: seq<string>) {
    && (forall j | 0 <= j < |ps| :: Solid(ps[j])) && (forall j | 0 <= j < |qs| :: Solid(qs[j]))
    && forall j | 0 <= j < |ps| && j < |qs| :: Readable(ps[j], qs[j])
  }

  lemma {:induction false} JoinedInjective(ps: seq<string>, qs: seq<string>, i: nat, close: char, x: string, y: string)
    requires i <= |ps| && i <= |qs| && Delimiter(close) && close != ',' && Distinguishable(ps, qs)
    requires ps[..i] == qs[..i] && Joined(ps, i, close) + x == Joined(qs, i, close) + y
    ensures ps == qs && x == y
    decreases |ps| - i
  {
    JoinedHead(ps, i, close, x);
    JoinedHead(qs, i, close, y);
    if i == |ps| {
      assert (Joined(ps, i, close) + x)[1..] == x && (Joined(qs, i, close) + y)[1..] == y;
      assert ps == ps[..i] && qs == qs[..i];
    } else {
      var t, u := Joined(ps, i + 1, close) + x, Joined(qs, i + 1, close) + y;
      assert (Joined(ps, i, close) + x)[|Comma(i)|..] == ps[i] + t;
      assert (Joined(qs, i, close) + y)[|Comma(i)|..] == qs[i] + u;
      JoinedDelimited(ps, i + 1, close, x);
      JoinedDelimited(qs, i + 1, close, y);
      assert Readable(ps[i], qs[i]);
      assert ps[..i + 1] == ps[..i] + [ps[i]] && qs[..i + 1] == qs[..i] + [qs[i]];
      JoinedInjective(ps, qs, i + 1, close, x, y);
    }
  }

  lemma JoinedDelimited(parts: seq<string>, i: nat, close: char, x: string)
    requires 0 < i <= |parts| && Delimiter(close)
    ensures Delimited(Joined(parts, i, close) + x)
  {
  }

  /** The first character of a value's text tells what kind of value it is. */
  predicate Opens(v: Json, c: char) {
    match v
    case Null => c == 'n'
    case Bool(b) => c == if b then 't' else 'f'
    case Num(_) => c == '-' || '0' <= c <= '9'
    case Str(_) => c == '"'
    case Arr(_) => c == '['
    case Obj(_) => c == '{'
  }

  lemma CanonHead(v: Json)
    requires Decoded(v)
    ensures Canon(v) != "" && Opens(v, Canon(v)[0])
  {
  }

  lemma CanonSolid(v: Json)
    requires Decoded(v)
    ensures Solid(Canon(v))
  {
    CanonHead(v);
  }

  lemma NumberInjective(a: string, b: string, x: string, y: string)
    requires NumberText(a) && NumberText(b) && Delimited(x) && Delimited(y) && a + x == b + y
    ensures a == b && x == y
  {
    NotShorter(a, b, x, y);
    NotShorter(b, a, y, x);
    assert (a + x)[..|a|] == a && (b + y)[..|b|] == b && (a + x)[|a|..] == x && (b + y)[|b|..] == y;
  }

  lemma NotShorter(a: string, b: string, x: string, y: string)
    requires NumberText(b) && Delimited(x) && a + x == b + y
    ensures |b| <= |a|
  {
    if |a| < |b| {
      NumberCharAt(b, |a|);
      Overlap(a, b, x, y);
    }
  }

  lemma Overlap(a: string, b: string, x: string, y: string)
    requires |a| < |b| && a + x == b + y
    ensures x != "" && x[0] == b[|a|]
  {
    assert (a + x)[|a|] == (b + y)[|a|] == b[|a|];
  }

  lemma NumberCharAt(t: string, i: nat)
    requires NumberText(t) && i < |t|
    ensures !Delimiter(t[i])
  {
    assert t[i] in t;
  }

  /** Reads one key and the colon after it. */
  lemma KeyInjective(a: string, b: string, x: string, y: string)
    requires Member(a, x) == Member(b, y)
    ensures a == b && x == y
  {
    assert Member(a, x) == Quote(a) + (":" + x) && Member(b, y) == Quote(b) + (":" + y);
    QuoteInjective(a, b, ":" + x, ":" + y);
    assert (":" + x)[1..] == x && (":" + y)[1..] == y;
  }

  lemma MembersReadable(a: string, b: string, p: string, q: string)
    requires Readable(p, q)
    ensures Readable(Member(a, p), Member(b, q)) && Solid(Member(a, p)) && Solid(Member(b, q))
  {
    forall x, y | Delimited(x) && Delimited(y) && Member(a, p) + x == Member(b, q) + y
      ensures Member(a, p) == Member(b, q) && x == y
    {
      assert Member(a, p) + x == Member(a, p + x) && Member(b, q) + y == Member(b, q + y);
      KeyInjective(a, b, p + x, q + y);
    }
  }

  lemma {:induction false} CanonReadable(v: Json, w: Json)
    requires Decoded(v) && Decoded(w)
    ensures Readable(Canon(v), Canon(w)) && (Canon(v) == Canon(w) ==> v == w)
    decreases v, 1
  {
    forall x, y | Delimited(x) && Delimited(y) && Canon(v) + x == Canon(w) + y
      ensures v == w && x == y
    {
      CanonInjective(v, w, x, y);
    }
    if Canon(v) == Canon(w) {
      assert Canon(v) + "" == Canon(w) + "";
    }
  }

  lemma {:induction false} ItemsInjective(v: Json, w: Json, x: string, y: string)
    requires Decoded(v) && Decoded(w) && v.Arr? && w.Arr?
    requires Joined(ItemTexts(v), 0, ']') + x == Joined(ItemTexts(w), 0, ']') + y
    ensures v == w && x == y
    decreases v, 0, 1
  {
    forall j | 0 <= j < |v.items| && j < |w.items|
      ensures Readable(Canon(v.items[j]), Canon(w.items[j]))
      ensures Canon(v.items[j]) == Canon(w.items[j]) ==> v.items[j] == w.items[j]
    {
      CanonReadable(v.items[j], w.items[j]);
    }
    ItemsSolid(v);
    ItemsSolid(w);
    var ps, qs := ItemTexts(v), ItemTexts(w);
    assert Distinguishable(ps, qs);
    JoinedInjective(ps, qs, 0, ']', x, y);
    forall j | 0 <= j < |v.items|
      ensures j < |w.items| && v.items[j] == w.items[j]
    {
      assert ps[j] == qs[j];
    }
  }

  lemma ItemsSolid(v: Json)
    requires Decoded(v) && v.Arr?
    ensures forall j | 0 <= j < |v.items| :: Solid(Canon(v.items[j]))
  {
    forall j | 0 <= j < |v.items|
      ensures Solid(Canon(v.items[j]))
    {
      CanonSolid(v.items[j]);
    }
  }

  lemma {:induction false} FieldsInjective(v: Json, w: Json, x: string, y: string)
    requires Decoded(v) && Decoded(w) && v.Obj? && w.Obj?
    requires Joined(FieldTexts(v), 0, '}') + x == Joined(FieldTexts(w), 0, '}') + y
    ensures v == w && x == y
    decreases v, 0, 3
  {
    FieldsReadable(v, w);
    JoinedInjective(FieldTexts(v), FieldTexts(w), 0, '}', x, y);
  }

  lemma {:induction false} FieldsReadable(v: Json, w: Json)
    requires Decoded(v) && Decoded(w) && v.Obj? && w.Obj?
    ensures Distinguishable(FieldTexts(v), FieldTexts(w)) && (FieldTexts(v) == FieldTexts(w) ==> v == w)
    decreases v, 0, 2
  {
    var ks, ls := Ordered(v.fields.Keys), Ordered(w.fields.Keys);
    var ps, qs := FieldTexts(v), FieldTexts(w);
    forall j | 0 <= j < |ks| && j < |ls|
      ensures Readable(ps[j], qs[j])
    {
      FieldAt(v, w, j);
    }
    if ps == qs {
      forall j | 0 <= j < |ks|
        ensures ks[j] in v.fields && ls[j] in w.fields && ks[j] == ls[j] && v.fields[ks[j]] == w.fields[ls[j]]
      {
        FieldAt(v, w, j);
      }
      SameMembers(v.fields, w.fields, ks, ls);
    }
  }

  lemma {:induction false} FieldAt(v: Json, w: Json, j: nat)
    requires Decoded(v) && Decoded(w) && v.Obj? && w.Obj? && j < |FieldTexts(v)| && j < |FieldTexts(w)|
    ensures var ks, ls := Ordered(v.fields.Keys), Ordered(w.fields.Keys);
            && j < |ks| && j < |ls| && ks[j] in v.fields && ls[j] in w.fields
            && Readable(FieldTexts(v)[j], FieldTexts(w)[j])
            && (FieldTexts(v)[j] == FieldTexts(w)[j] ==> ks[j] == ls[j] && v.fields[ks[j]] == w.fields[ls[j]])
    decreases v, 0, 1
  {
    var ks, ls := Ordered(v.fields.Keys), Ordered(w.fields.Keys);
    assert ks[j] in ks && ls[j] in ls;
    FieldReadable(v, w, ks[j], ls[j]);
  }

  lemma SameMembers(a: map<string, Json>, b: map<string, Json>, ks: seq<string>, ls: seq<string>)
    requires InOrder(ks, a.Keys) && InOrder(ls, b.Keys) && |ks| == |ls|
    requires forall j | 0 <= j < |ks| :: ks[j] in a && ls[j] in b && ks[j] == ls[j] && a[ks[j]] == b[ls[j]]
    ensures a == b
  {
    assert ks == ls;
    SameFields(a, b, ks);
  }

  lemma {:induction false} FieldReadable(v: Json, w: Json, k: string, l: string)
    requires Decoded(v) && Decoded(w) && v.Obj? && w.Obj? && k in v.fields && l in w.fields
    ensures var p, q := Member(k, Canon(v.fields[k])), Member(l, Canon(w.fields[l]));
            Readable(p, q) && (p == q ==> k == l && v.fields[k] == w.fields[l])
    decreases v, 0, 0
  {
    CanonReadable(v.fields[k], w.fields[l]);
    MembersReadable(k, l, Canon(v.fields[k]), Canon(w.fields[l]));
    if Member(k, Canon(v.fields[k])) == Member(l, Canon(w.fields[l])) {
      KeyInjective(k, l, Canon(v.fields[k]), Canon(w.fields[l]));
    }
  }

  lemma SameFields(a: map<string, Json>, b: map<string, Json>, ks: seq<string>)
    requires InOrder(ks, a.Keys) && InOrder(ks, b.Keys) && forall j | 0 <= j < |ks| :: a[ks[j]] == b[ks[j]]
    ensures a == b
  {
    forall k | k in a
      ensures k in b && a[k] == b[k]
    {
      assert k in ks;
    }
    assert a.Keys == b.Keys;
  }

  lemma SameKind(v: Json, w: Json, x: string, y: string)
    requires Decoded(v) && Decoded(w) && Canon(v) + x == Canon(w) + y
    ensures exists c :: Opens(v, c) && Opens(w, c)
  {
    CanonHead(v);
    CanonHead(w);
    assert (Canon(v) + x)[0] == Canon(v)[0] && (Canon(w) + y)[0] == Canon(w)[0];
  }

  lemma Inside(v: Json, x: string)
    requires v.Arr? || v.Obj?
    ensures (Canon(v) + x)[1..] == (if v.Arr? then Joined(ItemTexts(v), 0, ']') else Joined(FieldTexts(v), 0, '}')) + x
  {
  }

  lemma LeafInjective(v: Json, w: Json, x: string, y: string)
    requires Decoded(v) && Decoded(w) && Delimited(x) && Delimited(y) && Canon(v) + x == Canon(w) + y
    requires !v.Arr? && !v.Obj? && exists c :: Opens(v, c) && Opens(w, c)
    ensures v == w && x == y
  {
    if v.Num? {
      NumberInjective(v.text, w.text, x, y);
    } else if v.Str? {
      QuoteInjective(v.s, w.s, x, y);
    } else {
      assert v == w && (Canon(v) + x)[|Canon(v)|..] == x && (Canon(w) + y)[|Canon(w)|..] == y;
    }
  }

  lemma {:induction false} CanonInjective(v: Json, w: Json, x: string, y: string)
    requires Decoded(v) && Decoded(w) && Delimited(x) && Delimited(y) && Canon(v) + x == Canon(w) + y
    ensures v == w && x == y
    decreases v, 0, 4
  {
    SameKind(v, w, x, y);
    if v.Arr? || v.Obj? {
      Inside(v, x);
      Inside(w, y);
      if v.Arr? {
        ItemsInjective(v, w, x, y);
      } else {
        FieldsInjective(v, w, x, y);
      }
    } else {
      LeafInjective(v, w, x, y);
    }
  }

  /** Two snapshots have the same canonical text exactly when they are the same JSON value. */
  lemma SameTextIffSameValue(v: Json, w: Json)
    requires Decoded(v) && Decoded(w)
    ensures Canon(v) == Canon(w) <==> v == w
  {
    CanonReadable(v, w);
  }

  // -------------------------------------------------------------------------------------------
  // The code's own form
  // -------------------------------------------------------------------------------------------

  lemma JoinedStep(buffer: string, parts: seq<string>, i: nat, close: char)
    requires i < |parts|
    ensures buffer + Joined(parts, i, close) == buffer + Comma(i) + parts[i] + Joined(parts, i + 1, close)
  {
  }

  /** Writes the text to a buffer; the keys of an object are met in any order and then sorted. */
  method CanonicalizeJson(v: Json) returns (text: string)
    ensures text == Canon(v)
    decreases v, 1
  {
    match v
    case Null => text := "null";
    case Bool(b) => text := if b then "true" else "false";
    case Num(t) => text := t;
    case Str(s) => text := Quote(s);
    case Arr(_) => text := CanonicalizeArray(v);
    case Obj(_) => text := CanonicalizeObject(v);
  }

  method CanonicalizeArray(v: Json) returns (buffer: string)
    requires v.Arr?
    ensures buffer == Canon(v)
    decreases v, 0
  {
    buffer := "[";
    ghost var parts := ItemTexts(v);
    for i := 0 to |v.items|
      invariant buffer + Joined(parts, i, ']') == "[" + Joined(parts, 0, ']')
    {
      JoinedStep(buffer, parts, i, ']');
      if i > 0 {
        buffer := buffer + ",";
      }
      var child := CanonicalizeJson(v.items[i]);
      buffer := buffer + child;
    }
    buffer := buffer + "]";
  }

  method CanonicalizeObject(v: Json) returns (buffer: string)
    requires v.Obj?
    ensures buffer == Canon(v)
    decreases v, 0
  {
    var keys := SortKeys(v.fields.Keys);
    buffer := "{";
    ghost var parts := FieldTexts(v);
    for i := 0 to |keys|
      invariant buffer + Joined(parts, i, '}') == "{" + Joined(parts, 0, '}')
    {
      JoinedStep(buffer, parts, i, '}');
      if i > 0 {
        buffer := buffer + ",";
      }
      assert keys[i] in keys;
      var child := CanonicalizeJson(v.fields[keys[i]]);
      buffer := buffer + Member(keys[i], child);
    }
    buffer := buffer + "}";
  }
}
