/**
 * The JSON payload of one stream record, `{content, is_final}`.
 *
 * `Encode` is what the server's `json.dumps({'content': c, 'is_final': b})`
 * produces with Python's default settings: keys in insertion order, the
 * separators ", " and ": ", and `ensure_ascii`, so every character outside
 * the printable ASCII range is written as a lower-case `\uXXXX` escape
 * (a surrogate pair above U+FFFF).  `Decode` is the part of the client's
 * `JSON.parse` that this object shape exercises (section 7 of RFC 8259 for
 * strings, JSON whitespace between tokens).
 */
module Json {
  import opened Wrappers
  import opened SeqFacts

  /** The record payload (StreamChunk in the server's schema). */
  datatype Payload = Payload(content: string, isFinal: bool)

  /** Printable ASCII, the alphabet of everything `Encode` writes. */
  predicate Printable(c: char) {
    ' ' <= c <= '~'
  }

  predicate AllPrintable(s: string) {
    forall k :: 0 <= k < |s| ==> Printable(s[k])
  }

  // ---------------------------------------------------------------------
  // Hexadecimal digits of \u escapes

  function HexDigit(d: nat): (c: char)
    requires d < 16
    ensures Printable(c)
  {
    "0123456789abcdef"[d]
  }

  /** The value of a hexadecimal digit; JSON accepts both cases. */
  function HexValue(c: char): (r: Option<nat>)
    ensures r.Some? ==> r.value < 16
  {
    if '0' <= c <= '9' then Some(c as int - '0' as int)
    else if 'a' <= c <= 'f' then Some(c as int - 'a' as int + 10)
    else if 'A' <= c <= 'F' then Some(c as int - 'A' as int + 10)
    else None
  }

  lemma HexDigitValue(d: nat)
    requires d < 16
    ensures HexValue(HexDigit(d)) == Some(d)
  {
    var digits := "0123456789abcdef";
    assert HexDigit(d) == digits[d];
  }

  /** Four lower-case hexadecimal digits, as Python's `'{0:04x}'` writes them. */
  function Hex4(n: nat): (r: string)
    requires n < 0x10000
    ensures |r| == 4 && AllPrintable(r)
  {
    [HexDigit(n / 16 / 16 / 16), HexDigit(n / 16 / 16 % 16), HexDigit(n / 16 % 16), HexDigit(n % 16)]
  }

  function Hex4Value(s: string): (r: Option<nat>)
    requires |s| == 4
    ensures r.Some? ==> r.value < 0x10000
  {
    var a :- HexValue(s[0]);
    var b :- HexValue(s[1]);
    var c :- HexValue(s[2]);
    var d :- HexValue(s[3]);
    Some(a * 0x1000 + b * 0x100 + c * 0x10 + d)
  }

  lemma Hex4RoundTrip(n: nat)
    requires n < 0x10000
    ensures Hex4Value(Hex4(n)) == Some(n)
  {
    var q1 := n / 16;
    var q2 := q1 / 16;
    var a, b, c, d := q2 / 16, q2 % 16, q1 % 16, n % 16;
    assert n == 16 * q1 + d;
    assert q1 == 16 * q2 + c;
    assert q2 == 16 * a + b;
    HexDigitValue(a);
    HexDigitValue(b);
    HexDigitValue(c);
    HexDigitValue(d);
  }

  // ---------------------------------------------------------------------
  // Strings

  lemma PrintableAppend(a: string, b: string)
    requires AllPrintable(a) && AllPrintable(b)
    ensures AllPrintable(a + b)
  {
    assert forall k :: |a| <= k < |a + b| ==> (a + b)[k] == b[k - |a|];
  }

  /** Python's ensure_ascii escaping of one character. */
  function EscapeChar(c: char): string {
    if c == '"' then "\\\""
    else if c == '\\' then "\\\\"
    else if c == '\n' then "\\n"
    else if c == '\r' then "\\r"
    else if c == '\t' then "\\t"
    else if c == 8 as char then "\\b"
    else if c == 12 as char then "\\f"
    else if Printable(c) then [c]
    else if c as int < 0x10000 then "\\u" + Hex4(c as int)
    else
      var v := c as int - 0x10000;
      "\\u" + Hex4(0xD800 + v / 0x400) + "\\u" + Hex4(0xDC00 + v % 0x400)
  }

  /** The characters between the quotes of an encoded string. */
  function EscapeString(s: string): (r: string)
    ensures AllPrintable(r)
  {
    if s == [] then [] else
      EscapeCharPrintable(s[0]);
      PrintableAppend(EscapeChar(s[0]), EscapeString(s[1..]));
      EscapeChar(s[0]) + EscapeString(s[1..])
  }

  /**
   * The character an escape stands for, given the text after the backslash,
   * and how many characters of that text the escape takes.
   */
  function ParseEscape(u: string): (r: Option<(char, nat)>)
    ensures r.Some? ==> 1 <= r.value.1 <= |u|
  {
    if |u| == 0 then None
    else if u[0] == '"' then Some(('"', 1))
    else if u[0] == '\\' then Some(('\\', 1))
    else if u[0] == '/' then Some(('/', 1))
    else if u[0] == 'b' then Some((8 as char, 1))
    else if u[0] == 'f' then Some((12 as char, 1))
    else if u[0] == 'n' then Some(('\n', 1))
    else if u[0] == 'r' then Some(('\r', 1))
    else if u[0] == 't' then Some(('\t', 1))
    else if u[0] == 'u' && |u| >= 5 then
      match Hex4Value(u[1..5])
      case None => None
      case Some(h) =>
        if 0xD800 <= h < 0xDC00 then
          if |u| >= 11 && u[5] == '\\' && u[6] == 'u' then
            match Hex4Value(u[7..11])
            case None => None
            case Some(l) =>
              if 0xDC00 <= l < 0xE000
              then Some(((0x10000 + (h - 0xD800) * 0x400 + (l - 0xDC00)) as char, 11))
              else None
          else None
        else if 0xDC00 <= h < 0xE000 then None
        else Some((h as char, 5))
    else None
  }

  /**
   * Reads a string body up to its closing quote: the decoded characters and
   * the text after the quote.  A raw control character is an error, as is an
   * unterminated string.
   */
  function ParseString(t: string): (r: Option<(string, string)>)
    decreases |t|
  {
    if |t| == 0 then None
    else if t[0] == '"' then Some(([], t[1..]))
    else if t[0] == '\\' then
      match ParseEscape(t[1..])
      case None => None
      case Some((c, n)) =>
        match ParseString(t[1 + n..])
        case None => None
        case Some((s, rest)) => Some(([c] + s, rest))
    else if t[0] < ' ' then None
    else
      match ParseString(t[1..])
      case None => None
      case Some((s, rest)) => Some(([t[0]] + s, rest))
  }

  /** A parse result with one more character in front of the decoded string. */
  function Cons(c: char, r: Option<(string, string)>): Option<(string, string)> {
    match r
    case None => None
    case Some((s, rest)) => Some(([c] + s, rest))
  }

  lemma ParseStringEscape(t: string, c: char, n: nat)
    requires |t| > 0 && t[0] == '\\' && ParseEscape(t[1..]) == Some((c, n))
    ensures ParseString(t) == Cons(c, ParseString(t[1 + n..]))
  {
  }

  lemma EscapeBmpParses(c: char, t: string)
    requires !Printable(c) && c as int < 0x10000
    ensures ParseEscape("u" + Hex4(c as int) + t) == Some((c, 5))
  {
    var u := "u" + Hex4(c as int) + t;
    assert u[1..5] == Hex4(c as int);
    Hex4RoundTrip(c as int);
  }

  /** The UTF-16 surrogate pair of a character above U+FFFF. */
  lemma SurrogatePair(c: char)
    requires c as int >= 0x10000
    ensures var v := c as int - 0x10000;
      var hi, lo := 0xD800 + v / 0x400, 0xDC00 + v % 0x400;
      0xD800 <= hi < 0xDC00 && 0xDC00 <= lo < 0xE000 &&
      0x10000 + (hi - 0xD800) * 0x400 + (lo - 0xDC00) == c as int
  {
  }

  lemma ParseEscapePair(u: string, h: nat, l: nat)
    requires |u| >= 11 && u[0] == 'u' && u[5] == '\\' && u[6] == 'u'
    requires Hex4Value(u[1..5]) == Some(h) && Hex4Value(u[7..11]) == Some(l)
    requires 0xD800 <= h < 0xDC00 && 0xDC00 <= l < 0xE000
    ensures ParseEscape(u) == Some(((0x10000 + (h - 0xD800) * 0x400 + (l - 0xDC00)) as char, 11))
  {
  }

  lemma EscapeAstralParses(c: char, t: string)
    requires c as int >= 0x10000
    ensures var v := c as int - 0x10000;
      ParseEscape("u" + Hex4(0xD800 + v / 0x400) + "\\u" + Hex4(0xDC00 + v % 0x400) + t) == Some((c, 11))
  {
    var v := c as int - 0x10000;
    var hi, lo := 0xD800 + v / 0x400, 0xDC00 + v % 0x400;
    SurrogatePair(c);
    var u := "u" + Hex4(hi) + "\\u" + Hex4(lo) + t;
    assert u[1..5] == Hex4(hi);
    assert u[5] == '\\' && u[6] == 'u';
    assert u[7..11] == Hex4(lo);
    Hex4RoundTrip(hi);
    Hex4RoundTrip(lo);
    ParseEscapePair(u, hi, lo);
  }

  predicate ShortEscaped(c: char) {
    c == '"' || c == '\\' || c == '\n' || c == '\r' || c == '\t' || c == 8 as char || c == 12 as char
  }

  lemma ShortEscapeParses(c: char, t: string)
    requires ShortEscaped(c)
    ensures ParseString(EscapeChar(c) + t) == Cons(c, ParseString(t))
  {
    var e := EscapeChar(c);
    assert |e| == 2 && e[0] == '\\';
    assert ParseEscape([e[1]] + t) == Some((c, 1));
    assert (e + t)[1..] == [e[1]] + t;
    ParseStringEscape(e + t, c, 1);
    assert (e + t)[1 + 1..] == t;
  }

  lemma PlainCharParses(c: char, t: string)
    requires !ShortEscaped(c) && Printable(c)
    ensures ParseString(EscapeChar(c) + t) == Cons(c, ParseString(t))
  {
    assert EscapeChar(c) + t == [c] + t;
    assert ([c] + t)[1..] == t;
  }

  lemma BmpEscapeParses(c: char, t: string)
    requires !ShortEscaped(c) && !Printable(c) && c as int < 0x10000
    ensures ParseString(EscapeChar(c) + t) == Cons(c, ParseString(t))
  {
    EscapeCharBmp(c);
    AppendAssoc("\\", "u" + Hex4(c as int), t);
    assert "\\u" + Hex4(c as int) == "\\" + ("u" + Hex4(c as int));
    var w := "\\" + ("u" + Hex4(c as int) + t);
    EscapeBmpParses(c, t);
    assert w[1..] == "u" + Hex4(c as int) + t;
    ParseStringEscape(w, c, 5);
    assert w[1 + 5..] == t;
  }

  lemma EscapeCharBmp(c: char)
    requires !Printable(c) && !ShortEscaped(c) && c as int < 0x10000
    ensures EscapeChar(c) == "\\u" + Hex4(c as int)
  {
  }

  lemma EscapeCharAstral(c: char)
    requires c as int >= 0x10000
    ensures EscapeChar(c) ==
      "\\u" + Hex4(0xD800 + (c as int - 0x10000) / 0x400) + "\\u" + Hex4(0xDC00 + (c as int - 0x10000) % 0x400)
  {
  }

  lemma AstralEscapePrintable(c: char)
    requires c as int >= 0x10000
    ensures |EscapeChar(c)| > 0 && AllPrintable(EscapeChar(c))
  {
    SurrogatePair(c);
    var v := c as int - 0x10000;
    var hi, lo := Hex4(0xD800 + v / 0x400), Hex4(0xDC00 + v % 0x400);
    EscapeCharAstral(c);
    PrintableAppend("\\u", hi);
    PrintableAppend("\\u" + hi, "\\u");
    PrintableAppend("\\u" + hi + "\\u", lo);
  }

  lemma BmpEscapePrintable(c: char)
    requires !Printable(c) && !ShortEscaped(c) && c as int < 0x10000
    ensures |EscapeChar(c)| > 0 && AllPrintable(EscapeChar(c))
  {
    EscapeCharBmp(c);
    PrintableAppend("\\u", Hex4(c as int));
  }

  /** Every escape is non-empty printable ASCII. */
  lemma EscapeCharPrintable(c: char)
    ensures |EscapeChar(c)| > 0 && AllPrintable(EscapeChar(c))
  {
    if c as int >= 0x10000 {
      AstralEscapePrintable(c);
    } else if !Printable(c) && !ShortEscaped(c) {
      BmpEscapePrintable(c);
    }
  }

  lemma LeadingBackslash(a: string, b: string, t: string)
    ensures "\\u" + a + "\\u" + b + t == "\\" + ("u" + a + "\\u" + b + t)
  {
  }

  lemma AstralEscapeParses(c: char, t: string)
    requires c as int >= 0x10000
    ensures ParseString(EscapeChar(c) + t) == Cons(c, ParseString(t))
  {
    var v := c as int - 0x10000;
    var hi, lo := Hex4(0xD800 + v / 0x400), Hex4(0xDC00 + v % 0x400);
    var u := "u" + hi + "\\u" + lo + t;
    EscapeCharAstral(c);
    LeadingBackslash(hi, lo, t);
    EscapeAstralParses(c, t);
    var w := "\\" + u;
    assert w[1..] == u;
    ParseStringEscape(w, c, 11);
    assert w[1 + 11..] == t;
  }

  /** Parsing the escape of one character yields that character and leaves what follows. */
  lemma EscapeCharParses(c: char, t: string)
    ensures ParseString(EscapeChar(c) + t) == Cons(c, ParseString(t))
  {
    if ShortEscaped(c) {
      ShortEscapeParses(c, t);
    } else if Printable(c) {
      PlainCharParses(c, t);
    } else if c as int < 0x10000 {
      BmpEscapeParses(c, t);
    } else {
      AstralEscapeParses(c, t);
    }
  }

  /** Decoding undoes escaping: the string comes back, and so does the text after it. */
  lemma {:induction false} EscapeStringRoundTrip(s: string, rest: string)
    ensures ParseString(EscapeString(s) + "\"" + rest) == Some((s, rest))
  {
    if s == [] {
      assert EscapeString(s) + "\"" + rest == "\"" + rest;
      assert ("\"" + rest)[1..] == rest;
    } else {
      EscapeStringRoundTrip(s[1..], rest);
      AppendAssoc4(EscapeChar(s[0]), EscapeString(s[1..]), "\"", rest);
      EscapeCharParses(s[0], EscapeString(s[1..]) + "\"" + rest);
      assert [s[0]] + s[1..] == s;
    }
  }

  // ---------------------------------------------------------------------
  // The payload object

  function BoolText(b: bool): string {
    if b then "true" else "false"
  }

  /** `json.dumps({'content': p.content, 'is_final': p.isFinal})`. */
  function Encode(p: Payload): string {
    "{\"content\": \"" + EscapeString(p.content) + "\", \"is_final\": " + BoolText(p.isFinal) + "}"
  }

  /** The document is printable ASCII, so in particular it holds no newline. */
  lemma EncodePrintable(p: Payload)
    ensures AllPrintable(Encode(p))
    ensures forall k :: 0 <= k < |Encode(p)| ==> Encode(p)[k] != '\n'
  {
    var a := "{\"content\": \"" + EscapeString(p.content);
    PrintableAppend("{\"content\": \"", EscapeString(p.content));
    var b := a + "\", \"is_final\": ";
    PrintableAppend(a, "\", \"is_final\": ");
    assert AllPrintable(BoolText(p.isFinal));
    PrintableAppend(b, BoolText(p.isFinal));
    PrintableAppend(b + BoolText(p.isFinal), "}");
  }

  /** JSON whitespace between tokens. */
  predicate IsWs(c: char) {
    c == ' ' || c == '\t' || c == '\n' || c == '\r'
  }

  function SkipWs(t: string): string {
    if t != [] && IsWs(t[0]) then SkipWs(t[1..]) else t
  }

  /** Optional whitespace, then the literal token `lit`; gives the text after it. */
  function Token(t: string, lit: string): Option<string> {
    var u := SkipWs(t);
    if lit <= u then Some(u[|lit|..]) else None
  }

  function ParseBool(t: string): (r: Option<(bool, string)>) {
    match Token(t, "true")
    case Some(rest) => Some((true, rest))
    case None =>
      match Token(t, "false")
      case Some(rest) => Some((false, rest))
      case None => None
  }

  // The decoder reads one token per stage, so that each stage can be
  // reasoned about on its own.

  /** `{ "content" : "` with whitespace between the tokens: the text after the opening quote. */
  function OpenContent(t: string): (r: Option<string>) {
    var a :- Token(t, "{");
    AfterBrace(a)
  }

  function AfterBrace(a: string): (r: Option<string>) {
    var b :- Token(a, "\"content\"");
    AfterContentKey(b)
  }

  function AfterContentKey(b: string): (r: Option<string>) {
    var c :- Token(b, ":");
    Token(c, "\"")
  }

  /** `, "is_final" : <true|false> }` and then only whitespace: the flag. */
  function CloseFinal(e: string): (r: Option<bool>) {
    var f :- Token(e, ",");
    AfterComma(f)
  }

  function AfterComma(f: string): (r: Option<bool>) {
    var g :- Token(f, "\"is_final\"");
    AfterFinalKey(g)
  }

  function AfterFinalKey(g: string): (r: Option<bool>) {
    var h :- Token(g, ":");
    var (isFinal, i) :- ParseBool(h);
    AfterFlag(i, isFinal)
  }

  function AfterFlag(i: string, isFinal: bool): (r: Option<bool>) {
    var j :- Token(i, "}");
    if SkipWs(j) == [] then Some(isFinal) else None
  }

  /**
   * Parses `{ "content": <string>, "is_final": <true|false> }` with JSON
   * whitespace around every token and nothing but whitespace after it.
   */
  function Decode(t: string): (r: Option<Payload>) {
    var d :- OpenContent(t);
    var (content, e) :- ParseString(d);
    var isFinal :- CloseFinal(e);
    Some(Payload(content, isFinal))
  }

  lemma TokenAt(lit: string, rest: string)
    requires lit != [] && !IsWs(lit[0])
    ensures Token(lit + rest, lit) == Some(rest)
  {
    assert (lit + rest)[0] == lit[0];
    assert lit <= lit + rest;
    assert (lit + rest)[|lit|..] == rest;
  }

  lemma TokenAfterSpace(lit: string, rest: string)
    requires lit != [] && !IsWs(lit[0])
    ensures Token(" " + lit + rest, lit) == Some(rest)
  {
    assert (" " + lit + rest)[1..] == lit + rest;
    TokenAt(lit, rest);
  }

  lemma OpenContentAt(rest: string)
    ensures OpenContent("{\"content\": \"" + rest) == Some(rest)
  {
    assert "{\"content\": \"" + rest == "{" + ("\"content\"" + (":" + (" " + "\"" + rest)));
    TokenAt("{", "\"content\"" + (":" + (" " + "\"" + rest)));
    TokenAt("\"content\"", ":" + (" " + "\"" + rest));
    TokenAt(":", " " + "\"" + rest);
    TokenAfterSpace("\"", rest);
  }

  lemma AfterFlagAt(b: bool)
    ensures AfterFlag("}", b) == Some(b)
  {
    TokenAt("}", []);
    assert "}" + [] == "}";
  }

  lemma ParseBoolAt(b: bool, rest: string)
    requires rest != [] && !IsWs(rest[0])
    ensures ParseBool(" " + BoolText(b) + rest) == Some((b, rest))
  {
    TokenAfterSpace(BoolText(b), rest);
    if !b {
      var t := " " + BoolText(b) + rest;
      assert t[1..] == BoolText(b) + rest;
      assert SkipWs(t) == BoolText(b) + rest;
      assert (BoolText(b) + rest)[1] == 'a';
      assert !("true" <= BoolText(b) + rest);
    }
  }

  lemma AfterFinalKeyAt(b: bool)
    ensures AfterFinalKey(": " + BoolText(b) + "}") == Some(b)
  {
    var lit := BoolText(b);
    assert ": " + lit + "}" == ":" + (" " + lit + "}");
    TokenAt(":", " " + lit + "}");
    ParseBoolAt(b, "}");
    AfterFlagAt(b);
  }

  lemma AfterCommaAt(b: bool)
    ensures AfterComma(" \"is_final\": " + BoolText(b) + "}") == Some(b)
  {
    var lit := BoolText(b);
    assert " \"is_final\": " + lit + "}" == " " + "\"is_final\"" + (": " + lit + "}");
    TokenAfterSpace("\"is_final\"", ": " + lit + "}");
    AfterFinalKeyAt(b);
  }

  lemma CloseFinalAt(b: bool)
    ensures CloseFinal(", \"is_final\": " + BoolText(b) + "}") == Some(b)
  {
    var lit := BoolText(b);
    assert ", \"is_final\": " + lit + "}" == "," + (" \"is_final\": " + lit + "}");
    TokenAt(",", " \"is_final\": " + lit + "}");
    AfterCommaAt(b);
  }

  lemma Regroup(x: string, e: string, q: string, y: string, b: string, z: string)
    ensures x + e + (q + y) + b + z == x + (e + q + (y + b + z))
  {
  }

  lemma EncodeNested(p: Payload)
    ensures Encode(p) ==
      "{\"content\": \"" + (EscapeString(p.content) + "\"" + (", \"is_final\": " + BoolText(p.isFinal) + "}"))
  {
    assert "\", \"is_final\": " == "\"" + ", \"is_final\": ";
    Regroup("{\"content\": \"", EscapeString(p.content), "\"", ", \"is_final\": ", BoolText(p.isFinal), "}");
  }

  /** The client reads back exactly the payload the server wrote. */
  lemma DecodeEncode(p: Payload)
    ensures Decode(Encode(p)) == Some(p)
  {
    var tail := ", \"is_final\": " + BoolText(p.isFinal) + "}";
    var rest := EscapeString(p.content) + "\"" + tail;
    EncodeNested(p);
    OpenContentAt(rest);
    EscapeStringRoundTrip(p.content, tail);
    CloseFinalAt(p.isFinal);
  }
}
