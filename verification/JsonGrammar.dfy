/**
 The JSON grammar of section 2 of RFC 8259, twice.

 Generatively: a concrete syntax tree (`Node`) holds every token with its spelling and every run of
 whitespace, and `PrintNode` writes it out.  The grammar allows whitespace around the six structural
 characters and around the whole text, that is, in front of every token and at the end of the text;
 a tree therefore stores the whitespace in front of each token.

 As a recogniser: `ParseText` is a deterministic recursive-descent parser, standing for the
 validating deserializer the compactor consults.

 `ParseComplete` and `ParseSound` prove that the two agree on every byte string.
 */
module JsonGrammar {
  import opened Bytes

  const QUOTE: Byte := 0x22
  const BACKSLASH: Byte := 0x5C
  const COMMA: Byte := 0x2C
  const COLON: Byte := 0x3A
  const LBRACKET: Byte := 0x5B
  const RBRACKET: Byte := 0x5D
  const LBRACE: Byte := 0x7B
  const RBRACE: Byte := 0x7D
  const MINUS: Byte := 0x2D
  const POINT: Byte := 0x2E

  const TRUE: Bytes := [0x74, 0x72, 0x75, 0x65]
  const FALSE: Bytes := [0x66, 0x61, 0x6C, 0x73, 0x65]
  const NULL: Bytes := [0x6E, 0x75, 0x6C, 0x6C]

  predicate IsWs(b: Byte) {
    b == 0x20 || b == 0x09 || b == 0x0D || b == 0x0A
  }

  predicate AllWs(s: Bytes) {
    forall i :: 0 <= i < |s| ==> IsWs(s[i])
  }

  predicate IsDigit(b: Byte) {
    0x30 <= b <= 0x39
  }

  predicate AllDigits(s: Bytes) {
    forall i :: 0 <= i < |s| ==> IsDigit(s[i])
  }

  predicate IsHex(b: Byte) {
    IsDigit(b) || 0x41 <= b <= 0x46 || 0x61 <= b <= 0x66
  }

  // ----- Numbers -----

  /** `number = [ minus ] int [ frac ] [ exp ]`; an empty `frac` is an absent one. */
  datatype Number = Number(minus: bool, whole: Bytes, frac: Bytes, exp: Exponent)
  datatype Exponent = NoExponent | Exponent(letter: Byte, sign: Bytes, digits: Bytes)

  predicate WellFormedNumber(n: Number) {
    && n.whole != [] && AllDigits(n.whole) && (n.whole[0] == 0x30 ==> |n.whole| == 1)
    && AllDigits(n.frac)
    && (n.exp.Exponent? ==>
          && n.exp.letter in {0x45, 0x65}
          && n.exp.sign in [[], [0x2B], [MINUS]]
          && n.exp.digits != [] && AllDigits(n.exp.digits))
  }

  function PrintExponent(e: Exponent, k: Bytes): Bytes {
    if e.NoExponent? then k else [e.letter] + (e.sign + (e.digits + k))
  }

  function PrintFraction(frac: Bytes, k: Bytes): Bytes {
    if frac == [] then k else [POINT] + (frac + k)
  }

  /** The spelling of `n` followed by `k`. */
  function PrintNumber(n: Number, k: Bytes): Bytes {
    (if n.minus then [MINUS] else []) + (n.whole + PrintFraction(n.frac, PrintExponent(n.exp, k)))
  }

  function DigitsLen(s: Bytes): (n: nat)
    ensures n <= |s|
  {
    if s == [] || !IsDigit(s[0]) then 0 else 1 + DigitsLen(s[1..])
  }

  lemma {:induction false} DigitsLenSound(s: Bytes)
    ensures AllDigits(s[..DigitsLen(s)])
  {
    if s != [] && IsDigit(s[0]) {
      DigitsLenSound(s[1..]);
      assert s[..DigitsLen(s)] == [s[0]] + s[1..][..DigitsLen(s[1..])];
    }
  }

  function ScanWhole(s: Bytes): (r: Option<Bytes>)
    ensures r.Some? ==> |r.value| < |s|
  {
    if s == [] || !IsDigit(s[0]) then None
    else if s[0] == 0x30 then Some(s[1..])
    else Some(s[DigitsLen(s)..])
  }

  function ScanFraction(s: Bytes): (r: Option<Bytes>)
    ensures r.Some? ==> |r.value| <= |s|
  {
    if s == [] || s[0] != POINT then Some(s)
    else
      var d := DigitsLen(s[1..]);
      if d == 0 then None else Some(s[1 + d..])
  }

  function ScanExponent(s: Bytes): (r: Option<Bytes>)
    ensures r.Some? ==> |r.value| <= |s|
  {
    if s == [] || s[0] !in {0x45, 0x65} then Some(s)
    else
      var sign := if |s| > 1 && s[1] in {0x2B, MINUS} then 1 else 0;
      var d := DigitsLen(s[1 + sign..]);
      if d == 0 then None else Some(s[1 + sign + d..])
  }

  /** What follows the number at the front of `s`, if there is one. */
  function ScanNumber(s: Bytes): (r: Option<Bytes>)
    ensures r.Some? ==> |r.value| < |s|
  {
    var s1 := if s != [] && s[0] == MINUS then s[1..] else s;
    match ScanWhole(s1)
    case None => None
    case Some(s2) =>
      match ScanFraction(s2)
      case None => None
      case Some(s3) => ScanExponent(s3)
  }

  /** A number ends where one of these follows; in valid JSON one always does. */
  predicate Delimited(k: Bytes) {
    k == [] || IsWs(k[0]) || k[0] in {COMMA, RBRACKET, RBRACE}
  }

  lemma {:induction false} DigitsLenExact(d: Bytes, k: Bytes)
    requires AllDigits(d)
    requires k == [] || !IsDigit(k[0])
    ensures DigitsLen(d + k) == |d|
  {
    if d == [] {
      assert d + k == k;
    } else {
      assert (d + k)[1..] == d[1..] + k;
      DigitsLenExact(d[1..], k);
    }
  }

  lemma WholeComplete(whole: Bytes, k: Bytes)
    requires whole != [] && AllDigits(whole) && (whole[0] == 0x30 ==> |whole| == 1)
    requires k == [] || !IsDigit(k[0])
    ensures ScanWhole(whole + k) == Some(k)
  {
    DigitsLenExact(whole, k);
    assert (whole + k)[|whole|..] == k;
  }

  lemma FractionComplete(frac: Bytes, k: Bytes)
    requires AllDigits(frac)
    requires k == [] || !(IsDigit(k[0]) || k[0] == POINT)
    ensures ScanFraction(PrintFraction(frac, k)) == Some(k)
  {
    if frac != [] {
      var s := PrintFraction(frac, k);
      assert s[1..] == frac + k;
      DigitsLenExact(frac, k);
      assert s[1 + |frac|..] == k;
    }
  }

  lemma ExponentComplete(e: Exponent, k: Bytes)
    requires e.Exponent? ==> e.letter in {0x45, 0x65} && e.sign in [[], [0x2B], [MINUS]]
    requires e.Exponent? ==> e.digits != [] && AllDigits(e.digits)
    requires Delimited(k)
    ensures ScanExponent(PrintExponent(e, k)) == Some(k)
  {
    if e.Exponent? {
      var s := PrintExponent(e, k);
      var sign := |e.sign|;
      assert s[1..] == e.sign + (e.digits + k);
      assert s[1 + sign..] == e.digits + k;
      DigitsLenExact(e.digits, k);
      assert s[1 + sign + |e.digits|..] == k;
    }
  }

  lemma ScanNumberComplete(n: Number, k: Bytes)
    requires WellFormedNumber(n) && Delimited(k)
    ensures ScanNumber(PrintNumber(n, k)) == Some(k)
    ensures PrintNumber(n, k)[0] == MINUS || IsDigit(PrintNumber(n, k)[0])
  {
    var s3 := PrintExponent(n.exp, k);
    var s2 := PrintFraction(n.frac, s3);
    ExponentComplete(n.exp, k);
    FractionComplete(n.frac, s3);
    WholeComplete(n.whole, s2);
    var s := PrintNumber(n, k);
    if n.minus {
      assert s[1..] == n.whole + s2;
    } else {
      assert s == n.whole + s2;
    }
  }

  lemma WholeSound(s: Bytes) returns (whole: Bytes)
    requires ScanWhole(s).Some?
    ensures whole != [] && AllDigits(whole) && (whole[0] == 0x30 ==> |whole| == 1)
    ensures s == whole + ScanWhole(s).value
  {
    DigitsLenSound(s);
    whole := if s[0] == 0x30 then s[..1] else s[..DigitsLen(s)];
  }

  lemma FractionSound(s: Bytes) returns (frac: Bytes)
    requires ScanFraction(s).Some?
    ensures AllDigits(frac) && s == PrintFraction(frac, ScanFraction(s).value)
  {
    frac := [];
    if s != [] && s[0] == POINT {
      DigitsLenSound(s[1..]);
      frac := s[1..][..DigitsLen(s[1..])];
      assert s[1..] == frac + ScanFraction(s).value;
    }
  }

  lemma ExponentSound(s: Bytes) returns (e: Exponent)
    requires ScanExponent(s).Some?
    ensures e.Exponent? ==> e.letter in {0x45, 0x65} && e.sign in [[], [0x2B], [MINUS]]
    ensures e.Exponent? ==> e.digits != [] && AllDigits(e.digits)
    ensures s == PrintExponent(e, ScanExponent(s).value)
  {
    e := NoExponent;
    if s != [] && s[0] in {0x45, 0x65} {
      var sign := if |s| > 1 && s[1] in {0x2B, MINUS} then 1 else 0;
      var t := s[1 + sign..];
      DigitsLenSound(t);
      e := Exponent(s[0], if sign == 1 then [s[1]] else [], t[..DigitsLen(t)]);
      assert t == e.digits + ScanExponent(s).value;
      assert s == [s[0]] + (e.sign + t);
    }
  }

  lemma ScanNumberSound(s: Bytes) returns (n: Number)
    requires ScanNumber(s).Some?
    ensures WellFormedNumber(n) && PrintNumber(n, ScanNumber(s).value) == s
  {
    var minus := s != [] && s[0] == MINUS;
    var s1 := if minus then s[1..] else s;
    var whole := WholeSound(s1);
    var s2 := ScanWhole(s1).value;
    var frac := FractionSound(s2);
    var exp := ExponentSound(ScanFraction(s2).value);
    n := Number(minus, whole, frac, exp);
  }

  // ----- Strings -----

  datatype Char = Plain(b: Byte) | Escape(b: Byte) | Unicode(hex: Bytes)

  predicate WellFormedChar(c: Char) {
    match c
    case Plain(b) => b >= 0x20 && b != QUOTE && b != BACKSLASH
    case Escape(b) => b in {QUOTE, BACKSLASH, 0x2F, 0x62, 0x66, 0x6E, 0x72, 0x74}
    case Unicode(hex) => |hex| == 4 && forall i :: 0 <= i < 4 ==> IsHex(hex[i])
  }

  function PrintChar(c: Char, k: Bytes): Bytes {
    match c
    case Plain(b) => [b] + k
    case Escape(b) => [BACKSLASH, b] + k
    case Unicode(hex) => [BACKSLASH, 0x75] + (hex + k)
  }

  /** The characters of a string and its closing quote, followed by `k`. */
  function PrintChars(cs: seq<Char>, k: Bytes): Bytes {
    if cs == [] then [QUOTE] + k else PrintChar(cs[0], PrintChars(cs[1..], k))
  }

  function PrintString(cs: seq<Char>, k: Bytes): Bytes {
    [QUOTE] + PrintChars(cs, k)
  }

  predicate WellFormedChars(cs: seq<Char>) {
    forall i :: 0 <= i < |cs| ==> WellFormedChar(cs[i])
  }

  /** What follows the closing quote of the string whose characters start `s`. */
  function ScanChars(s: Bytes): (r: Option<Bytes>)
    ensures r.Some? ==> |r.value| < |s|
  {
    if s == [] then None
    else if s[0] == QUOTE then Some(s[1..])
    else if s[0] == BACKSLASH then
      if |s| >= 2 && WellFormedChar(Escape(s[1])) then ScanChars(s[2..])
      else if |s| >= 6 && s[1] == 0x75 && WellFormedChar(Unicode(s[2..6])) then ScanChars(s[6..])
      else None
    else if WellFormedChar(Plain(s[0])) then ScanChars(s[1..])
    else None
  }

  lemma {:induction false} ScanCharsComplete(cs: seq<Char>, k: Bytes)
    requires WellFormedChars(cs)
    ensures ScanChars(PrintChars(cs, k)) == Some(k)
  {
    if cs != [] {
      ScanCharsComplete(cs[1..], k);
      var rest := PrintChars(cs[1..], k);
      var s := PrintChar(cs[0], rest);
      match cs[0] {
        case Plain(b) => assert s[1..] == rest;
        case Escape(b) => assert s[2..] == rest;
        case Unicode(hex) => assert s[2..6] == hex && s[6..] == rest;
      }
    }
  }

  lemma {:induction false} ScanCharsSound(s: Bytes) returns (cs: seq<Char>)
    requires ScanChars(s).Some?
    ensures WellFormedChars(cs) && PrintChars(cs, ScanChars(s).value) == s
    decreases |s|
  {
    if s[0] == QUOTE {
      cs := [];
    } else {
      var c, n := Plain(s[0]), 1;
      if s[0] == BACKSLASH {
        if WellFormedChar(Escape(s[1])) {
          c, n := Escape(s[1]), 2;
        } else {
          c, n := Unicode(s[2..6]), 6;
          assert s[2..] == s[2..6] + s[6..];
        }
      }
      var rest := ScanCharsSound(s[n..]);
      cs := [c] + rest;
      assert s == PrintChar(c, s[n..]);
      assert cs[1..] == rest;
    }
  }

  // ----- Scalars -----

  ghost predicate IsString(t: Bytes) {
    exists cs :: WellFormedChars(cs) && t == PrintString(cs, [])
  }

  ghost predicate IsNumber(t: Bytes) {
    exists n :: WellFormedNumber(n) && t == PrintNumber(n, [])
  }

  ghost predicate IsScalar(t: Bytes) {
    t == TRUE || t == FALSE || t == NULL || IsNumber(t) || IsString(t)
  }

  function ScanLiteral(s: Bytes, t: Bytes): (r: Option<Bytes>)
    ensures r.Some? ==> s == t + r.value
  {
    if |t| <= |s| && s[..|t|] == t then Some(s[|t|..]) else None
  }

  /** What follows the scalar at the front of `s`. */
  function ScanScalar(s: Bytes): (r: Option<Bytes>)
    ensures r.Some? ==> |r.value| < |s|
  {
    if s == [] then None
    else if s[0] == QUOTE then ScanChars(s[1..])
    else if s[0] == TRUE[0] then ScanLiteral(s, TRUE)
    else if s[0] == FALSE[0] then ScanLiteral(s, FALSE)
    else if s[0] == NULL[0] then ScanLiteral(s, NULL)
    else ScanNumber(s)
  }

  lemma {:induction false} PrintCharsAppend(cs: seq<Char>, k: Bytes)
    ensures PrintChars(cs, k) == PrintChars(cs, []) + k
  {
    if cs != [] {
      PrintCharsAppend(cs[1..], k);
    }
  }

  lemma PrintStringAppend(cs: seq<Char>, k: Bytes)
    ensures PrintString(cs, k) == PrintString(cs, []) + k
  {
    PrintCharsAppend(cs, k);
  }

  lemma PrintNumberAppend(n: Number, k: Bytes)
    ensures PrintNumber(n, k) == PrintNumber(n, []) + k
  {
    var e := PrintExponent(n.exp, []);
    assert PrintExponent(n.exp, k) == e + k;
    var f := PrintFraction(n.frac, e);
    assert PrintFraction(n.frac, e + k) == f + k;
  }

  lemma StringScanned(t: Bytes, k: Bytes)
    requires IsString(t)
    ensures t != [] && t[0] == QUOTE && ScanChars((t + k)[1..]) == Some(k)
  {
    var cs :| WellFormedChars(cs) && t == PrintString(cs, []);
    PrintCharsAppend(cs, k);
    assert (t + k)[1..] == PrintChars(cs, k);
    ScanCharsComplete(cs, k);
  }

  lemma NumberScanned(t: Bytes, k: Bytes)
    requires IsNumber(t) && Delimited(k)
    ensures t != [] && (t[0] == MINUS || IsDigit(t[0])) && ScanNumber(t + k) == Some(k)
  {
    var n :| WellFormedNumber(n) && t == PrintNumber(n, []);
    PrintNumberAppend(n, k);
    ScanNumberComplete(n, k);
  }

  lemma LiteralScanned(t: Bytes, k: Bytes)
    ensures ScanLiteral(t + k, t) == Some(k)
  {
    assert (t + k)[..|t|] == t;
    assert (t + k)[|t|..] == k;
  }

  lemma StringScalar(t: Bytes, k: Bytes)
    requires IsString(t)
    ensures t != [] && t[0] == QUOTE && ScanScalar(t + k) == Some(k)
  {
    StringScanned(t, k);
    assert (t + k)[0] == t[0];
  }

  lemma NumberIsDispatched(s: Bytes)
    requires s != [] && (s[0] == MINUS || IsDigit(s[0]))
    ensures ScanScalar(s) == ScanNumber(s)
  {
  }

  lemma NumberScalar(t: Bytes, k: Bytes)
    requires IsNumber(t) && Delimited(k)
    ensures t != [] && (t[0] == MINUS || IsDigit(t[0])) && ScanScalar(t + k) == Some(k)
  {
    NumberScanned(t, k);
    NumberIsDispatched(t + k);
  }

  lemma LiteralScalar(t: Bytes, k: Bytes)
    requires t in {TRUE, FALSE, NULL}
    ensures ScanScalar(t + k) == Some(k)
  {
    LiteralScanned(t, k);
    assert (t + k)[0] == t[0];
  }

  lemma ScanScalarComplete(t: Bytes, k: Bytes)
    requires IsScalar(t) && Delimited(k)
    ensures t != [] && !IsWs(t[0]) && t[0] !in {LBRACKET, LBRACE, RBRACKET, RBRACE}
    ensures ScanScalar(t + k) == Some(k)
  {
    if IsString(t) {
      StringScalar(t, k);
    } else if IsNumber(t) {
      NumberScalar(t, k);
    } else {
      LiteralScalar(t, k);
    }
  }

  lemma Quoted(s: Bytes, body: Bytes, k: Bytes)
    requires s != [] && s[0] == QUOTE && s[1..] == body + k
    ensures s == ([QUOTE] + body) + k
  {
  }

  lemma StringFound(s: Bytes, k: Bytes) returns (t: Bytes)
    requires s != [] && s[0] == QUOTE && ScanChars(s[1..]) == Some(k)
    ensures IsString(t) && s == t + k
  {
    var cs := ScanCharsSound(s[1..]);
    PrintCharsAppend(cs, k);
    Quoted(s, PrintChars(cs, []), k);
    t := PrintString(cs, []);
  }

  lemma NumberFound(s: Bytes, k: Bytes) returns (t: Bytes)
    requires ScanNumber(s) == Some(k)
    ensures IsNumber(t) && s == t + k
  {
    var n := ScanNumberSound(s);
    t := PrintNumber(n, []);
    PrintNumberAppend(n, k);
  }

  lemma ScanScalarSound(s: Bytes) returns (t: Bytes)
    requires ScanScalar(s).Some?
    ensures IsScalar(t) && s == t + ScanScalar(s).value
    ensures s[0] == QUOTE ==> IsString(t)
  {
    var k := ScanScalar(s).value;
    if s[0] == QUOTE {
      t := StringFound(s, k);
    } else if s[0] == TRUE[0] {
      t := TRUE;
    } else if s[0] == FALSE[0] {
      t := FALSE;
    } else if s[0] == NULL[0] {
      t := NULL;
    } else {
      t := NumberFound(s, k);
    }
  }

  // ----- Values and texts -----

  /** A JSON value with every scalar as spelled, members in order, duplicate names kept. */
  datatype Value =
    | Scalar(spelling: Bytes)
    | Array(elems: seq<Value>)
    | Object(members: seq<(Bytes, Value)>)

  datatype Node =
    | Atom(lead: Bytes, spelling: Bytes)
    | EmptyArray(lead: Bytes, close: Bytes)
    | Array(lead: Bytes, elems: Elems, close: Bytes)
    | EmptyObject(lead: Bytes, close: Bytes)
    | Object(lead: Bytes, members: Members, close: Bytes)

  datatype Elems =
    | LastElem(node: Node)
    | MoreElems(node: Node, comma: Bytes, rest: Elems)

  datatype Members =
    | LastMember(lead: Bytes, name: Bytes, colon: Bytes, node: Node)
    | MoreMembers(lead: Bytes, name: Bytes, colon: Bytes, node: Node, comma: Bytes, rest: Members)

  ghost predicate WellFormed(n: Node) {
    && AllWs(n.lead)
    && match n
       case Atom(_, t) => IsScalar(t)
       case EmptyArray(_, close) => AllWs(close)
       case Array(_, elems, close) => WellFormedElems(elems) && AllWs(close)
       case EmptyObject(_, close) => AllWs(close)
       case Object(_, members, close) => WellFormedMembers(members) && AllWs(close)
  }

  ghost predicate WellFormedElems(e: Elems) {
    && WellFormed(e.node)
    && (e.MoreElems? ==> AllWs(e.comma) && WellFormedElems(e.rest))
  }

  ghost predicate WellFormedMembers(m: Members) {
    && AllWs(m.lead) && IsString(m.name) && AllWs(m.colon) && WellFormed(m.node)
    && (m.MoreMembers? ==> AllWs(m.comma) && WellFormedMembers(m.rest))
  }

  /** The text of `n` followed by `k`. */
  function PrintNode(n: Node, k: Bytes): Bytes {
    n.lead +
    match n
    case Atom(_, t) => t + k
    case EmptyArray(_, close) => [LBRACKET] + (close + ([RBRACKET] + k))
    case Array(_, elems, close) => [LBRACKET] + PrintElems(elems, close + ([RBRACKET] + k))
    case EmptyObject(_, close) => [LBRACE] + (close + ([RBRACE] + k))
    case Object(_, members, close) => [LBRACE] + PrintMembers(members, close + ([RBRACE] + k))
  }

  function PrintElems(e: Elems, k: Bytes): Bytes {
    match e
    case LastElem(n) => PrintNode(n, k)
    case MoreElems(n, comma, rest) => PrintNode(n, comma + ([COMMA] + PrintElems(rest, k)))
  }

  function PrintMembers(m: Members, k: Bytes): Bytes {
    m.lead + (m.name + (m.colon + ([COLON] +
    match m
    case LastMember(_, _, _, n) => PrintNode(n, k)
    case MoreMembers(_, _, _, n, comma, rest) => PrintNode(n, comma + ([COMMA] + PrintMembers(rest, k))))))
  }

  function ValueOf(n: Node): Value {
    match n
    case Atom(_, t) => Scalar(t)
    case EmptyArray(_, _) => Value.Array([])
    case Array(_, elems, _) => Value.Array(ElemsOf(elems))
    case EmptyObject(_, _) => Value.Object([])
    case Object(_, members, _) => Value.Object(MembersOf(members))
  }

  function ElemsOf(e: Elems): seq<Value> {
    if e.MoreElems? then [ValueOf(e.node)] + ElemsOf(e.rest) else [ValueOf(e.node)]
  }

  function MembersOf(m: Members): seq<(Bytes, Value)> {
    var first := (m.name, ValueOf(m.node));
    if m.MoreMembers? then [first] + MembersOf(m.rest) else [first]
  }

  /** Section 2 of RFC 8259: `text` is a JSON text denoting `v`. */
  ghost predicate Denotes(text: Bytes, v: Value) {
    exists n, trail :: WellFormed(n) && AllWs(trail) && text == PrintNode(n, trail) && ValueOf(n) == v
  }

  // ----- The parser -----

  function SkipWs(s: Bytes): (r: Bytes)
    ensures |r| <= |s|
    ensures r == [] || !IsWs(r[0])
  {
    if s == [] || !IsWs(s[0]) then s else SkipWs(s[1..])
  }

  function Expect(s: Bytes, b: Byte): (r: Option<Bytes>)
    ensures r.Some? ==> |r.value| < |s|
  {
    var t := SkipWs(s);
    if t != [] && t[0] == b then Some(t[1..]) else None
  }

  function ParseValue(s: Bytes): (r: Option<(Value, Bytes)>)
    ensures r.Some? ==> |r.value.1| < |s|
    decreases |s|, 0
  {
    var t := SkipWs(s);
    if t == [] then None
    else if t[0] == LBRACKET then
      match Expect(t[1..], RBRACKET)
      case Some(k) => Some((Value.Array([]), k))
      case None =>
        match ParseElems(t[1..])
        case None => None
        case Some((vs, k)) => Some((Value.Array(vs), k))
    else if t[0] == LBRACE then
      match Expect(t[1..], RBRACE)
      case Some(k) => Some((Value.Object([]), k))
      case None =>
        match ParseMembers(t[1..])
        case None => None
        case Some((ms, k)) => Some((Value.Object(ms), k))
    else
      match ScanScalar(t)
      case None => None
      case Some(k) => Some((Scalar(t[..|t| - |k|]), k))
  }

  /** `value *( "," value ) "]"` */
  function ParseElems(s: Bytes): (r: Option<(seq<Value>, Bytes)>)
    ensures r.Some? ==> |r.value.1| < |s|
    decreases |s|, 1
  {
    match ParseValue(s)
    case None => None
    case Some((v, k)) =>
      match Expect(k, COMMA)
      case Some(k1) =>
        (match ParseElems(k1)
         case None => None
         case Some((vs, k2)) => Some(([v] + vs, k2)))
      case None =>
        match Expect(k, RBRACKET)
        case None => None
        case Some(k1) => Some(([v], k1))
  }

  /** A name and its colon. */
  function ParseName(s: Bytes): (r: Option<(Bytes, Bytes)>)
    ensures r.Some? ==> |r.value.1| < |s|
  {
    var t := SkipWs(s);
    if t == [] || t[0] != QUOTE then None
    else
      match ScanScalar(t)
      case None => None
      case Some(k) =>
        match Expect(k, COLON)
        case None => None
        case Some(k1) => Some((t[..|t| - |k|], k1))
  }

  /** `string ":" value *( "," string ":" value ) "}"` */
  function ParseMembers(s: Bytes): (r: Option<(seq<(Bytes, Value)>, Bytes)>)
    ensures r.Some? ==> |r.value.1| < |s|
    decreases |s|, 1
  {
    match ParseName(s)
    case None => None
    case Some((name, k0)) =>
      match ParseValue(k0)
      case None => None
      case Some((v, k)) =>
        match Expect(k, COMMA)
        case Some(k1) =>
          (match ParseMembers(k1)
           case None => None
           case Some((ms, k2)) => Some(([(name, v)] + ms, k2)))
        case None =>
          match Expect(k, RBRACE)
          case None => None
          case Some(k1) => Some(([(name, v)], k1))
  }

  /** The value of a whole text, if the text is valid. */
  function ParseText(s: Bytes): Option<Value> {
    match ParseValue(s)
    case None => None
    case Some((v, k)) => if SkipWs(k) == [] then Some(v) else None
  }

  // ----- Completeness: every printed tree is parsed to its value -----

  lemma {:induction false} SkipWsExact(ws: Bytes, k: Bytes)
    requires AllWs(ws)
    requires k == [] || !IsWs(k[0])
    ensures SkipWs(ws + k) == k
  {
    if ws == [] {
      assert ws + k == k;
    } else {
      assert (ws + k)[1..] == ws[1..] + k;
      SkipWsExact(ws[1..], k);
    }
  }

  lemma ExpectExact(ws: Bytes, b: Byte, k: Bytes)
    requires AllWs(ws) && !IsWs(b)
    ensures Expect(ws + ([b] + k), b) == Some(k)
    ensures forall c :: c != b ==> Expect(ws + ([b] + k), c) == None
    ensures b in {COMMA, RBRACKET, RBRACE} ==> Delimited(ws + ([b] + k))
  {
    SkipWsExact(ws, [b] + k);
    assert ([b] + k)[1..] == k;
  }

  /** A node starts with whitespace and then a byte that closes nothing. */
  lemma NodeStart(n: Node, k: Bytes)
    requires WellFormed(n) && Delimited(k)
    ensures SkipWs(PrintNode(n, k)) == PrintNode(n, k)[|n.lead|..]
    ensures SkipWs(PrintNode(n, k)) != [] && SkipWs(PrintNode(n, k))[0] !in {RBRACKET, RBRACE}
  {
    var body := PrintNode(n, k)[|n.lead|..];
    assert PrintNode(n, k) == n.lead + body;
    if n.Atom? {
      ScanScalarComplete(n.spelling, k);
    }
    SkipWsExact(n.lead, body);
  }

  lemma {:induction false} ParseNode(n: Node, k: Bytes)
    requires WellFormed(n) && Delimited(k)
    ensures ParseValue(PrintNode(n, k)) == Some((ValueOf(n), k))
    decreases n
  {
    var s := PrintNode(n, k);
    NodeStart(n, k);
    match n {
      case Atom(lead, t) =>
        assert s[|lead|..] == t + k;
        ScanScalarComplete(t, k);
        assert (t + k)[..|t|] == t;
      case EmptyArray(lead, close) =>
        assert s[|lead|..][1..] == close + ([RBRACKET] + k);
        ExpectExact(close, RBRACKET, k);
      case Array(lead, elems, close) =>
        var k' := close + ([RBRACKET] + k);
        assert s[|lead|..][1..] == PrintElems(elems, k');
        ParseElemsText(elems, close, k);
      case EmptyObject(lead, close) =>
        assert s[|lead|..][1..] == close + ([RBRACE] + k);
        ExpectExact(close, RBRACE, k);
      case Object(lead, members, close) =>
        var k' := close + ([RBRACE] + k);
        assert s[|lead|..][1..] == PrintMembers(members, k');
        ParseMembersText(members, close, k);
    }
  }

  lemma {:induction false} ParseElemsText(e: Elems, close: Bytes, k: Bytes)
    requires WellFormedElems(e) && AllWs(close)
    ensures ParseElems(PrintElems(e, close + ([RBRACKET] + k))) == Some((ElemsOf(e), k))
    ensures Expect(PrintElems(e, close + ([RBRACKET] + k)), RBRACKET) == None
    decreases e
  {
    var k' := close + ([RBRACKET] + k);
    ExpectExact(close, RBRACKET, k);
    match e {
      case LastElem(n) =>
        ParseNode(n, k');
        NodeStart(n, k');
      case MoreElems(n, comma, rest) =>
        var k1 := PrintElems(rest, k');
        ExpectExact(comma, COMMA, k1);
        ParseNode(n, comma + ([COMMA] + k1));
        NodeStart(n, comma + ([COMMA] + k1));
        ParseElemsText(rest, close, k);
    }
  }

  lemma ParseNameText(lead: Bytes, name: Bytes, colon: Bytes, k: Bytes)
    requires AllWs(lead) && IsString(name) && AllWs(colon)
    ensures ParseName(lead + (name + (colon + ([COLON] + k)))) == Some((name, k))
    ensures Expect(lead + (name + (colon + ([COLON] + k))), RBRACE) == None
  {
    var after := colon + ([COLON] + k);
    StringScanned(name, after);
    SkipWsExact(lead, name + after);
    ExpectExact(colon, COLON, k);
    assert (name + after)[..|name|] == name;
  }

  lemma {:induction false} ParseMembersText(m: Members, close: Bytes, k: Bytes)
    requires WellFormedMembers(m) && AllWs(close)
    ensures ParseMembers(PrintMembers(m, close + ([RBRACE] + k))) == Some((MembersOf(m), k))
    ensures Expect(PrintMembers(m, close + ([RBRACE] + k)), RBRACE) == None
    decreases m
  {
    var k' := close + ([RBRACE] + k);
    ExpectExact(close, RBRACE, k);
    match m {
      case LastMember(lead, name, colon, n) =>
        ParseNameText(lead, name, colon, PrintNode(n, k'));
        ParseNode(n, k');
      case MoreMembers(lead, name, colon, n, comma, rest) =>
        var k1 := PrintMembers(rest, k');
        ExpectExact(comma, COMMA, k1);
        ParseNameText(lead, name, colon, PrintNode(n, comma + ([COMMA] + k1)));
        ParseNode(n, comma + ([COMMA] + k1));
        ParseMembersText(rest, close, k);
    }
  }

  /** Every JSON text is accepted, with the value the grammar gives it; so that value is unique. */
  lemma ParseComplete(text: Bytes, v: Value)
    requires Denotes(text, v)
    ensures ParseText(text) == Some(v)
  {
    var n, trail :| WellFormed(n) && AllWs(trail) && text == PrintNode(n, trail) && ValueOf(n) == v;
    ParseNode(n, trail);
    SkipWsExact(trail, []);
    assert trail + [] == trail;
  }

  // ----- Soundness: whatever is parsed is the text of a tree -----

  lemma {:induction false} SkipWsSplit(s: Bytes) returns (lead: Bytes)
    ensures AllWs(lead) && s == lead + SkipWs(s)
  {
    if s == [] || !IsWs(s[0]) {
      lead := [];
    } else {
      var rest := SkipWsSplit(s[1..]);
      lead := [s[0]] + rest;
    }
  }

  lemma ExpectSplit(s: Bytes, b: Byte) returns (lead: Bytes)
    requires Expect(s, b).Some?
    ensures AllWs(lead) && s == lead + ([b] + Expect(s, b).value)
  {
    lead := SkipWsSplit(s);
    assert SkipWs(s) == [b] + Expect(s, b).value;
  }

  lemma EmptyArrayFound(s: Bytes, lead: Bytes, t: Bytes, k: Bytes) returns (n: Node)
    requires AllWs(lead) && s == lead + t && t != [] && t[0] == LBRACKET && Expect(t[1..], RBRACKET) == Some(k)
    ensures WellFormed(n) && ValueOf(n) == Value.Array([]) && PrintNode(n, k) == s
  {
    var close := ExpectSplit(t[1..], RBRACKET);
    n := EmptyArray(lead, close);
    assert t == [LBRACKET] + t[1..];
  }

  lemma EmptyObjectFound(s: Bytes, lead: Bytes, t: Bytes, k: Bytes) returns (n: Node)
    requires AllWs(lead) && s == lead + t && t != [] && t[0] == LBRACE && Expect(t[1..], RBRACE) == Some(k)
    ensures WellFormed(n) && ValueOf(n) == Value.Object([]) && PrintNode(n, k) == s
  {
    var close := ExpectSplit(t[1..], RBRACE);
    n := EmptyObject(lead, close);
    assert t == [LBRACE] + t[1..];
  }

  lemma AtomFound(s: Bytes, lead: Bytes, t: Bytes, k: Bytes) returns (n: Node)
    requires AllWs(lead) && s == lead + t && ScanScalar(t) == Some(k)
    ensures WellFormed(n) && ValueOf(n) == Scalar(t[..|t| - |k|]) && PrintNode(n, k) == s
  {
    var spelling := ScanScalarSound(t);
    assert t[..|t| - |k|] == spelling;
    n := Atom(lead, spelling);
  }

  lemma ArrayFound(s: Bytes, lead: Bytes, t: Bytes, elems: Elems, close: Bytes, k: Bytes) returns (n: Node)
    requires AllWs(lead) && s == lead + t && t != [] && t[0] == LBRACKET
    requires WellFormedElems(elems) && AllWs(close) && PrintElems(elems, close + ([RBRACKET] + k)) == t[1..]
    ensures WellFormed(n) && ValueOf(n) == Value.Array(ElemsOf(elems)) && PrintNode(n, k) == s
  {
    n := Node.Array(lead, elems, close);
    assert t == [LBRACKET] + t[1..];
  }

  lemma ObjectFound(s: Bytes, lead: Bytes, t: Bytes, members: Members, close: Bytes, k: Bytes) returns (n: Node)
    requires AllWs(lead) && s == lead + t && t != [] && t[0] == LBRACE
    requires WellFormedMembers(members) && AllWs(close) && PrintMembers(members, close + ([RBRACE] + k)) == t[1..]
    ensures WellFormed(n) && ValueOf(n) == Value.Object(MembersOf(members)) && PrintNode(n, k) == s
  {
    n := Node.Object(lead, members, close);
    assert t == [LBRACE] + t[1..];
  }

  lemma {:induction false} ValueSound(s: Bytes, v: Value, k: Bytes) returns (n: Node)
    requires ParseValue(s) == Some((v, k))
    ensures WellFormed(n) && ValueOf(n) == v && PrintNode(n, k) == s
    decreases |s|, 0
  {
    var lead := SkipWsSplit(s);
    var t := SkipWs(s);
    if t[0] == LBRACKET {
      if Expect(t[1..], RBRACKET).Some? {
        n := EmptyArrayFound(s, lead, t, k);
      } else {
        var elems, close := ElemsSound(t[1..], v.elems, k);
        n := ArrayFound(s, lead, t, elems, close, k);
      }
    } else if t[0] == LBRACE {
      if Expect(t[1..], RBRACE).Some? {
        n := EmptyObjectFound(s, lead, t, k);
      } else {
        var members, close := MembersSound(t[1..], v.members, k);
        n := ObjectFound(s, lead, t, members, close, k);
      }
    } else {
      n := AtomFound(s, lead, t, k);
    }
  }

  lemma {:induction false} ElemsSound(s: Bytes, vs: seq<Value>, k: Bytes) returns (e: Elems, close: Bytes)
    requires ParseElems(s) == Some((vs, k))
    ensures WellFormedElems(e) && AllWs(close)
    ensures ElemsOf(e) == vs && PrintElems(e, close + ([RBRACKET] + k)) == s
    decreases |s|, 1
  {
    var (v, k0) := ParseValue(s).value;
    var n := ValueSound(s, v, k0);
    if Expect(k0, COMMA).Some? {
      var comma := ExpectSplit(k0, COMMA);
      var rest;
      rest, close := ElemsSound(Expect(k0, COMMA).value, vs[1..], k);
      e := MoreElems(n, comma, rest);
    } else {
      close := ExpectSplit(k0, RBRACKET);
      e := LastElem(n);
    }
  }

  lemma NameSound(s: Bytes, name: Bytes, k: Bytes) returns (lead: Bytes, colon: Bytes)
    requires ParseName(s) == Some((name, k))
    ensures AllWs(lead) && IsString(name) && AllWs(colon)
    ensures s == lead + (name + (colon + ([COLON] + k)))
  {
    lead := SkipWsSplit(s);
    var t := SkipWs(s);
    var spelling := ScanScalarSound(t);
    assert spelling == name;
    colon := ExpectSplit(ScanScalar(t).value, COLON);
  }

  lemma {:induction false} MembersSound(s: Bytes, ms: seq<(Bytes, Value)>, k: Bytes) returns (m: Members, close: Bytes)
    requires ParseMembers(s) == Some((ms, k))
    ensures WellFormedMembers(m) && AllWs(close)
    ensures MembersOf(m) == ms && PrintMembers(m, close + ([RBRACE] + k)) == s
    decreases |s|, 1
  {
    var (name, k0) := ParseName(s).value;
    var lead, colon := NameSound(s, name, k0);
    var (v, k1) := ParseValue(k0).value;
    var n := ValueSound(k0, v, k1);
    if Expect(k1, COMMA).Some? {
      var comma := ExpectSplit(k1, COMMA);
      var rest;
      rest, close := MembersSound(Expect(k1, COMMA).value, ms[1..], k);
      m := MoreMembers(lead, name, colon, n, comma, rest);
    } else {
      close := ExpectSplit(k1, RBRACE);
      m := LastMember(lead, name, colon, n);
    }
  }

  /** Only JSON texts are accepted. */
  lemma ParseSound(text: Bytes, v: Value)
    requires ParseText(text) == Some(v)
    ensures Denotes(text, v)
  {
    var trail := ParseValue(text).value.1;
    var n := ValueSound(text, v, trail);
    var ws := SkipWsSplit(trail);
    assert ws == trail;
  }
}
