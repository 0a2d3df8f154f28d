/**
 `maybe_compress_json_whitespace`: an early scan for removable whitespace, a validity gate, and an
 in-place compaction of the byte buffer.
 */
module JsonCompactor {
  import opened Bytes
  import opened JsonGrammar
  import Utf8

  // ----- Specification: drop the whitespace outside strings -----

  datatype Mode = Outside | Inside | Escaped

  function Next(m: Mode, b: Byte): Mode {
    match m
    case Outside => if b == QUOTE then Inside else Outside
    case Inside => if b == BACKSLASH then Escaped else if b == QUOTE then Outside else Inside
    case Escaped => Inside
  }

  predicate Removable(m: Mode, b: Byte) {
    m == Outside && IsWs(b)
  }

  function Filter(m: Mode, s: Bytes): (r: Bytes)
    ensures |r| <= |s|
    decreases |s|
  {
    if s == [] then []
    else if Removable(m, s[0]) then Filter(m, s[1..])
    else [s[0]] + Filter(Next(m, s[0]), s[1..])
  }

  /** What the whole function returns. */
  function Compressed(body: Bytes, enabled: bool): Bytes {
    if enabled && ParseText(body).Some? then Filter(Outside, body) else body
  }

  lemma KeptByte(m: Mode, s: Bytes, i: nat, front: Bytes)
    requires i < |s| && !Removable(m, s[i])
    ensures front + Filter(m, s[i..]) == (front + [s[i]]) + Filter(Next(m, s[i]), s[i + 1..])
  {
    assert s[i..][1..] == s[i + 1..];
  }

  lemma DroppedByte(m: Mode, s: Bytes, i: nat)
    requires i < |s| && Removable(m, s[i])
    ensures Filter(m, s[i..]) == Filter(m, s[i + 1..])
  {
    assert s[i..][1..] == s[i + 1..];
  }

  // ----- The code -----

  /** The early scan reports removable whitespace exactly when the filter changes the text. */
  method HasRemovableWhitespace(body: Bytes) returns (found: bool)
    ensures found <==> Filter(Outside, body) != body
  {
    var inString, escaped := false, false;
    var i := 0;
    while i < |body|
      invariant 0 <= i <= |body|
      invariant escaped ==> inString
      invariant Filter(Outside, body) == body[..i] + Filter(ModeOf(inString, escaped), body[i..])
    {
      var b := body[i];
      ghost var m := ModeOf(inString, escaped);
      if Removable(m, b) {
        DroppedByte(m, body, i);
      } else {
        KeptByte(m, body, i, body[..i]);
      }
      assert body[..i + 1] == body[..i] + [b];
      if inString {
        if escaped {
          escaped := false;
        } else if b == BACKSLASH {
          escaped := true;
        } else if b == QUOTE {
          inString := false;
        }
      } else if b == QUOTE {
        inString := true;
      } else if IsWs(b) {
        assert |Filter(Outside, body)| < |body|;
        return true;
      }
      i := i + 1;
    }
    assert body[..i] == body;
    found := false;
  }

  function ModeOf(inString: bool, escaped: bool): Mode {
    if escaped then Escaped else if inString then Inside else Outside
  }

  /** The two-index rewrite of the buffer; its first `n` bytes are the result. */
  method CompactInPlace(a: array<Byte>) returns (n: nat)
    modifies a
    ensures n <= a.Length
    ensures a[..n] == Filter(Outside, old(a[..]))
  {
    ghost var s := a[..];
    var inString, escaped := false, false;
    n := 0;
    for i := 0 to a.Length
      invariant n <= i
      invariant escaped ==> inString
      invariant a[i..] == s[i..]
      invariant Filter(Outside, s) == a[..n] + Filter(ModeOf(inString, escaped), s[i..])
    {
      var b := a[i];
      assert b == a[i..][0] == s[i];
      assert s[i + 1..] == s[i..][1..] == a[i + 1..];
      ghost var m := ModeOf(inString, escaped);
      if Removable(m, b) {
        DroppedByte(m, s, i);
      } else {
        KeptByte(m, s, i, a[..n]);
      }
      var keep := true;
      if inString {
        if escaped {
          escaped := false;
        } else if b == BACKSLASH {
          escaped := true;
        } else if b == QUOTE {
          inString := false;
        }
      } else if b == QUOTE {
        inString := true;
      } else if IsWs(b) {
        keep := false;
      }
      if keep {
        ghost var front := a[..n];
        a[n] := b;
        assert a[..n + 1] == front + [b];
        n := n + 1;
      }
    }
  }

  /**
   The whole function.  Switched off, or given no JSON text, it returns the body; otherwise it returns a text
   of the same value that no text of that value is shorter than.
   */
  method MaybeCompressJsonWhitespace(body: Bytes, enabled: bool) returns (r: Bytes)
    ensures r == Compressed(body, enabled)
    ensures !enabled ==> r == body
    ensures (forall v :: !Denotes(body, v)) ==> r == body
    ensures forall v :: enabled && Denotes(body, v) ==> ShortestText(r, v)
    ensures Utf8.Valid(body) ==> Utf8.Valid(r)
  {
    CompressedMeans(body, enabled);
    if Utf8.Valid(body) {
      FilterKeepsUtf8(Outside, body);
    }
    if !enabled {
      return body;
    }
    var found := HasRemovableWhitespace(body);
    if !found {
      return body;
    }
    if ParseText(body) == None {
      return body;
    }
    var compacted := new Byte[|body|](i requires 0 <= i < |body| => body[i]);
    assert compacted[..] == body;
    var n := CompactInPlace(compacted);
    r := compacted[..n];
  }

  // ----- Meaning -----

  /** The tree without its whitespace. */
  function Strip(n: Node): Node {
    match n
    case Atom(_, t) => Atom([], t)
    case EmptyArray(_, _) => EmptyArray([], [])
    case Array(_, elems, _) => Node.Array([], StripElems(elems), [])
    case EmptyObject(_, _) => EmptyObject([], [])
    case Object(_, members, _) => Node.Object([], StripMembers(members), [])
  }

  function StripElems(e: Elems): Elems {
    match e
    case LastElem(n) => LastElem(Strip(n))
    case MoreElems(n, _, rest) => MoreElems(Strip(n), [], StripElems(rest))
  }

  function StripMembers(m: Members): Members {
    match m
    case LastMember(_, name, _, n) => LastMember([], name, [], Strip(n))
    case MoreMembers(_, name, _, n, _, rest) => MoreMembers([], name, [], Strip(n), [], StripMembers(rest))
  }

  lemma {:induction false} FilterWs(ws: Bytes, k: Bytes)
    requires AllWs(ws)
    ensures Filter(Outside, ws + k) == Filter(Outside, k)
  {
    if ws == [] {
      assert ws + k == k;
    } else {
      assert (ws + k)[1..] == ws[1..] + k;
      FilterWs(ws[1..], k);
    }
  }

  /** Neither whitespace nor a quote. */
  predicate Inert(s: Bytes) {
    forall i :: 0 <= i < |s| ==> !IsWs(s[i]) && s[i] != QUOTE
  }

  lemma {:induction false} FilterInert(s: Bytes, k: Bytes)
    requires Inert(s)
    ensures Filter(Outside, s + k) == s + Filter(Outside, k)
  {
    if s == [] {
      assert s + k == k;
    } else {
      assert (s + k)[1..] == s[1..] + k;
      FilterInert(s[1..], k);
      assert [s[0]] + (s[1..] + Filter(Outside, k)) == s + Filter(Outside, k);
    }
  }

  lemma FilterByte(b: Byte, k: Bytes)
    requires !IsWs(b) && b != QUOTE
    ensures Filter(Outside, [b] + k) == [b] + Filter(Outside, k)
  {
    FilterInert([b], k);
  }

  lemma {:induction false} FilterInside(s: Bytes, k: Bytes)
    requires forall i :: 0 <= i < |s| ==> s[i] != QUOTE && s[i] != BACKSLASH
    ensures Filter(Inside, s + k) == s + Filter(Inside, k)
  {
    if s == [] {
      assert s + k == k;
    } else {
      assert (s + k)[1..] == s[1..] + k;
      FilterInside(s[1..], k);
      assert [s[0]] + (s[1..] + Filter(Inside, k)) == s + Filter(Inside, k);
    }
  }

  lemma {:induction false} FilterEscape(b: Byte, k: Bytes)
    ensures Filter(Inside, [BACKSLASH, b] + k) == [BACKSLASH, b] + Filter(Inside, k)
  {
    assert ([BACKSLASH, b] + k)[1..] == [b] + k;
    assert ([b] + k)[1..] == k;
  }

  lemma {:induction false} FilterChar(c: Char, k: Bytes)
    requires WellFormedChar(c)
    ensures Filter(Inside, PrintChar(c, k)) == PrintChar(c, Filter(Inside, k))
  {
    match c {
      case Plain(b) =>
        FilterInside([b], k);
      case Escape(b) =>
        FilterEscape(b, k);
      case Unicode(hex) =>
        FilterEscape(0x75, hex + k);
        FilterInside(hex, k);
    }
  }

  lemma {:induction false} FilterChars(cs: seq<Char>, k: Bytes)
    requires WellFormedChars(cs)
    ensures Filter(Inside, PrintChars(cs, k)) == PrintChars(cs, Filter(Outside, k))
  {
    if cs == [] {
      assert ([QUOTE] + k)[1..] == k;
    } else {
      FilterChars(cs[1..], k);
      FilterChar(cs[0], PrintChars(cs[1..], k));
    }
  }

  lemma FilterString(t: Bytes, k: Bytes)
    requires IsString(t)
    ensures Filter(Outside, t + k) == t + Filter(Outside, k)
  {
    var cs :| WellFormedChars(cs) && t == PrintString(cs, []);
    PrintStringAppend(cs, k);
    PrintStringAppend(cs, Filter(Outside, k));
    assert PrintString(cs, k)[1..] == PrintChars(cs, k);
    FilterChars(cs, k);
  }

  lemma NumberIsInert(n: Number)
    requires WellFormedNumber(n)
    ensures Inert(PrintNumber(n, []))
  {
    assert Inert(PrintExponent(n.exp, []));
    assert Inert(PrintFraction(n.frac, PrintExponent(n.exp, [])));
  }

  lemma FilterScalar(t: Bytes, k: Bytes)
    requires IsScalar(t)
    ensures Filter(Outside, t + k) == t + Filter(Outside, k)
  {
    if IsString(t) {
      FilterString(t, k);
    } else {
      if IsNumber(t) {
        var n :| WellFormedNumber(n) && t == PrintNumber(n, []);
        NumberIsInert(n);
      }
      FilterInert(t, k);
    }
  }

  /** Filtering the text of a tree gives the text of the stripped tree, whatever follows it. */
  lemma {:induction false} FilterNode(n: Node, k: Bytes)
    requires WellFormed(n)
    ensures Filter(Outside, PrintNode(n, k)) == PrintNode(Strip(n), Filter(Outside, k))
    decreases n
  {
    var body := PrintNode(n, k)[|n.lead|..];
    assert PrintNode(n, k) == n.lead + body;
    FilterWs(n.lead, body);
    assert forall s: Bytes :: [] + s == s;
    match n {
      case Atom(_, t) =>
        assert body == t + k;
        FilterScalar(t, k);
      case EmptyArray(_, close) =>
        FilterByte(RBRACKET, k);
        FilterWs(close, [RBRACKET] + k);
        FilterByte(LBRACKET, close + ([RBRACKET] + k));
      case Array(_, elems, close) =>
        FilterByte(RBRACKET, k);
        FilterWs(close, [RBRACKET] + k);
        FilterElems(elems, close + ([RBRACKET] + k));
        FilterByte(LBRACKET, PrintElems(elems, close + ([RBRACKET] + k)));
      case EmptyObject(_, close) =>
        FilterByte(RBRACE, k);
        FilterWs(close, [RBRACE] + k);
        FilterByte(LBRACE, close + ([RBRACE] + k));
      case Object(_, members, close) =>
        FilterByte(RBRACE, k);
        FilterWs(close, [RBRACE] + k);
        FilterMembers(members, close + ([RBRACE] + k));
        FilterByte(LBRACE, PrintMembers(members, close + ([RBRACE] + k)));
    }
  }

  lemma FilterComma(comma: Bytes, k: Bytes)
    requires AllWs(comma)
    ensures Filter(Outside, comma + ([COMMA] + k)) == [] + ([COMMA] + Filter(Outside, k))
  {
    FilterWs(comma, [COMMA] + k);
    FilterByte(COMMA, k);
  }

  lemma {:induction false} FilterElems(e: Elems, k: Bytes)
    requires WellFormedElems(e)
    ensures Filter(Outside, PrintElems(e, k)) == PrintElems(StripElems(e), Filter(Outside, k))
    decreases e
  {
    match e {
      case LastElem(n) =>
        FilterNode(n, k);
      case MoreElems(n, comma, rest) =>
        FilterElems(rest, k);
        FilterComma(comma, PrintElems(rest, k));
        FilterNode(n, comma + ([COMMA] + PrintElems(rest, k)));
    }
  }

  lemma FilterName(lead: Bytes, name: Bytes, colon: Bytes, k: Bytes)
    requires AllWs(lead) && IsString(name) && AllWs(colon)
    ensures Filter(Outside, lead + (name + (colon + ([COLON] + k))))
         == [] + (name + ([] + ([COLON] + Filter(Outside, k))))
  {
    FilterByte(COLON, k);
    FilterWs(colon, [COLON] + k);
    FilterString(name, colon + ([COLON] + k));
    FilterWs(lead, name + (colon + ([COLON] + k)));
    assert [] + ([COLON] + Filter(Outside, k)) == [COLON] + Filter(Outside, k);
  }

  lemma {:induction false} FilterMembers(m: Members, k: Bytes)
    requires WellFormedMembers(m)
    ensures Filter(Outside, PrintMembers(m, k)) == PrintMembers(StripMembers(m), Filter(Outside, k))
    decreases m
  {
    match m {
      case LastMember(lead, name, colon, n) =>
        FilterNode(n, k);
        FilterName(lead, name, colon, PrintNode(n, k));
      case MoreMembers(lead, name, colon, n, comma, rest) =>
        var tail := comma + ([COMMA] + PrintMembers(rest, k));
        FilterMembers(rest, k);
        FilterComma(comma, PrintMembers(rest, k));
        FilterNode(n, tail);
        FilterName(lead, name, colon, PrintNode(n, tail));
    }
  }

  lemma {:induction false} StripKeeps(n: Node)
    requires WellFormed(n)
    ensures WellFormed(Strip(n)) && ValueOf(Strip(n)) == ValueOf(n)
    decreases n
  {
    match n {
      case Atom(_, _) =>
      case EmptyArray(_, _) =>
      case Array(_, elems, _) => StripKeepsElems(elems);
      case EmptyObject(_, _) =>
      case Object(_, members, _) => StripKeepsMembers(members);
    }
  }

  lemma {:induction false} StripKeepsElems(e: Elems)
    requires WellFormedElems(e)
    ensures WellFormedElems(StripElems(e)) && ElemsOf(StripElems(e)) == ElemsOf(e)
    decreases e
  {
    StripKeeps(e.node);
    if e.MoreElems? {
      StripKeepsElems(e.rest);
    }
  }

  lemma {:induction false} StripKeepsMembers(m: Members)
    requires WellFormedMembers(m)
    ensures WellFormedMembers(StripMembers(m)) && MembersOf(StripMembers(m)) == MembersOf(m)
    decreases m
  {
    StripKeeps(m.node);
    if m.MoreMembers? {
      StripKeepsMembers(m.rest);
    }
  }

  /**
   Compaction keeps the meaning: the filtered text is a JSON text denoting the same value, so no two
   tokens are glued together, and names, order, duplicates and spellings stay.
   */
  lemma FilterPreservesMeaning(body: Bytes, v: Value)
    requires Denotes(body, v)
    ensures Denotes(Filter(Outside, body), v)
    ensures ParseText(Filter(Outside, body)) == Some(v)
  {
    var n, trail :| WellFormed(n) && AllWs(trail) && body == PrintNode(n, trail) && ValueOf(n) == v;
    FilterNode(n, trail);
    FilterWs(trail, []);
    assert trail + [] == trail;
    StripKeeps(n);
    ParseComplete(Filter(Outside, body), v);
  }

  /** For every input the value the body parses to, or its being invalid, is unchanged. */
  lemma CompressedPreservesParse(body: Bytes, enabled: bool)
    ensures ParseText(Compressed(body, enabled)) == ParseText(body)
  {
    if enabled && ParseText(body).Some? {
      ParseSound(body, ParseText(body).value);
      FilterPreservesMeaning(body, ParseText(body).value);
    }
  }

  /** A text of `v`, and none is shorter. */
  ghost predicate ShortestText(r: Bytes, v: Value) {
    Denotes(r, v) && forall b :: Denotes(b, v) ==> |r| <= |b|
  }

  lemma CompressedMeans(body: Bytes, enabled: bool)
    ensures !enabled ==> Compressed(body, enabled) == body
    ensures (forall v :: !Denotes(body, v)) ==> Compressed(body, enabled) == body
    ensures forall v :: enabled && Denotes(body, v) ==> ShortestText(Compressed(body, enabled), v)
  {
    if ParseText(body).Some? {
      ParseSound(body, ParseText(body).value);
    }
    forall v | enabled && Denotes(body, v) ensures ShortestText(Compressed(body, enabled), v) {
      ParseComplete(body, v);
      FilterIsShortest(body, v);
    }
  }

  lemma FilterIsShortest(body: Bytes, v: Value)
    requires Denotes(body, v)
    ensures ShortestText(Filter(Outside, body), v)
  {
    FilterPreservesMeaning(body, v);
    forall b | Denotes(b, v) ensures |Filter(Outside, body)| <= |b| {
      CompactionIsCanonical(body, b, v);
    }
  }

  lemma {:induction false} FilterIdempotent(m: Mode, s: Bytes)
    ensures Filter(m, Filter(m, s)) == Filter(m, s)
    decreases |s|
  {
    if s != [] {
      if Removable(m, s[0]) {
        FilterIdempotent(m, s[1..]);
      } else {
        var rest := Filter(Next(m, s[0]), s[1..]);
        assert ([s[0]] + rest)[1..] == rest;
        FilterIdempotent(Next(m, s[0]), s[1..]);
      }
    }
  }

  lemma CompressedIdempotent(body: Bytes, enabled: bool)
    ensures Compressed(Compressed(body, enabled), enabled) == Compressed(body, enabled)
  {
    CompressedPreservesParse(body, enabled);
    FilterIdempotent(Outside, body);
  }

  lemma {:induction false} StripCanonical(a: Node, b: Node)
    requires ValueOf(a) == ValueOf(b)
    ensures Strip(a) == Strip(b)
    decreases a
  {
    match a {
      case Atom(_, _) =>
      case EmptyArray(_, _) => assert b.EmptyArray?;
      case Array(_, elems, _) => StripCanonicalElems(elems, b.elems);
      case EmptyObject(_, _) => assert b.EmptyObject?;
      case Object(_, members, _) => StripCanonicalMembers(members, b.members);
    }
  }

  lemma {:induction false} StripCanonicalElems(a: Elems, b: Elems)
    requires ElemsOf(a) == ElemsOf(b)
    ensures StripElems(a) == StripElems(b)
    decreases a
  {
    assert ElemsOf(a)[0] == ElemsOf(b)[0];
    StripCanonical(a.node, b.node);
    if a.MoreElems? {
      assert ElemsOf(a)[1..] == ElemsOf(a.rest);
      if b.MoreElems? {
        assert ElemsOf(b)[1..] == ElemsOf(b.rest);
      }
      StripCanonicalElems(a.rest, b.rest);
    }
  }

  lemma {:induction false} StripCanonicalMembers(a: Members, b: Members)
    requires MembersOf(a) == MembersOf(b)
    ensures StripMembers(a) == StripMembers(b)
    decreases a
  {
    assert MembersOf(a)[0] == MembersOf(b)[0];
    StripCanonical(a.node, b.node);
    if a.MoreMembers? {
      assert MembersOf(a)[1..] == MembersOf(a.rest);
      if b.MoreMembers? {
        assert MembersOf(b)[1..] == MembersOf(b.rest);
      }
      StripCanonicalMembers(a.rest, b.rest);
    }
  }

  lemma CompactedText(a: Bytes, v: Value) returns (n: Node)
    requires Denotes(a, v)
    ensures ValueOf(n) == v && Filter(Outside, a) == PrintNode(Strip(n), [])
  {
    var na, ta :| WellFormed(na) && AllWs(ta) && a == PrintNode(na, ta) && ValueOf(na) == v;
    FilterNode(na, ta);
    FilterWs(ta, []);
    assert ta + [] == ta;
    n := na;
  }

  /** All texts of one value compact to one text, and no text of that value is shorter. */
  lemma CompactionIsCanonical(a: Bytes, b: Bytes, v: Value)
    requires Denotes(a, v) && Denotes(b, v)
    ensures Filter(Outside, a) == Filter(Outside, b)
    ensures |Filter(Outside, a)| <= |b|
  {
    var na := CompactedText(a, v);
    var nb := CompactedText(b, v);
    StripCanonical(na, nb);
  }

  /** Without the gate the filter would turn the invalid text `1 2` into the valid text `12`. */
  lemma GateIsNeeded()
    ensures var s: Bytes := [0x31, 0x20, 0x32];
            ParseText(s) == None && ParseText(Filter(Outside, s)).Some? && Filter(Outside, s) != s
  {
    var s: Bytes := [0x31, 0x20, 0x32];
    var t: Bytes := [0x31, 0x32];
    assert s[1..] == [0x20, 0x32] && s[1..][1..] == [0x32];
    assert DigitsLen([0x20, 0x32]) == 0;
    assert ScanNumber(s) == Some([0x20, 0x32]);
    assert Filter(Outside, [0x32]) == [0x32];
    assert Filter(Outside, [0x20, 0x32]) == [0x32];
    assert Filter(Outside, s) == t;
    assert t[1..] == [0x32];
    assert DigitsLen([0x32]) == 1;
    assert DigitsLen(t) == 2;
  }

  // ----- UTF-8 -----

  function ModeAfterHigh(m: Mode): Mode {
    if m == Escaped then Inside else m
  }

  lemma {:induction false} FilterHigh(m: Mode, h: Bytes, k: Bytes)
    requires h != []
    requires forall i :: 0 <= i < |h| ==> h[i] >= 0x80
    ensures Filter(m, h + k) == h + Filter(ModeAfterHigh(m), k)
    decreases |h|
  {
    var m1 := ModeAfterHigh(m);
    assert (h + k)[1..] == h[1..] + k;
    assert Next(m, h[0]) == m1;
    if |h| == 1 {
      assert h[1..] + k == k;
    } else {
      FilterHigh(m1, h[1..], k);
      assert [h[0]] + (h[1..] + Filter(m1, k)) == h + Filter(m1, k);
    }
  }

  /** A character followed by other text is still that character. */
  lemma CharThen(s: Bytes, n: nat, rest: Bytes)
    requires n == Utf8.CharLen(s) && n > 0 && Utf8.Valid(rest)
    ensures Utf8.Valid(s[..n] + rest)
  {
    var t := s[..n] + rest;
    assert Utf8.CharLen(t) == n;
    assert t[n..] == rest;
  }

  lemma HighChar(s: Bytes, n: nat)
    requires n == Utf8.CharLen(s) && n > 1
    ensures forall i :: 0 <= i < n ==> s[i] >= 0x80
  {
  }

  /** Dropping the whitespace leaves valid UTF-8, so rebuilding the string never fails. */
  lemma {:induction false} FilterKeepsUtf8(m: Mode, s: Bytes)
    requires Utf8.Valid(s)
    ensures Utf8.Valid(Filter(m, s))
    decreases |s|
  {
    if s != [] {
      var n := Utf8.CharLen(s);
      assert s == s[..n] + s[n..];
      if n == 1 {
        var m1 := if Removable(m, s[0]) then m else Next(m, s[0]);
        FilterKeepsUtf8(m1, s[1..]);
        CharThen(s, 1, Filter(m1, s[1..]));
      } else {
        HighChar(s, n);
        FilterHigh(m, s[..n], s[n..]);
        FilterKeepsUtf8(ModeAfterHigh(m), s[n..]);
        CharThen(s, n, Filter(ModeAfterHigh(m), s[n..]));
      }
    }
  }
}
