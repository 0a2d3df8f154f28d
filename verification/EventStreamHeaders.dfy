/**
 Event-stream headers: a name, a type byte and a value of one of ten types, in the layout of the
 Amazon Event Stream encoding.  Two parsers read them: the lenient one of the traffic decoder stops at
 the first header it cannot read; the strict one of the response decoder reports it as an error.
 */
module EventStreamHeaders {
  import opened Bytes

  datatype HeaderValue =
    | Bool(flag: bool)
    | Byte(v: int)
    | Short(v: int)
    | Integer(v: int)
    | Long(v: int)
    | ByteArray(raw: Bytes)
    | String(raw: Bytes)
    | Timestamp(v: int)
    | Uuid(raw: Bytes)

  datatype Header = Header(name: Bytes, value: HeaderValue)

  datatype HeaderError = EmptyName | Truncated | UnknownType

  // ----- The format -----

  predicate WellFormedValue(value: HeaderValue) {
    match value
    case Bool(_) => true
    case Byte(v) => FitsSigned(v, 1)
    case Short(v) => FitsSigned(v, 2)
    case Integer(v) => FitsSigned(v, 4)
    case Long(v) => FitsSigned(v, 8)
    case ByteArray(raw) => |raw| < Pow256(2)
    case String(raw) => |raw| < Pow256(2)
    case Timestamp(v) => FitsSigned(v, 8)
    case Uuid(raw) => |raw| == 16
  }

  predicate WellFormed(h: Header) {
    0 < |h.name| < 256 && WellFormedValue(h.value)
  }

  function TypeByte(value: HeaderValue): Byte {
    match value
    case Bool(flag) => if flag then 0 else 1
    case Byte(_) => 2
    case Short(_) => 3
    case Integer(_) => 4
    case Long(_) => 5
    case ByteArray(_) => 6
    case String(_) => 7
    case Timestamp(_) => 8
    case Uuid(_) => 9
  }

  function EncodeSigned(v: int, n: nat): Bytes
    requires FitsSigned(v, n)
  {
    ToBe(Unsigned(v, n), n)
  }

  /** The bytes of a value, followed by `k`. */
  function EncodeValue(value: HeaderValue, k: Bytes): Bytes
    requires WellFormedValue(value)
  {
    match value
    case Bool(_) => k
    case Byte(v) => EncodeSigned(v, 1) + k
    case Short(v) => EncodeSigned(v, 2) + k
    case Integer(v) => EncodeSigned(v, 4) + k
    case Long(v) => EncodeSigned(v, 8) + k
    case ByteArray(raw) => ToBe(|raw|, 2) + (raw + k)
    case String(raw) => ToBe(|raw|, 2) + (raw + k)
    case Timestamp(v) => EncodeSigned(v, 8) + k
    case Uuid(raw) => raw + k
  }

  function EncodeHeader(h: Header, k: Bytes): Bytes
    requires WellFormed(h)
  {
    [|h.name|] + (h.name + ([TypeByte(h.value)] + EncodeValue(h.value, k)))
  }

  predicate AllWellFormed(hs: seq<Header>) {
    forall i :: 0 <= i < |hs| ==> WellFormed(hs[i])
  }

  function EncodeHeaders(hs: seq<Header>, k: Bytes): Bytes
    requires AllWellFormed(hs)
  {
    if hs == [] then k else EncodeHeader(hs[0], EncodeHeaders(hs[1..], k))
  }

  // ----- One header -----

  datatype Parse<T> = Ok(value: T, rest: Bytes) | Err(error: HeaderError)

  function Take(s: Bytes, n: nat): (r: Parse<Bytes>)
    ensures r.Ok? ==> s == r.value + r.rest && |r.value| == n
  {
    if |s| < n then Err(Truncated) else Ok(s[..n], s[n..])
  }

  /** Size of a value of fixed size with this type byte. */
  function FixedSize(t: Byte): nat {
    if t == 2 then 1 else if t == 3 then 2 else if t == 4 then 4
    else if t == 5 || t == 8 then 8 else if t == 9 then 16 else 0
  }

  function FixedValue(t: Byte, raw: Bytes): HeaderValue
    requires t in {2, 3, 4, 5, 8, 9} && |raw| == FixedSize(t)
  {
    var v := Signed(FromBe(raw), |raw|);
    if t == 2 then Byte(v) else if t == 3 then Short(v) else if t == 4 then Integer(v)
    else if t == 5 then Long(v) else if t == 8 then Timestamp(v) else Uuid(raw)
  }

  function ParseValue(t: Byte, s: Bytes): Parse<HeaderValue> {
    if t in {0, 1} then Ok(Bool(t == 0), s)
    else if t in {2, 3, 4, 5, 8, 9} then
      match Take(s, FixedSize(t))
      case Err(e) => Err(e)
      case Ok(raw, rest) => Ok(FixedValue(t, raw), rest)
    else if t in {6, 7} then
      match Take(s, 2)
      case Err(e) => Err(e)
      case Ok(len, s1) =>
        match Take(s1, FromBe(len))
        case Err(e) => Err(e)
        case Ok(raw, rest) => Ok(if t == 6 then ByteArray(raw) else String(raw), rest)
    else Err(UnknownType)
  }

  /** The header at the front of the non-empty `s`. */
  function ParseHeader(s: Bytes): (r: Parse<Header>)
    requires s != []
    ensures r.Ok? ==> |r.rest| < |s|
  {
    if s[0] == 0 then Err(EmptyName)
    else
      match Take(s[1..], s[0])
      case Err(e) => Err(e)
      case Ok(name, s1) =>
        if s1 == [] then Err(Truncated)
        else
          match ParseValue(s1[0], s1[1..])
          case Err(e) => Err(e)
          case Ok(value, rest) => Ok(Header(name, value), rest)
  }

  lemma TakeExact(a: Bytes, k: Bytes)
    ensures Take(a + k, |a|) == Ok(a, k)
  {
    assert (a + k)[..|a|] == a && (a + k)[|a|..] == k;
  }

  lemma TakeAt(s: Bytes, offset: nat, n: nat)
    requires offset + n <= |s|
    ensures Take(s[offset..], n) == Ok(s[offset..offset + n], s[offset + n..])
  {
    assert s[offset..][..n] == s[offset..offset + n] && s[offset..][n..] == s[offset + n..];
  }

  lemma SignedRoundTrip(v: int, n: nat)
    requires FitsSigned(v, n)
    ensures Signed(FromBe(EncodeSigned(v, n)), n) == v
  {
    FromToBe(Unsigned(v, n), n);
  }

  lemma ParseFixed(t: Byte, raw: Bytes, k: Bytes)
    requires t in {2, 3, 4, 5, 8, 9} && |raw| == FixedSize(t)
    ensures ParseValue(t, raw + k) == Ok(FixedValue(t, raw), k)
  {
    TakeExact(raw, k);
  }

  lemma ParseSized(t: Byte, raw: Bytes, k: Bytes)
    requires t in {6, 7} && |raw| < Pow256(2)
    ensures ParseValue(t, ToBe(|raw|, 2) + (raw + k)) == Ok(if t == 6 then ByteArray(raw) else String(raw), k)
  {
    TakeExact(ToBe(|raw|, 2), raw + k);
    FromToBe(|raw|, 2);
    TakeExact(raw, k);
  }

  lemma ParseSigned(t: Byte, v: int, n: nat, k: Bytes)
    requires t in {2, 3, 4, 5, 8} && n == FixedSize(t) && FitsSigned(v, n)
    ensures ParseValue(t, EncodeSigned(v, n) + k)
         == Ok(if t == 2 then Byte(v) else if t == 3 then Short(v) else if t == 4 then Integer(v)
               else if t == 5 then Long(v) else Timestamp(v), k)
  {
    ParseFixed(t, EncodeSigned(v, n), k);
    SignedRoundTrip(v, n);
  }

  lemma ParseEncodedValue(value: HeaderValue, k: Bytes)
    requires WellFormedValue(value)
    ensures ParseValue(TypeByte(value), EncodeValue(value, k)) == Ok(value, k)
  {
    match value {
      case Bool(_) =>
      case Byte(v) => ParseSigned(2, v, 1, k);
      case Short(v) => ParseSigned(3, v, 2, k);
      case Integer(v) => ParseSigned(4, v, 4, k);
      case Long(v) => ParseSigned(5, v, 8, k);
      case ByteArray(raw) => ParseSized(6, raw, k);
      case String(raw) => ParseSized(7, raw, k);
      case Timestamp(v) => ParseSigned(8, v, 8, k);
      case Uuid(raw) => ParseFixed(9, raw, k);
    }
  }

  lemma ParseEncodedHeader(h: Header, k: Bytes)
    requires WellFormed(h)
    ensures EncodeHeader(h, k) != [] && ParseHeader(EncodeHeader(h, k)) == Ok(h, k)
  {
    var s1 := [TypeByte(h.value)] + EncodeValue(h.value, k);
    assert EncodeHeader(h, k)[1..] == h.name + s1;
    TakeExact(h.name, s1);
    assert s1[1..] == EncodeValue(h.value, k);
    ParseEncodedValue(h.value, k);
  }

  lemma SignedBytes(raw: Bytes)
    ensures FitsSigned(Signed(FromBe(raw), |raw|), |raw|)
    ensures EncodeSigned(Signed(FromBe(raw), |raw|), |raw|) == raw
  {
    SignedFits(FromBe(raw), |raw|);
    ToFromBe(raw);
  }

  lemma ParsedValueIsEncoded(t: Byte, s: Bytes)
    requires ParseValue(t, s).Ok?
    ensures var r := ParseValue(t, s);
            WellFormedValue(r.value) && TypeByte(r.value) == t && EncodeValue(r.value, r.rest) == s
  {
    if t in {2, 3, 4, 5, 8, 9} {
      SignedBytes(Take(s, FixedSize(t)).value);
    } else if t in {6, 7} {
      ToFromBe(Take(s, 2).value);
    }
  }

  lemma ParsedHeaderIsEncoded(s: Bytes)
    requires s != [] && ParseHeader(s).Ok?
    ensures var r := ParseHeader(s); WellFormed(r.value) && EncodeHeader(r.value, r.rest) == s
  {
    var s1 := Take(s[1..], s[0]).rest;
    ParsedValueIsEncoded(s1[0], s1[1..]);
    assert s1 == [s1[0]] + s1[1..];
    assert s == [s[0]] + s[1..];
  }

  // ----- Header lists -----

  /** The headers read in order, and why reading stopped if bytes are left. */
  function ReadHeaders(s: Bytes): (seq<Header>, Option<HeaderError>)
    decreases |s|
  {
    if s == [] then ([], None)
    else
      match ParseHeader(s)
      case Err(e) => ([], Some(e))
      case Ok(h, rest) =>
        var (hs, e) := ReadHeaders(rest);
        ([h] + hs, e)
  }

  lemma ConsAppend(hs: seq<Header>, tail: seq<Header>)
    requires hs != []
    ensures [hs[0]] + (hs[1..] + tail) == hs + tail
  {
  }

  lemma ReadOne(h: Header, k: Bytes)
    requires WellFormed(h)
    ensures ReadHeaders(EncodeHeader(h, k)) == ([h] + ReadHeaders(k).0, ReadHeaders(k).1)
  {
    ParseEncodedHeader(h, k);
  }

  lemma {:induction false} ReadEncoded(hs: seq<Header>, k: Bytes)
    requires AllWellFormed(hs)
    ensures ReadHeaders(EncodeHeaders(hs, k)).0 == hs + ReadHeaders(k).0
    ensures ReadHeaders(EncodeHeaders(hs, k)).1 == ReadHeaders(k).1
    decreases |hs|
  {
    if hs != [] {
      ReadEncoded(hs[1..], k);
      ReadOne(hs[0], EncodeHeaders(hs[1..], k));
      ConsAppend(hs, ReadHeaders(k).0);
    }
  }

  /** Every well-formed list is read back in full, in order. */
  lemma HeadersRoundTrip(hs: seq<Header>)
    requires AllWellFormed(hs)
    ensures ReadHeaders(EncodeHeaders(hs, [])) == (hs, None)
  {
    ReadEncoded(hs, []);
    assert hs + [] == hs;
  }

  /** What is read is the encoding of a prefix of the bytes; the rest starts with no header. */
  lemma {:induction false} ReadIsEncoded(s: Bytes) returns (rest: Bytes)
    ensures var (hs, e) := ReadHeaders(s);
            && AllWellFormed(hs) && EncodeHeaders(hs, rest) == s
            && (e == None <==> rest == [])
            && (rest != [] ==> ParseHeader(rest) == Err(e.value))
    decreases |s|
  {
    rest := s;
    if s != [] && ParseHeader(s).Ok? {
      ParsedHeaderIsEncoded(s);
      rest := ReadIsEncoded(ParseHeader(s).rest);
      var hs := ReadHeaders(s).0;
      assert hs[1..] == ReadHeaders(ParseHeader(s).rest).0;
    }
  }

  /** No other list of headers goes further: any list that the bytes start with is a prefix of what is read. */
  lemma ReadIsLongest(s: Bytes, hs: seq<Header>, k: Bytes)
    requires AllWellFormed(hs) && s == EncodeHeaders(hs, k)
    ensures hs <= ReadHeaders(s).0
  {
    ReadEncoded(hs, k);
  }

  // ----- Names -----

  /** The dictionary of the headers under their decoded names; a later header replaces an earlier one. */
  function Dictionary(text: Bytes -> string, hs: seq<Header>): map<string, HeaderValue> {
    if hs == [] then map[]
    else
      var last := hs[|hs| - 1];
      Dictionary(text, hs[..|hs| - 1])[text(last.name) := last.value]
  }

  lemma {:induction false} LastHeaderWins(text: Bytes -> string, hs: seq<Header>, i: nat)
    requires i < |hs|
    requires forall j :: i < j < |hs| ==> text(hs[j].name) != text(hs[i].name)
    ensures text(hs[i].name) in Dictionary(text, hs)
    ensures Dictionary(text, hs)[text(hs[i].name)] == hs[i].value
    decreases |hs|
  {
    var n := |hs| - 1;
    if i < n {
      assert hs[..n][i] == hs[i];
      LastHeaderWins(text, hs[..n], i);
    }
  }

  /** One step of the lenient reader: the value at `offset` and the offset after it. */
  method ReadValue(headers: Bytes, offset: nat, valueType: Byte) returns (r: Option<(HeaderValue, nat)>)
    requires offset <= |headers|
    ensures r.None? <==> ParseValue(valueType, headers[offset..]).Err?
    ensures r.Some? ==> offset <= r.value.1 <= |headers|
    ensures r.Some? ==> ParseValue(valueType, headers[offset..]) == Ok(r.value.0, headers[r.value.1..])
  {
    if valueType in {0, 1} {
      return Some((Bool(valueType == 0), offset));
    } else if valueType in {2, 3, 4, 5, 8, 9} {
      var size := FixedSize(valueType);
      if offset + size > |headers| {
        return None;
      }
      var raw := headers[offset..offset + size];
      TakeAt(headers, offset, size);
      return Some((FixedValue(valueType, raw), offset + size));
    } else if valueType in {6, 7} {
      if offset + 2 > |headers| {
        return None;
      }
      var size := FromBe(headers[offset..offset + 2]);
      var start := offset + 2;
      TakeAt(headers, offset, 2);
      if start + size > |headers| {
        return None;
      }
      var raw := headers[start..start + size];
      TakeAt(headers, start, size);
      return Some((if valueType == 6 then ByteArray(raw) else String(raw), start + size));
    }
    r := None;
  }

  /** One step of the lenient reader: the header at `offset` and the offset after it. */
  method ReadHeader(headers: Bytes, offset: nat) returns (r: Option<(Header, nat)>)
    requires offset < |headers|
    ensures r.None? <==> ParseHeader(headers[offset..]).Err?
    ensures r.Some? ==> offset < r.value.1 <= |headers|
    ensures r.Some? ==> ParseHeader(headers[offset..]) == Ok(r.value.0, headers[r.value.1..])
  {
    var nameLength := headers[offset];
    var nameStart := offset + 1;
    if nameLength == 0 || nameStart + nameLength + 1 > |headers| {
      return None;
    }
    var name := headers[nameStart..nameStart + nameLength];
    var typeAt := nameStart + nameLength;
    assert headers[offset..][1..] == headers[nameStart..];
    TakeAt(headers, nameStart, nameLength);
    assert headers[typeAt..][1..] == headers[typeAt + 1..];
    var value := ReadValue(headers, typeAt + 1, headers[typeAt]);
    if value.None? {
      return None;
    }
    r := Some((Header(name, value.value.0), value.value.1));
  }

  lemma ReadAppend(read: seq<Header>, s: Bytes)
    requires s != [] && ParseHeader(s).Ok?
    ensures read + ReadHeaders(s).0 == (read + [ParseHeader(s).value]) + ReadHeaders(ParseHeader(s).rest).0
  {
  }

  lemma DictionaryAppend(text: Bytes -> string, read: seq<Header>, h: Header)
    ensures Dictionary(text, read + [h]) == Dictionary(text, read)[text(h.name) := h.value]
  {
    assert (read + [h])[..|read|] == read;
  }

  /** `aws_eventstream_header_values`: stops silently where the bytes stop being headers. */
  method HeaderValues(text: Bytes -> string, headers: Bytes) returns (values: map<string, HeaderValue>)
    ensures values == Dictionary(text, ReadHeaders(headers).0)
  {
    values := map[];
    ghost var read: seq<Header> := [];
    var offset := 0;
    assert headers[0..] == headers;
    while offset < |headers|
      invariant 0 <= offset <= |headers|
      invariant values == Dictionary(text, read)
      invariant ReadHeaders(headers).0 == read + ReadHeaders(headers[offset..]).0
    {
      var r := ReadHeader(headers, offset);
      if r.None? {
        assert ReadHeaders(headers[offset..]).0 == [];
        break;
      }
      var (h, next) := r.value;
      ReadAppend(read, headers[offset..]);
      DictionaryAppend(text, read, h);
      values := values[text(h.name) := h.value];
      read := read + [h];
      offset := next;
    }
    assert read + [] == read;
  }
}
