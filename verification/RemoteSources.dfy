/**
 Remote image and document sources of a request: they are counted, downloaded within a shared budget, and
 replaced in place by inline base64.  The network is a parameter: any check of addresses, any reply to any
 attempt.  The pass replaces the sources at most one tool result deep, each by what its own address leads
 to, and the aggregate limit on encoded bytes is never the one that stops it.
 */
module RemoteSources {
  import opened Bytes

  // ----- Requests -----

  datatype Value =
    | Null
    | Bool(truth: bool)
    | Number(spelling: string)
    | Str(text: string)
    | Arr(items: seq<Value>)
    | Obj(fields: map<string, Value>)

  function Field(v: Value, key: string): Option<Value> {
    if v.Obj? && key in v.fields then Some(v.fields[key]) else None
  }

  /** The content array of a tool result. */
  function Nested(item: Value): (c: Option<Value>)
    ensures c.Some? ==> c.value.Arr?
  {
    if Field(item, "type") == Some(Str("tool_result")) && Field(item, "content").Some?
       && item.fields["content"].Arr? then Field(item, "content") else None
  }

  /** The address of an image or document whose source is a URL. */
  function SourceUrl(item: Value): Option<string> {
    if Field(item, "type") != Some(Str("image")) && Field(item, "type") != Some(Str("document")) then None
    else match Field(item, "source")
      case None => None
      case Some(source) =>
        if Field(source, "type") != Some(Str("url")) then None
        else match Field(source, "url")
          case Some(Str(url)) => Some(url)
          case _ => None
  }

  predicate IsRemote(item: Value) {
    SourceUrl(item).Some? && !("data:" <= SourceUrl(item).value)
  }

  /** An image or document whose source is this address. */
  ghost predicate RemoteAt(x: Value, url: string) {
    && x.Obj? && "type" in x.fields && x.fields["type"] in {Str("image"), Str("document")}
    && "source" in x.fields && x.fields["source"].Obj?
    && var source := x.fields["source"].fields;
      && "type" in source && source["type"] == Str("url") && "url" in source && source["url"] == Str(url)
      && !("data:" <= url)
  }

  /** A tool result with these items. */
  ghost predicate ToolResultOf(x: Value, items: seq<Value>) {
    && x.Obj? && "type" in x.fields && x.fields["type"] == Str("tool_result")
    && "content" in x.fields && x.fields["content"] == Arr(items)
  }

  /** Which items are remote, and which hold items of their own. */
  lemma RemoteIff(x: Value)
    ensures IsRemote(x) <==> exists url :: RemoteAt(x, url)
    ensures IsRemote(x) ==> RemoteAt(x, SourceUrl(x).value)
    ensures Nested(x).Some? <==> exists items :: ToolResultOf(x, items)
    ensures Nested(x).Some? ==> ToolResultOf(x, Nested(x).value.items)
    ensures One(x) == if exists url :: RemoteAt(x, url) then 1 else 0
  {
    if IsRemote(x) {
      assert RemoteAt(x, SourceUrl(x).value);
    }
    if Nested(x).Some? {
      assert ToolResultOf(x, Nested(x).value.items);
    }
    forall url | RemoteAt(x, url) ensures IsRemote(x) {
      assert SourceUrl(x) == Some(url);
    }
    forall items | ToolResultOf(x, items) ensures Nested(x).Some? {
      OneContent(x, items);
    }
  }

  lemma OneContent(x: Value, items: seq<Value>)
    requires ToolResultOf(x, items)
    ensures Nested(x) == Some(Arr(items))
  {
  }

  function Inline(mediaType: string, data: string): Value {
    Obj(map["type" := Str("base64"), "media_type" := Str(mediaType), "data" := Str(data)])
  }

  function WithSource(item: Value, source: Value): Value
    requires item.Obj?
  {
    Obj(item.fields["source" := source])
  }

  // ----- Counting -----

  function Sum(f: Value -> nat, s: seq<Value>): nat {
    if s == [] then 0 else f(s[0]) + Sum(f, s[1..])
  }

  function One(item: Value): nat {
    if IsRemote(item) then 1 else 0
  }

  /** The recursive count, from the `i`-th item of an array on. */
  function CountFrom(content: Value, i: nat): nat
    requires content.Arr? && i <= |content.items|
    decreases content, |content.items| - i
  {
    if i == |content.items| then 0 else CountItem(content.items[i]) + CountFrom(content, i + 1)
  }

  function CountItem(item: Value): nat
    decreases item
  {
    match Nested(item) case Some(c) => CountFrom(c, 0) case None => One(item)
  }

  function CountContent(content: Value): nat {
    if content.Arr? then CountFrom(content, 0) else 0
  }

  /** Remote sources outside tool results or directly in one. */
  function ShallowItem(item: Value): nat {
    match Nested(item) case Some(c) => Sum(One, c.items) case None => One(item)
  }

  function Shallow(content: Value): nat {
    if content.Arr? then Sum(ShallowItem, content.items) else 0
  }

  /** Remote sources inside a tool result that is itself inside one. */
  function InnerItem(item: Value): nat {
    if Nested(item).Some? then CountItem(item) else 0
  }

  function DeepItem(item: Value): nat {
    match Nested(item) case Some(c) => Sum(InnerItem, c.items) case None => 0
  }

  function Deep(content: Value): nat {
    if content.Arr? then Sum(DeepItem, content.items) else 0
  }

  lemma {:induction false} CountIsSum(content: Value, i: nat)
    requires content.Arr? && i <= |content.items|
    ensures CountFrom(content, i) == Sum(CountItem, content.items[i..])
    decreases |content.items| - i
  {
    if i < |content.items| {
      CountIsSum(content, i + 1);
      assert content.items[i..][1..] == content.items[i + 1..];
    }
  }

  lemma {:induction false} SumSplits(f: Value -> nat, g: Value -> nat, h: Value -> nat, s: seq<Value>)
    requires forall x :: f(x) == g(x) + h(x)
    ensures Sum(f, s) == Sum(g, s) + Sum(h, s)
  {
    if s != [] {
      SumSplits(f, g, h, s[1..]);
    }
  }

  lemma {:induction false} SumsEqual(f: Value -> nat, s: seq<Value>, g: Value -> nat, t: seq<Value>)
    requires |s| == |t| && forall j :: 0 <= j < |s| ==> f(s[j]) == g(t[j])
    ensures Sum(f, s) == Sum(g, t)
  {
    if s != [] {
      SumsEqual(f, s[1..], g, t[1..]);
    }
  }

  lemma ItemSplits(item: Value)
    ensures CountItem(item) == ShallowItem(item) + DeepItem(item)
  {
    if Nested(item).Some? {
      var c := Nested(item).value;
      CountIsSum(c, 0);
      assert c.items[0..] == c.items;
      SumSplits(CountItem, One, InnerItem, c.items);
    }
  }

  /** The count sees every source: the shallow ones, and those deeper than the pass goes. */
  lemma CountSplits(content: Value)
    ensures CountContent(content) == Shallow(content) + Deep(content)
  {
    if content.Arr? {
      CountIsSum(content, 0);
      assert content.items[0..] == content.items;
      forall x: Value ensures CountItem(x) == ShallowItem(x) + DeepItem(x) { ItemSplits(x); }
      SumSplits(CountItem, ShallowItem, DeepItem, content.items);
    }
  }

  // ----- The budget -----

  const MAX_SOURCE_BYTES: nat := 20 * 1024 * 1024
  const MAX_SOURCES: nat := 20
  const MAX_REDIRECTS: nat := 5
  const USIZE_MAX: nat := 0xFFFF_FFFF_FFFF_FFFF

  datatype Limits = Limits(downloaded: nat, materialized: nat, attempts: nat)

  const DEFAULTS := Limits(32 * 1024 * 1024, 44 * 1024 * 1024, 32)

  datatype Tally = Tally(downloaded: nat, materialized: nat, attempts: nat)

  datatype Error =
    | TooManySources | Rejected | AttemptLimit | SendFailed | TooManyRedirects | BadRedirect | NoResponse
    | BadStatus | SourceTooLarge | DownloadLimit | ReadFailed | UnsupportedMedia | MaterializedLimit | Overflow

  datatype Got<+T> = Ok(value: T, tally: Tally) | Err(error: Error)

  predicate Within(lim: Limits, t: Tally) {
    t.downloaded <= lim.downloaded && t.materialized <= lim.materialized && t.attempts <= lim.attempts
  }

  function AddAttempt(lim: Limits, t: Tally): Got<nat> {
    if t.attempts >= lim.attempts then Err(AttemptLimit) else Ok(1, t.(attempts := t.attempts + 1))
  }

  function AddDownloaded(lim: Limits, t: Tally, amount: nat): Got<nat> {
    if t.downloaded + amount > USIZE_MAX then Err(Overflow)
    else if t.downloaded + amount > lim.downloaded then Err(DownloadLimit)
    else Ok(amount, t.(downloaded := t.downloaded + amount))
  }

  function AddMaterialized(lim: Limits, t: Tally, amount: nat): Got<nat> {
    if t.materialized + amount > USIZE_MAX then Err(Overflow)
    else if t.materialized + amount > lim.materialized then Err(MaterializedLimit)
    else Ok(amount, t.(materialized := t.materialized + amount))
  }

  // ----- Base64, section 4 of RFC 4648 -----

  function Letter(v: nat): char
    requires v < 64
  {
    if v < 26 then 'A' + v as char
    else if v < 52 then 'a' + (v - 26) as char
    else if v < 62 then '0' + (v - 52) as char
    else if v == 62 then '+' else '/'
  }

  /** The four characters for the first three bytes, padded when there are fewer. */
  function Group(b: Bytes): (g: string)
    requires b != []
    ensures |g| == 4
  {
    if |b| == 1 then [Letter(b[0] / 4), Letter(b[0] % 4 * 16), '=', '=']
    else if |b| == 2 then
      [Letter(b[0] / 4), Letter(b[0] % 4 * 16 + b[1] / 16), Letter(b[1] % 16 * 4), '=']
    else
      [Letter(b[0] / 4), Letter(b[0] % 4 * 16 + b[1] / 16), Letter(b[1] % 16 * 4 + b[2] / 64), Letter(b[2] % 64)]
  }

  function Base64(b: Bytes): string {
    if b == [] then "" else if |b| <= 3 then Group(b) else Group(b) + Base64(b[3..])
  }

  function EncodedLen(n: nat): Option<nat> {
    if n + 2 > USIZE_MAX || (n + 2) / 3 * 4 > USIZE_MAX then None else Some((n + 2) / 3 * 4)
  }

  /** The alphabet of Table 1 of RFC 4648. */
  const ALPHABET := "ABCDEFGHIJKLMNOPQRSTUVWXYZ" + "abcdefghijklmnopqrstuvwxyz" + "0123456789+/"

  /** The place of `c` in the alphabet, from the `i`-th on. */
  function PlaceFrom(c: char, i: nat): (r: Option<nat>)
    requires i <= 64
    ensures r.Some? ==> i <= r.value < 64 && ALPHABET[r.value] == c
    ensures r.None? ==> forall j :: i <= j < 64 ==> ALPHABET[j] != c
    decreases 64 - i
  {
    if i == 64 then None else if ALPHABET[i] == c then Some(i) else PlaceFrom(c, i + 1)
  }

  /** Which number a character stands for, if any. */
  type Places = char -> Option<nat>

  function Place(c: char): Option<nat> {
    PlaceFrom(c, 0)
  }

  /** The number whose digits to base 64 are these characters. */
  function Digits64(place: Places, s: string): Option<nat> {
    if s == "" then Some(0)
    else
      match (Digits64(place, s[..|s| - 1]), place(s[|s| - 1]))
      case (Some(n), Some(d)) => Some(n * 64 + d)
      case _ => None
  }

  /** The `n` bytes in front of `spare` bits that must be zero. */
  function BytesIn(bits: Option<nat>, n: nat, spare: nat): Option<Bytes>
    requires n <= 3 && spare > 0
  {
    if bits == None || bits.value % spare != 0 || bits.value / spare >= Pow256(n) then None
    else Some(ToBe(bits.value / spare, n))
  }

  /** Four characters give three bytes, fewer at the padded end. */
  function DecodeWith(place: Places, s: string): Option<Bytes> {
    if s == "" then Some([])
    else if |s| < 4 then None
    else if |s| == 4 && s[2..] == "==" then BytesIn(Digits64(place, s[..2]), 1, 16)
    else if |s| == 4 && s[3] == '=' then BytesIn(Digits64(place, s[..3]), 2, 4)
    else
      match (BytesIn(Digits64(place, s[..4]), 3, 1), DecodeWith(place, s[4..]))
      case (Some(front), Some(rest)) => Some(front + rest)
      case _ => None
  }

  /** Reading base64 back. */
  function Decode64(s: string): Option<Bytes> {
    DecodeWith(Place, s)
  }

  lemma LetterIs(v: nat)
    requires v < 64
    ensures Letter(v) == ALPHABET[v]
  {
    match v {
      case 0 => case 1 => case 2 => case 3 => case 4 => case 5 => case 6 => case 7 =>
      case 8 => case 9 => case 10 => case 11 => case 12 => case 13 => case 14 => case 15 =>
      case 16 => case 17 => case 18 => case 19 => case 20 => case 21 => case 22 => case 23 =>
      case 24 => case 25 => case 26 => case 27 => case 28 => case 29 => case 30 => case 31 =>
      case 32 => case 33 => case 34 => case 35 => case 36 => case 37 => case 38 => case 39 =>
      case 40 => case 41 => case 42 => case 43 => case 44 => case 45 => case 46 => case 47 =>
      case 48 => case 49 => case 50 => case 51 => case 52 => case 53 => case 54 => case 55 =>
      case 56 => case 57 => case 58 => case 59 => case 60 => case 61 => case 62 => case 63 =>
    }
  }

  lemma LetterIsRead(v: nat)
    requires v < 64
    ensures Letter(v) != '=' && Place(Letter(v)) == Some(v)
  {
    LetterIs(v);
    var w := PlaceFrom(Letter(v), 0);
    if w.Some? {
      LetterIs(w.value);
    }
  }

  lemma DigitsSnoc(place: Places, s: string, n: nat, v: nat)
    requires s != "" && Digits64(place, s[..|s| - 1]) == Some(n) && place(s[|s| - 1]) == Some(v)
    ensures Digits64(place, s) == Some(n * 64 + v)
  {
  }

  lemma Digits2(place: Places, s: string, a: nat, b: nat)
    requires |s| == 2 && place(s[0]) == Some(a) && place(s[1]) == Some(b)
    ensures Digits64(place, s) == Some(a * 64 + b)
  {
    assert s[..1][..0] == "" && s[..1][0] == s[0];
    DigitsSnoc(place, s[..1], 0, a);
    DigitsSnoc(place, s, a, b);
  }

  lemma Digits3(place: Places, s: string, a: nat, b: nat, c: nat)
    requires |s| == 3 && place(s[0]) == Some(a) && place(s[1]) == Some(b) && place(s[2]) == Some(c)
    ensures Digits64(place, s) == Some(a * 4096 + b * 64 + c)
  {
    Digits2(place, s[..2], a, b);
    DigitsSnoc(place, s, a * 64 + b, c);
  }

  lemma Digits4(place: Places, s: string, a: nat, b: nat, c: nat, d: nat)
    requires |s| == 4 && place(s[0]) == Some(a) && place(s[1]) == Some(b)
    requires place(s[2]) == Some(c) && place(s[3]) == Some(d)
    ensures Digits64(place, s) == Some(a * 262144 + b * 4096 + c * 64 + d)
  {
    Digits3(place, s[..3], a, b, c);
    DigitsSnoc(place, s, a * 4096 + b * 64 + c, d);
  }

  /** Bytes with zero bits behind them are read back from the number they make. */
  lemma BytesAreIn(b: Bytes, bits: nat, spare: nat)
    requires |b| <= 3 && spare > 0 && bits % spare == 0 && bits / spare == FromBe(b)
    ensures BytesIn(Some(bits), |b|, spare) == Some(b)
  {
    ToFromBe(b);
  }

  lemma Value1(b: Bytes, x: nat)
    requires b == [x]
    ensures FromBe(b) == x
  {
    assert b[..0] == [] && FromBe([]) == 0;
  }

  lemma Value2(b: Bytes, x: nat, y: nat)
    requires |b| == 2 && b[0] == x && b[1] == y
    ensures FromBe(b) == x * 256 + y
  {
    Value1(b[..1], x);
  }

  lemma Value3(b: Bytes, x: nat, y: nat, z: nat)
    requires |b| == 3 && b[0] == x && b[1] == y && b[2] == z
    ensures FromBe(b) == x * 65536 + y * 256 + z
  {
    Value2(b[..2], x, y);
  }

  lemma ReadSingle(place: Places, b: Bytes, s: string, x: nat)
    requires b == [x] && |s| == 2 && place(s[0]) == Some(x / 4) && place(s[1]) == Some(x % 4 * 16)
    ensures BytesIn(Digits64(place, s), 1, 16) == Some(b)
  {
    Digits2(place, s, x / 4, x % 4 * 16);
    Value1(b, x);
    BytesAreIn(b, x / 4 * 64 + x % 4 * 16, 16);
  }

  lemma ReadPair(place: Places, b: Bytes, s: string, x: nat, y: nat)
    requires |b| == 2 && b[0] == x && b[1] == y && |s| == 3
    requires place(s[0]) == Some(x / 4) && place(s[1]) == Some(x % 4 * 16 + y / 16) && place(s[2]) == Some(y % 16 * 4)
    ensures BytesIn(Digits64(place, s), 2, 4) == Some(b)
  {
    Digits3(place, s, x / 4, x % 4 * 16 + y / 16, y % 16 * 4);
    Value2(b, x, y);
    PairValue(x, y);
    BytesAreIn(b, x / 4 * 4096 + (x % 4 * 16 + y / 16) * 64 + y % 16 * 4, 4);
  }

  lemma PairValue(x: nat, y: nat)
    ensures x / 4 * 4096 + (x % 4 * 16 + y / 16) * 64 + y % 16 * 4 == (x * 256 + y) * 4
  {
  }

  lemma ReadTriple(place: Places, b: Bytes, s: string, x: nat, y: nat, z: nat)
    requires |b| == 3 && b[0] == x && b[1] == y && b[2] == z && |s| == 4
    requires place(s[0]) == Some(x / 4) && place(s[1]) == Some(x % 4 * 16 + y / 16)
    requires place(s[2]) == Some(y % 16 * 4 + z / 64) && place(s[3]) == Some(z % 64)
    ensures BytesIn(Digits64(place, s), 3, 1) == Some(b)
  {
    Digits4(place, s, x / 4, x % 4 * 16 + y / 16, y % 16 * 4 + z / 64, z % 64);
    Value3(b, x, y, z);
    TripleValue(x, y, z);
    BytesAreIn(b, x / 4 * 262144 + (x % 4 * 16 + y / 16) * 4096 + (y % 16 * 4 + z / 64) * 64 + z % 64, 1);
  }

  lemma TripleValue(x: nat, y: nat, z: nat)
    ensures x / 4 * 262144 + (x % 4 * 16 + y / 16) * 4096 + (y % 16 * 4 + z / 64) * 64 + z % 64
         == x * 65536 + y * 256 + z
  {
  }

  ghost predicate ReadsLetters(place: Places) {
    forall v: nat :: v < 64 ==> Letter(v) != '=' && place(Letter(v)) == Some(v)
  }

  lemma PlaceReadsLetters()
    ensures ReadsLetters(Place)
  {
    forall v: nat | v < 64 ensures Letter(v) != '=' && Place(Letter(v)) == Some(v) {
      LetterIsRead(v);
    }
  }

  /** The characters of a group stand for its six-bit pieces. */
  lemma GroupStands(place: Places, b: Bytes, g: string, x: nat, y: nat, z: nat)
    requires ReadsLetters(place) && 1 <= |b| <= 3 && g == Group(b) && b[0] == x
    requires (if |b| >= 2 then b[1] == y else y == 0) && (if |b| == 3 then b[2] == z else z == 0)
    ensures place(g[0]) == Some(x / 4) && place(g[1]) == Some(x % 4 * 16 + y / 16)
    ensures if |b| >= 2 then g[2] != '=' && place(g[2]) == Some(y % 16 * 4 + z / 64) else g[2] == '='
    ensures if |b| == 3 then g[3] != '=' && place(g[3]) == Some(z % 64) else g[3] == '='
  {
  }

  lemma GroupIsRead(place: Places, b: Bytes, g: string, k: string)
    requires ReadsLetters(place) && 1 <= |b| <= 3 && g == Group(b)
    requires (|b| < 3 ==> k == "") && DecodeWith(place, k).Some?
    ensures DecodeWith(place, g + k) == Some(b + DecodeWith(place, k).value)
  {
    var x, y, z := b[0], if |b| >= 2 then b[1] else 0, if |b| == 3 then b[2] else 0;
    GroupStands(place, b, g, x, y, z);
    if |b| == 1 {
      ReadSingle(place, b, g[..2], x);
    } else if |b| == 2 {
      ReadPair(place, b, g[..3], x, y);
    } else {
      ReadTriple(place, b, g, x, y, z);
    }
    GroupDecodes(place, b, g, k);
  }

  lemma GroupDecodes(place: Places, b: Bytes, g: string, k: string)
    requires 1 <= |b| <= 3 && |g| == 4 && DecodeWith(place, k).Some? && (|b| < 3 ==> k == "")
    requires |b| == 1 ==> g[2] == g[3] == '=' && BytesIn(Digits64(place, g[..2]), 1, 16) == Some(b)
    requires |b| == 2 ==> g[2] != '=' && g[3] == '=' && BytesIn(Digits64(place, g[..3]), 2, 4) == Some(b)
    requires |b| == 3 ==> g[3] != '=' && BytesIn(Digits64(place, g), 3, 1) == Some(b)
    ensures DecodeWith(place, g + k) == Some(b + DecodeWith(place, k).value)
  {
    assert (g + k)[..4] == g && (g + k)[4..] == k;
    if |b| < 3 {
      assert g + k == g && b + [] == b;
      assert |b| == 1 ==> g[2..] == "==";
    }
  }

  lemma {:induction false} DecodesGroups(place: Places, b: Bytes)
    requires ReadsLetters(place)
    ensures DecodeWith(place, Base64(b)) == Some(b)
    decreases |b|
  {
    if 0 < |b| <= 3 {
      GroupIsRead(place, b, Group(b), "");
      assert Group(b) + "" == Group(b) && b + [] == b;
    } else if b != [] {
      DecodesGroups(place, b[3..]);
      GroupIsRead(place, b[..3], Group(b[..3]), Base64(b[3..]));
      assert b[..3] + b[3..] == b;
    }
  }

  /** Reading the base64 of any bytes gives those bytes. */
  lemma DecodedAgain(b: Bytes)
    ensures Decode64(Base64(b)) == Some(b)
  {
    PlaceReadsLetters();
    DecodesGroups(Place, b);
  }

  /** The length charged for a source is the length of its encoding. */
  lemma {:induction false} EncodedLenIsExact(b: Bytes)
    ensures |Base64(b)| == (|b| + 2) / 3 * 4
  {
    if |b| > 3 {
      EncodedLenIsExact(b[3..]);
      assert |Base64(b)| == 4 + |Base64(b[3..])|;
      assert (|b| + 2) / 3 == (|b| - 3 + 2) / 3 + 1;
    } else if b != [] {
      assert |Base64(b)| == 4 && (|b| + 2) / 3 == 1;
    }
  }

  // ----- Downloading -----

  datatype Chunk = Data(bytes: Bytes) | Broken

  datatype Reply = Reply(finalUrl: string, success: bool, contentLength: Option<nat>, contentType: Option<string>,
                         chunks: seq<Chunk>)

  datatype Attempt = Failed | Redirect(location: Option<string>) | Answer(reply: Reply)

  /** The outside: which addresses are allowed, what the n-th attempt gets, which media type results. */
  datatype Net = Net(safe: string -> bool, get: (nat, string) -> Attempt,
                     mediaType: (Value, Reply, Bytes) -> Option<string>)

  function Walk(net: Net, lim: Limits, t: Tally, url: string, redirects: nat): Got<Reply>
    requires redirects <= MAX_REDIRECTS
    decreases MAX_REDIRECTS - redirects
  {
    if !net.safe(url) then Err(Rejected)
    else match AddAttempt(lim, t)
      case Err(e) => Err(e)
      case Ok(_, u) =>
        match net.get(t.attempts, url)
        case Failed => Err(SendFailed)
        case Answer(reply) => Ok(reply, u)
        case Redirect(location) =>
          if redirects >= MAX_REDIRECTS then Err(TooManyRedirects)
          else if location == None then Err(BadRedirect)
          else Walk(net, lim, u, location.value, redirects + 1)
  }

  function ReadBody(lim: Limits, chunks: seq<Chunk>, sofar: Bytes, t: Tally): Got<Bytes>
    decreases |chunks|
  {
    if chunks == [] then Ok(sofar, t)
    else match chunks[0]
      case Broken => Err(ReadFailed)
      case Data(d) =>
        if |sofar| + |d| > MAX_SOURCE_BYTES then Err(SourceTooLarge)
        else match AddDownloaded(lim, t, |d|)
          case Err(e) => Err(e)
          case Ok(_, u) => ReadBody(lim, chunks[1..], sofar + d, u)
  }

  /** What a reply is refused for before its body is read. */
  function Refusal(net: Net, lim: Limits, t: Tally, reply: Reply): Option<Error> {
    if !net.safe(reply.finalUrl) then Some(Rejected)
    else if !reply.success then Some(BadStatus)
    else match reply.contentLength
      case None => None
      case Some(length) =>
        if length > MAX_SOURCE_BYTES then Some(SourceTooLarge)
        else if t.downloaded + length > lim.downloaded then Some(DownloadLimit)
        else None
  }

  function Encode(net: Net, lim: Limits, item: Value, reply: Reply, bytes: Bytes, t: Tally): Got<Value> {
    match net.mediaType(item, reply, bytes)
    case None => Err(UnsupportedMedia)
    case Some(mediaType) =>
      match EncodedLen(|bytes|)
      case None => Err(Overflow)
      case Some(n) =>
        match AddMaterialized(lim, t, n)
        case Err(e) => Err(e)
        case Ok(_, u) => Ok(Inline(mediaType, Base64(bytes)), u)
  }

  function Accept(net: Net, lim: Limits, item: Value, reply: Reply, t: Tally): Got<Value> {
    match Refusal(net, lim, t, reply)
    case Some(e) => Err(e)
    case None =>
      match ReadBody(lim, reply.chunks, [], t)
      case Err(e) => Err(e)
      case Ok(bytes, u) => Encode(net, lim, item, reply, bytes, u)
  }

  function Fetch(net: Net, lim: Limits, item: Value, url: string, t: Tally): Got<Value> {
    match Walk(net, lim, t, url, 0)
    case Err(e) => Err(e)
    case Ok(reply, u) => Accept(net, lim, item, reply, u)
  }

  // ----- The pass -----

  function FillItem(net: Net, lim: Limits, item: Value, t: Tally): Got<Value> {
    if !IsRemote(item) then Ok(item, t)
    else match Fetch(net, lim, item, SourceUrl(item).value, t)
      case Err(e) => Err(e)
      case Ok(source, u) => Ok(WithSource(item, source), u)
  }

  type Filler = (Value, Tally) -> Got<Value>

  /** Items from the `i`-th on are replaced in place, the tally passing from one to the next. */
  function FillAll(fill: Filler, items: seq<Value>, i: nat, t: Tally): Got<seq<Value>>
    requires i <= |items|
    decreases |items| - i
  {
    if i == |items| then Ok(items, t)
    else match fill(items[i], t)
      case Err(e) => Err(e)
      case Ok(x, u) => FillAll(fill, items[i := x], i + 1, u)
  }

  function ItemFiller(net: Net, lim: Limits): Filler {
    (x, u) => FillItem(net, lim, x, u)
  }

  function PassItem(net: Net, lim: Limits, item: Value, t: Tally): Got<Value> {
    match Nested(item)
    case None => FillItem(net, lim, item, t)
    case Some(c) =>
      match FillAll(ItemFiller(net, lim), c.items, 0, t)
      case Err(e) => Err(e)
      case Ok(items, u) => Ok(Obj(item.fields["content" := Arr(items)]), u)
  }

  function ItemPasser(net: Net, lim: Limits): Filler {
    (x, u) => PassItem(net, lim, x, u)
  }

  function PassContent(net: Net, lim: Limits, content: Value, t: Tally): Got<Value> {
    if !content.Arr? then Ok(content, t)
    else match FillAll(ItemPasser(net, lim), content.items, 0, t)
      case Err(e) => Err(e)
      case Ok(items, u) => Ok(Arr(items), u)
  }

  function ContentPasser(net: Net, lim: Limits): Filler {
    (x, u) => PassContent(net, lim, x, u)
  }

  function PassMessages(net: Net, lim: Limits, contents: seq<Value>, t: Tally): Got<seq<Value>> {
    FillAll(ContentPasser(net, lim), contents, 0, t)
  }

  // ----- What one download yields, without the budget -----

  /** The reply an address leads to within the redirect limit, and the number of attempts that takes. */
  function Leads(net: Net, at: nat, url: string, redirects: nat): Option<(Reply, nat)>
    requires redirects <= MAX_REDIRECTS
    decreases MAX_REDIRECTS - redirects
  {
    if !net.safe(url) then None
    else match net.get(at, url)
      case Failed => None
      case Answer(reply) => Some((reply, 1))
      case Redirect(location) =>
        if redirects == MAX_REDIRECTS || location == None then None
        else match Leads(net, at + 1, location.value, redirects + 1)
          case None => None
          case Some(found) => Some((found.0, found.1 + 1))
  }

  function Whole(chunks: seq<Chunk>): Option<Bytes> {
    if chunks == [] then Some([])
    else if chunks[0].Broken? || Whole(chunks[1..]) == None then None
    else Some(chunks[0].bytes + Whole(chunks[1..]).value)
  }

  /** Redirects spend the same attempts as sources: a walk succeeds when its attempts still fit. */
  lemma {:induction false} WalkIff(net: Net, lim: Limits, t: Tally, url: string, redirects: nat)
    requires redirects <= MAX_REDIRECTS
    ensures var (w, l) := (Walk(net, lim, t, url, redirects), Leads(net, t.attempts, url, redirects));
      && (w.Ok? <==> l.Some? && t.attempts + l.value.1 <= lim.attempts)
      && (w.Ok? ==> w.value == l.value.0 && w.tally == t.(attempts := t.attempts + l.value.1))
      && (l.Some? ==> 1 <= l.value.1 <= MAX_REDIRECTS + 1 - redirects)
      && (w.Err? ==> w.error in {Rejected, AttemptLimit, SendFailed, TooManyRedirects, BadRedirect})
    decreases MAX_REDIRECTS - redirects
  {
    if net.safe(url) && net.get(t.attempts, url).Redirect? {
      var location := net.get(t.attempts, url).location;
      if redirects < MAX_REDIRECTS && location.Some? {
        WalkIff(net, lim, t.(attempts := t.attempts + 1), location.value, redirects + 1);
      }
    }
  }

  /** From `url`, asked with attempt `at` on, `k` redirects lead to `u`. */
  ghost predicate Visits(net: Net, at: nat, url: string, k: nat, u: string)
    decreases k
  {
    if k == 0 then u == url
    else
      && net.safe(url) && net.get(at, url).Redirect? && net.get(at, url).location.Some?
      && Visits(net, at + 1, net.get(at, url).location.value, k - 1, u)
  }

  /** Why a walk ends with this error at `u`, the attempt being the `at`-th and `k` redirects being behind it. */
  ghost predicate WalkEndsAt(net: Net, lim: Limits, at: nat, k: nat, u: string, e: Error) {
    match e
    case Rejected => !net.safe(u)
    case AttemptLimit => net.safe(u) && at >= lim.attempts
    case SendFailed => net.safe(u) && at < lim.attempts && net.get(at, u) == Failed
    case TooManyRedirects => net.safe(u) && at < lim.attempts && net.get(at, u).Redirect? && k == MAX_REDIRECTS
    case BadRedirect => net.safe(u) && at < lim.attempts && net.get(at, u) == Redirect(None) && k < MAX_REDIRECTS
    case _ => false
  }

  /** A walk that starts with attempt `at` comes to `u` and ends there with this error. */
  ghost predicate WalkEnds(net: Net, lim: Limits, at: nat, url: string, k: nat, u: string, e: Error) {
    k <= MAX_REDIRECTS && Visits(net, at, url, k, u) && WalkEndsAt(net, lim, at + k, k, u, e)
  }

  /** A walk that fails says why, of the address it was at. */
  lemma {:induction false} WalkErrorIs(net: Net, lim: Limits, t: Tally, url: string, redirects: nat)
    returns (k: nat, u: string)
    requires redirects <= MAX_REDIRECTS && Walk(net, lim, t, url, redirects).Err?
    ensures redirects + k <= MAX_REDIRECTS && Visits(net, t.attempts, url, k, u)
    ensures WalkEndsAt(net, lim, t.attempts + k, redirects + k, u, Walk(net, lim, t, url, redirects).error)
    decreases MAX_REDIRECTS - redirects
  {
    k, u := 0, url;
    if net.safe(url) && t.attempts < lim.attempts && net.get(t.attempts, url).Redirect? {
      var location := net.get(t.attempts, url).location;
      if redirects < MAX_REDIRECTS && location.Some? {
        k, u := WalkErrorIs(net, lim, t.(attempts := t.attempts + 1), location.value, redirects + 1);
        k := k + 1;
      }
    }
  }

  /** A body is read when it arrives whole and fits both its own limit and what is left of the shared one. */
  lemma {:induction false} ReadBodyIff(lim: Limits, chunks: seq<Chunk>, sofar: Bytes, t: Tally)
    requires |sofar| <= MAX_SOURCE_BYTES && t.downloaded <= lim.downloaded <= USIZE_MAX
    ensures var (r, w) := (ReadBody(lim, chunks, sofar, t), Whole(chunks));
      && (r.Ok? <==> w.Some? && |sofar| + |w.value| <= MAX_SOURCE_BYTES
                     && t.downloaded + |w.value| <= lim.downloaded)
      && (r.Ok? ==> r.value == sofar + w.value && r.tally == t.(downloaded := t.downloaded + |w.value|))
    decreases |chunks|
  {
    if chunks != [] && chunks[0].Data? {
      var d := chunks[0].bytes;
      if |sofar| + |d| <= MAX_SOURCE_BYTES && t.downloaded + |d| <= lim.downloaded {
        ReadBodyIff(lim, chunks[1..], sofar + d, t.(downloaded := t.downloaded + |d|));
        if Whole(chunks[1..]).Some? {
          assert sofar + d + Whole(chunks[1..]).value == sofar + (d + Whole(chunks[1..]).value);
        }
      }
    }
  }

  lemma {:induction false} ReadBodyErrors(lim: Limits, chunks: seq<Chunk>, sofar: Bytes, t: Tally)
    requires t.downloaded <= lim.downloaded && lim.downloaded + MAX_SOURCE_BYTES <= USIZE_MAX
    ensures var r := ReadBody(lim, chunks, sofar, t);
      r.Err? ==> r.error in {ReadFailed, SourceTooLarge, DownloadLimit}
    decreases |chunks|
  {
    if chunks != [] && chunks[0].Data? {
      var d := chunks[0].bytes;
      if |sofar| + |d| <= MAX_SOURCE_BYTES && t.downloaded + |d| <= lim.downloaded {
        ReadBodyErrors(lim, chunks[1..], sofar + d, t.(downloaded := t.downloaded + |d|));
      }
    }
  }

  /** `data` is the base64 of `bytes`: it is read back to them and has just the characters it takes. */
  predicate Encodes(data: Option<Value>, bytes: Bytes) {
    && data.Some? && data.value.Str?
    && Decode64(data.value.text) == Some(bytes) && |data.value.text| == (|bytes| + 2) / 3 * 4
  }

  /** `source` is an inline source that holds the whole body of `reply`. */
  predicate Carries(net: Net, item: Value, reply: Reply, source: Value) {
    && reply.success && net.safe(reply.finalUrl) && Whole(reply.chunks).Some?
    && var bytes := Whole(reply.chunks).value;
      && net.mediaType(item, reply, bytes).Some?
      && source.Obj? && source.fields.Keys == {"type", "media_type", "data"}
      && source.fields["type"] == Str("base64")
      && source.fields["media_type"] == Str(net.mediaType(item, reply, bytes).value)
      && Encodes(Field(source, "data"), bytes)
  }

  /** From `t` to `u` the charges are the bytes read and the characters written. */
  predicate Accounted(t: Tally, u: Tally, bytes: Bytes) {
    u.downloaded == t.downloaded + |bytes| && u.materialized == t.materialized + (|bytes| + 2) / 3 * 4
  }

  /** A declared length that rules the body out before it is read. */
  predicate DeclaredTooLong(reply: Reply, lim: Limits, t: Tally) {
    && reply.contentLength.Some?
    && (reply.contentLength.value > MAX_SOURCE_BYTES || t.downloaded + reply.contentLength.value > lim.downloaded)
  }

  /** The reply can be made an inline source within the limits. */
  predicate Acceptable(net: Net, lim: Limits, item: Value, reply: Reply, t: Tally) {
    && net.safe(reply.finalUrl) && reply.success && !DeclaredTooLong(reply, lim, t)
    && Whole(reply.chunks).Some?
    && var bytes := Whole(reply.chunks).value;
      && |bytes| <= MAX_SOURCE_BYTES && t.downloaded + |bytes| <= lim.downloaded
      && net.mediaType(item, reply, bytes).Some? && t.materialized + (|bytes| + 2) / 3 * 4 <= lim.materialized
  }

  lemma {:induction false} AcceptIff(net: Net, lim: Limits, item: Value, reply: Reply, t: Tally)
    requires Within(lim, t) && lim.downloaded <= USIZE_MAX && lim.materialized <= USIZE_MAX
    ensures Accept(net, lim, item, reply, t).Ok? <==> Acceptable(net, lim, item, reply, t)
  {
    var body, whole := ReadBody(lim, reply.chunks, [], t), Whole(reply.chunks);
    FreshBodyIff(lim, reply.chunks, t, body, whole);
    if body.Ok? {
      EncodeIff(net, lim, item, reply, body.value, body.tally);
    }
  }

  lemma {:induction false} FreshBodyIff(
    lim: Limits, chunks: seq<Chunk>, t: Tally, body: Got<Bytes>, whole: Option<Bytes>)
    requires t.downloaded <= lim.downloaded <= USIZE_MAX
    requires body == ReadBody(lim, chunks, [], t) && whole == Whole(chunks)
    ensures body.Ok? <==>
      whole.Some? && |whole.value| <= MAX_SOURCE_BYTES && t.downloaded + |whole.value| <= lim.downloaded
    ensures body.Ok? ==> body.value == whole.value && body.tally == t.(downloaded := t.downloaded + |whole.value|)
  {
    ReadBodyIff(lim, chunks, [], t);
    if whole.Some? {
      assert [] + whole.value == whole.value;
    }
  }

  lemma {:induction false} EncodeIff(net: Net, lim: Limits, item: Value, reply: Reply, bytes: Bytes, t: Tally)
    requires |bytes| <= MAX_SOURCE_BYTES && t.materialized <= lim.materialized <= USIZE_MAX
    ensures Encode(net, lim, item, reply, bytes, t).Ok? <==>
      net.mediaType(item, reply, bytes).Some? && t.materialized + (|bytes| + 2) / 3 * 4 <= lim.materialized
  {
  }

  /** The first `k` chunks of a body have come, `n` bytes in all. */
  ghost predicate Came(chunks: seq<Chunk>, k: nat, n: nat) {
    k <= |chunks| && Whole(chunks[..k]).Some? && |Whole(chunks[..k]).value| == n
  }

  /** Why a body is given up with this error. */
  ghost predicate BodyEndsWith(lim: Limits, chunks: seq<Chunk>, sofar: nat, downloaded: nat, e: Error) {
    match e
    case ReadFailed => exists k :: 0 <= k < |chunks| && chunks[k].Broken?
    case SourceTooLarge => exists k, n :: Came(chunks, k, n) && sofar + n > MAX_SOURCE_BYTES
    case DownloadLimit => exists k, n :: Came(chunks, k, n) && downloaded + n > lim.downloaded
    case _ => false
  }

  lemma CameNext(chunks: seq<Chunk>, k: nat, n: nat)
    requires chunks != [] && chunks[0].Data? && Came(chunks[1..], k, n)
    ensures Came(chunks, k + 1, |chunks[0].bytes| + n)
  {
    assert chunks[..k + 1][1..] == chunks[1..][..k] && chunks[..k + 1][0] == chunks[0];
  }

  lemma CameFirst(chunks: seq<Chunk>)
    requires chunks != [] && chunks[0].Data?
    ensures Came(chunks, 1, |chunks[0].bytes|)
  {
    assert chunks[..1][1..] == [] && chunks[..1][0] == chunks[0];
  }

  lemma {:induction false} BodyErrorIs(lim: Limits, chunks: seq<Chunk>, sofar: Bytes, t: Tally)
    requires t.downloaded <= lim.downloaded && lim.downloaded + MAX_SOURCE_BYTES <= USIZE_MAX
    requires ReadBody(lim, chunks, sofar, t).Err?
    ensures BodyEndsWith(lim, chunks, |sofar|, t.downloaded, ReadBody(lim, chunks, sofar, t).error)
    decreases |chunks|
  {
    if chunks[0].Data? {
      var d := chunks[0].bytes;
      CameFirst(chunks);
      if |sofar| + |d| <= MAX_SOURCE_BYTES && t.downloaded + |d| <= lim.downloaded {
        BodyErrorIs(lim, chunks[1..], sofar + d, t.(downloaded := t.downloaded + |d|));
        BodyEndsLater(lim, chunks, |sofar|, t.downloaded, ReadBody(lim, chunks, sofar, t).error);
      }
    }
  }

  lemma BodyEndsLater(lim: Limits, chunks: seq<Chunk>, sofar: nat, downloaded: nat, e: Error)
    requires chunks != [] && chunks[0].Data?
    requires BodyEndsWith(lim, chunks[1..], sofar + |chunks[0].bytes|, downloaded + |chunks[0].bytes|, e)
    ensures BodyEndsWith(lim, chunks, sofar, downloaded, e)
  {
    match e
    case ReadFailed =>
      var k :| 0 <= k < |chunks[1..]| && chunks[1..][k].Broken?;
      assert chunks[k + 1].Broken?;
    case SourceTooLarge =>
      var k: nat, n: nat :| Came(chunks[1..], k, n) && sofar + |chunks[0].bytes| + n > MAX_SOURCE_BYTES;
      CameNext(chunks, k, n);
    case DownloadLimit =>
      var k: nat, n: nat :| Came(chunks[1..], k, n) && downloaded + |chunks[0].bytes| + n > lim.downloaded;
      CameNext(chunks, k, n);
    case _ =>
  }

  /** Why a reply is not made an inline source. */
  ghost predicate ReplyEndsWith(net: Net, lim: Limits, item: Value, reply: Reply, t: Tally, e: Error) {
    match e
    case Rejected => !net.safe(reply.finalUrl)
    case BadStatus => net.safe(reply.finalUrl) && !reply.success
    case UnsupportedMedia =>
      Whole(reply.chunks).Some? && net.mediaType(item, reply, Whole(reply.chunks).value).None?
    case MaterializedLimit =>
      && Whole(reply.chunks).Some?
      && t.materialized + (|Whole(reply.chunks).value| + 2) / 3 * 4 > lim.materialized
    case _ =>
      || BodyEndsWith(lim, reply.chunks, 0, t.downloaded, e)
      || (reply.contentLength.Some? && e == SourceTooLarge && reply.contentLength.value > MAX_SOURCE_BYTES)
      || (reply.contentLength.Some? && e == DownloadLimit
          && t.downloaded + reply.contentLength.value > lim.downloaded)
  }

  lemma AcceptErrorIs(net: Net, lim: Limits, item: Value, reply: Reply, t: Tally)
    requires Within(lim, t) && lim.downloaded + MAX_SOURCE_BYTES <= USIZE_MAX
    requires lim.materialized + 2 * MAX_SOURCE_BYTES <= USIZE_MAX && Accept(net, lim, item, reply, t).Err?
    ensures ReplyEndsWith(net, lim, item, reply, t, Accept(net, lim, item, reply, t).error)
  {
    if Refusal(net, lim, t, reply).None? {
      if ReadBody(lim, reply.chunks, [], t).Err? {
        BodyErrorIs(lim, reply.chunks, [], t);
      } else {
        ReadBodyIff(lim, reply.chunks, [], t);
        assert [] + Whole(reply.chunks).value == Whole(reply.chunks).value;
      }
    }
  }

  /** A download that fails says why: of an address on its way, or of the reply that leads to. */
  lemma FetchErrorIs(net: Net, lim: Limits, item: Value, url: string, t: Tally)
    requires Within(lim, t) && lim.downloaded + MAX_SOURCE_BYTES <= USIZE_MAX
    requires lim.materialized + 2 * MAX_SOURCE_BYTES <= USIZE_MAX && Fetch(net, lim, item, url, t).Err?
    ensures var (e, l) := (Fetch(net, lim, item, url, t).error, Leads(net, t.attempts, url, 0));
      || (exists k: nat, u: string :: WalkEnds(net, lim, t.attempts, url, k, u, e))
      || (l.Some? && ReplyEndsWith(net, lim, item, l.value.0, t, e))
  {
    WalkIff(net, lim, t, url, 0);
    if Walk(net, lim, t, url, 0).Err? {
      var e := Fetch(net, lim, item, url, t).error;
      var k, u := WalkErrorIs(net, lim, t, url, 0);
      assert WalkEnds(net, lim, t.attempts, url, k, u, e);
    } else {
      AcceptErrorIs(net, lim, item, Walk(net, lim, t, url, 0).value, Walk(net, lim, t, url, 0).tally);
    }
  }

  /** A download succeeds exactly when its address leads to a reply that can be made an inline source. */
  lemma FetchIff(net: Net, lim: Limits, item: Value, url: string, t: Tally)
    requires Within(lim, t) && lim.downloaded <= USIZE_MAX && lim.materialized <= USIZE_MAX
    ensures var l := Leads(net, t.attempts, url, 0);
      Fetch(net, lim, item, url, t).Ok? <==>
        && l.Some? && t.attempts + l.value.1 <= lim.attempts
        && Acceptable(net, lim, item, l.value.0, t)
  {
    WalkIff(net, lim, t, url, 0);
    var l := Leads(net, t.attempts, url, 0);
    if l.Some? && t.attempts + l.value.1 <= lim.attempts {
      AcceptIff(net, lim, item, l.value.0, t.(attempts := t.attempts + l.value.1));
    }
  }

  lemma InlineEncodes(mediaType: string, bytes: Bytes)
    ensures var source := Inline(mediaType, Base64(bytes));
      && source.fields.Keys == {"type", "media_type", "data"} && source.fields["type"] == Str("base64")
      && source.fields["media_type"] == Str(mediaType) && Encodes(Field(source, "data"), bytes)
  {
    EncodedLenIsExact(bytes);
    DecodedAgain(bytes);
  }

  lemma AcceptAccounts(net: Net, lim: Limits, item: Value, reply: Reply, t: Tally)
    requires Within(lim, t) && lim.downloaded <= USIZE_MAX && Accept(net, lim, item, reply, t).Ok?
    ensures var r := Accept(net, lim, item, reply, t);
      && Carries(net, item, reply, r.value) && Within(lim, r.tally) && r.tally.attempts == t.attempts
      && |Whole(reply.chunks).value| <= MAX_SOURCE_BYTES
      && Accounted(t, r.tally, Whole(reply.chunks).value)
  {
    ReadBodyIff(lim, reply.chunks, [], t);
    var bytes := Whole(reply.chunks).value;
    assert [] + bytes == bytes;
    InlineEncodes(net.mediaType(item, reply, bytes).value, bytes);
  }

  /** `source` holds what `url` led to when the `at`-th attempt of the request was made. */
  predicate Holds(net: Net, item: Value, url: string, source: Value, at: nat) {
    Leads(net, at, url, 0).Some? && Carries(net, item, Leads(net, at, url, 0).value.0, source)
  }

  /** A download yields what its address leads to, and charges the attempts, bytes and characters that took. */
  lemma FetchAccounts(net: Net, lim: Limits, item: Value, url: string, t: Tally)
    requires Within(lim, t) && lim.downloaded <= USIZE_MAX && Fetch(net, lim, item, url, t).Ok?
    ensures var (r, l) := (Fetch(net, lim, item, url, t), Leads(net, t.attempts, url, 0));
      && Holds(net, item, url, r.value, t.attempts) && Within(lim, r.tally)
      && r.tally.attempts == t.attempts + l.value.1 <= t.attempts + MAX_REDIRECTS + 1
      && |Whole(l.value.0.chunks).value| <= MAX_SOURCE_BYTES
      && Accounted(t, r.tally, Whole(l.value.0.chunks).value)
  {
    WalkIff(net, lim, t, url, 0);
    var w := Walk(net, lim, t, url, 0);
    AcceptAccounts(net, lim, item, w.value, w.tally);
  }

  // ----- The encoded total never reaches its limit -----

  /** With `m` sources written, the encoded total exceeds four thirds of the download by little. */
  predicate Tied(t: Tally, m: nat) {
    3 * t.materialized <= 4 * t.downloaded + 8 * m
  }

  predicate Ready(t: Tally, m: nat) {
    Within(DEFAULTS, t) && Tied(t, m)
  }

  predicate Charged<T>(r: Got<T>, m: nat) {
    match r
    case Ok(_, u) => Ready(u, m)
    case Err(e) => e !in {MaterializedLimit, Overflow, NoResponse, TooManySources}
  }

  lemma EncodeCharges(net: Net, item: Value, reply: Reply, bytes: Bytes, t: Tally, m: nat)
    requires Within(DEFAULTS, t) && m < MAX_SOURCES && |bytes| <= MAX_SOURCE_BYTES
    requires 3 * t.materialized + 4 * |bytes| <= 4 * t.downloaded + 8 * m
    ensures Charged(Encode(net, DEFAULTS, item, reply, bytes, t), m + 1)
  {
  }

  lemma FetchCharges(net: Net, item: Value, url: string, t: Tally, m: nat)
    requires Ready(t, m) && m < MAX_SOURCES
    ensures Charged(Fetch(net, DEFAULTS, item, url, t), m + 1)
  {
    WalkIff(net, DEFAULTS, t, url, 0);
    match Walk(net, DEFAULTS, t, url, 0)
    case Err(_) =>
    case Ok(reply, u) =>
      ReadBodyErrors(DEFAULTS, reply.chunks, [], u);
      ReadBodyIff(DEFAULTS, reply.chunks, [], u);
      match ReadBody(DEFAULTS, reply.chunks, [], u)
      case Err(_) =>
      case Ok(bytes, v) => EncodeCharges(net, item, reply, bytes, v, m);
  }

  /** `fill` writes at most `weight` sources. */
  ghost predicate Charges(fill: Filler, weight: Value -> nat) {
    forall x: Value, t: Tally, m: nat ::
      Ready(t, m) && m + weight(x) <= MAX_SOURCES ==> Charged(fill(x, t), m + weight(x))
  }

  lemma {:induction false} FillAllCharges(fill: Filler, weight: Value -> nat, items: seq<Value>, i: nat, t: Tally, m: nat)
    requires Charges(fill, weight) && i <= |items|
    requires Ready(t, m) && m + Sum(weight, items[i..]) <= MAX_SOURCES
    ensures Charged(FillAll(fill, items, i, t), m + Sum(weight, items[i..]))
    decreases |items| - i
  {
    if i < |items| {
      var x := items[i];
      assert items[i..][1..] == items[i + 1..];
      assert Charged(fill(x, t), m + weight(x));
      if fill(x, t).Ok? {
        var next := items[i := fill(x, t).value];
        assert next[i + 1..] == items[i + 1..];
        FillAllCharges(fill, weight, next, i + 1, fill(x, t).tally, m + weight(x));
      }
    }
  }

  lemma ItemFillerCharges(net: Net)
    ensures Charges(ItemFiller(net, DEFAULTS), One)
  {
    forall x: Value, t: Tally, m: nat | Ready(t, m) && m + One(x) <= MAX_SOURCES
      ensures Charged(ItemFiller(net, DEFAULTS)(x, t), m + One(x))
    {
      if IsRemote(x) {
        FetchCharges(net, x, SourceUrl(x).value, t, m);
      }
    }
  }

  lemma ItemPasserCharges(net: Net)
    ensures Charges(ItemPasser(net, DEFAULTS), ShallowItem)
  {
    ItemFillerCharges(net);
    forall x: Value, t: Tally, m: nat | Ready(t, m) && m + ShallowItem(x) <= MAX_SOURCES
      ensures Charged(ItemPasser(net, DEFAULTS)(x, t), m + ShallowItem(x))
    {
      match Nested(x)
      case None =>
        assert Charged(ItemFiller(net, DEFAULTS)(x, t), m + One(x));
      case Some(c) =>
        assert c.items[0..] == c.items;
        FillAllCharges(ItemFiller(net, DEFAULTS), One, c.items, 0, t, m);
    }
  }

  lemma ContentPasserCharges(net: Net)
    ensures Charges(ContentPasser(net, DEFAULTS), Shallow)
  {
    ItemPasserCharges(net);
    forall x: Value, t: Tally, m: nat | Ready(t, m) && m + Shallow(x) <= MAX_SOURCES
      ensures Charged(ContentPasser(net, DEFAULTS)(x, t), m + Shallow(x))
    {
      if x.Arr? {
        assert x.items[0..] == x.items;
        FillAllCharges(ItemPasser(net, DEFAULTS), ShallowItem, x.items, 0, t, m);
      }
    }
  }

  /** A request that passes the source count never fails for its encoded size, whatever the network does. */
  lemma EncodedLimitNeverFails(net: Net, contents: seq<Value>)
    requires Sum(CountContent, contents) <= MAX_SOURCES
    ensures var r := PassMessages(net, DEFAULTS, contents, Tally(0, 0, 0));
      && (r.Err? ==> r.error !in {MaterializedLimit, Overflow, NoResponse, TooManySources})
      && (r.Ok? ==> Within(DEFAULTS, r.tally) && r.tally.materialized < DEFAULTS.materialized)
  {
    forall x: Value ensures CountContent(x) == Shallow(x) + Deep(x) { CountSplits(x); }
    SumSplits(CountContent, Shallow, Deep, contents);
    ContentPasserCharges(net);
    assert contents[0..] == contents;
    FillAllCharges(ContentPasser(net, DEFAULTS), Shallow, contents, 0, Tally(0, 0, 0), 0);
  }

  // ----- What the pass changes -----

  /** A remote item gets what its own address led to; any other item stays as it is. */
  ghost predicate Filled(net: Net, x: Value, y: Value) {
    if exists url :: RemoteAt(x, url) then
      exists url, source: Value, at: nat ::
        RemoteAt(x, url) && Holds(net, x, url, source, at) && y == Obj(x.fields["source" := source])
    else y == x
  }

  /** So do the items of a tool result. */
  ghost predicate Passed(net: Net, x: Value, y: Value) {
    if exists items :: ToolResultOf(x, items) then
      exists before, after: seq<Value> ::
        ToolResultOf(x, before) && y == Obj(x.fields["content" := Arr(after)]) && AllFilled(net, before, after)
    else Filled(net, x, y)
  }

  ghost predicate AllFilled(net: Net, before: seq<Value>, after: seq<Value>) {
    |after| == |before| && forall j :: 0 <= j < |after| ==> Filled(net, before[j], after[j])
  }

  ghost predicate ContentPassed(net: Net, x: Value, y: Value) {
    if x.Arr? then
      y.Arr? && |y.items| == |x.items| && forall j :: 0 <= j < |y.items| ==> Passed(net, x.items[j], y.items[j])
    else y == x
  }

  /** `fill` relates each item it changes to the outcome by `rel`, as long as the tally is within limits. */
  ghost predicate Relates(fill: Filler, lim: Limits, rel: (Value, Value) -> bool) {
    forall x: Value, t: Tally :: Within(lim, t) && fill(x, t).Ok? ==>
      Within(lim, fill(x, t).tally) && rel(x, fill(x, t).value)
  }

  lemma {:induction false} FillAllRelates(
    fill: Filler, lim: Limits, rel: (Value, Value) -> bool, items: seq<Value>, i: nat, t: Tally)
    requires Relates(fill, lim, rel) && i <= |items| && Within(lim, t) && FillAll(fill, items, i, t).Ok?
    ensures var r := FillAll(fill, items, i, t);
      && Within(lim, r.tally) && |r.value| == |items| && r.value[..i] == items[..i]
      && forall j :: i <= j < |items| ==> rel(items[j], r.value[j])
    decreases |items| - i
  {
    if i < |items| {
      var x := items[i];
      var next := items[i := fill(x, t).value];
      FillAllRelates(fill, lim, rel, next, i + 1, fill(x, t).tally);
      var r := FillAll(fill, items, i, t).value;
      assert r[i] == r[..i + 1][i] == next[i];
      assert r[..i] == r[..i + 1][..i] == next[..i];
    }
  }

  lemma FillItemFills(net: Net, lim: Limits, x: Value, t: Tally)
    requires lim.downloaded <= USIZE_MAX && Within(lim, t) && FillItem(net, lim, x, t).Ok?
    ensures Within(lim, FillItem(net, lim, x, t).tally) && Filled(net, x, FillItem(net, lim, x, t).value)
  {
    RemoteIff(x);
    if IsRemote(x) {
      var url := SourceUrl(x).value;
      FetchAccounts(net, lim, x, url, t);
      FilledFrom(net, x, url, Fetch(net, lim, x, url, t).value, t.attempts);
    }
  }

  lemma FilledFrom(net: Net, x: Value, url: string, source: Value, at: nat)
    requires RemoteAt(x, url) && Holds(net, x, url, source, at)
    ensures Filled(net, x, Obj(x.fields["source" := source]))
  {
  }

  lemma ItemFillerRelates(net: Net, lim: Limits)
    requires lim.downloaded <= USIZE_MAX
    ensures Relates(ItemFiller(net, lim), lim, (x, y) => Filled(net, x, y))
  {
    forall x: Value, t: Tally | Within(lim, t) && ItemFiller(net, lim)(x, t).Ok?
      ensures Within(lim, ItemFiller(net, lim)(x, t).tally) && Filled(net, x, ItemFiller(net, lim)(x, t).value)
    {
      FillItemFills(net, lim, x, t);
    }
  }

  lemma PassItemPasses(net: Net, lim: Limits, x: Value, t: Tally)
    requires lim.downloaded <= USIZE_MAX && Within(lim, t) && PassItem(net, lim, x, t).Ok?
    ensures Within(lim, PassItem(net, lim, x, t).tally) && Passed(net, x, PassItem(net, lim, x, t).value)
  {
    RemoteIff(x);
    match Nested(x)
    case None => FillItemFills(net, lim, x, t);
    case Some(c) =>
      ItemFillerRelates(net, lim);
      FillAllRelates(ItemFiller(net, lim), lim, (x, y) => Filled(net, x, y), c.items, 0, t);
      var after := FillAll(ItemFiller(net, lim), c.items, 0, t).value;
      assert ToolResultOf(x, c.items) && AllFilled(net, c.items, after);
  }

  lemma ItemPasserRelates(net: Net, lim: Limits)
    requires lim.downloaded <= USIZE_MAX
    ensures Relates(ItemPasser(net, lim), lim, (x, y) => Passed(net, x, y))
  {
    forall x: Value, t: Tally | Within(lim, t) && ItemPasser(net, lim)(x, t).Ok?
      ensures Within(lim, ItemPasser(net, lim)(x, t).tally) && Passed(net, x, ItemPasser(net, lim)(x, t).value)
    {
      PassItemPasses(net, lim, x, t);
    }
  }

  lemma ContentPasserRelates(net: Net, lim: Limits)
    requires lim.downloaded <= USIZE_MAX
    ensures Relates(ContentPasser(net, lim), lim, (x, y) => ContentPassed(net, x, y))
  {
    ItemPasserRelates(net, lim);
    forall x: Value, t: Tally | Within(lim, t) && ContentPasser(net, lim)(x, t).Ok?
      ensures Within(lim, ContentPasser(net, lim)(x, t).tally)
           && ContentPassed(net, x, ContentPasser(net, lim)(x, t).value)
    {
      if x.Arr? {
        FillAllRelates(ItemPasser(net, lim), lim, (x, y) => Passed(net, x, y), x.items, 0, t);
      }
    }
  }

  lemma CarriedIsNotRemote(net: Net, item: Value, reply: Reply, x: Value, source: Value)
    requires Carries(net, item, reply, source) && x.Obj? && "type" in x.fields
    requires x.fields["type"] != Str("tool_result")
    ensures CountItem(Obj(x.fields["source" := source])) == 0
  {
    var y := Obj(x.fields["source" := source]);
    assert Nested(y) == None && SourceUrl(y) == None;
  }

  lemma FilledCounts(net: Net, x: Value, y: Value)
    requires Filled(net, x, y)
    ensures CountItem(y) == InnerItem(x)
  {
    RemoteIff(x);
    if IsRemote(x) {
      var url, source: Value, at: nat :|
        RemoteAt(x, url) && Holds(net, x, url, source, at) && y == Obj(x.fields["source" := source]);
      CarriedIsNotRemote(net, x, Leads(net, at, url, 0).value.0, x, source);
    }
  }

  lemma AllFilledCounts(net: Net, before: seq<Value>, after: seq<Value>)
    requires AllFilled(net, before, after)
    ensures CountFrom(Arr(after), 0) == Sum(InnerItem, before)
  {
    forall j | 0 <= j < |after| ensures CountItem(after[j]) == InnerItem(before[j]) {
      FilledCounts(net, before[j], after[j]);
    }
    CountIsSum(Arr(after), 0);
    assert after[0..] == after;
    SumsEqual(CountItem, after, InnerItem, before);
  }

  lemma PassedCounts(net: Net, x: Value, y: Value)
    requires Passed(net, x, y)
    ensures CountItem(y) == DeepItem(x)
  {
    RemoteIff(x);
    if exists items :: ToolResultOf(x, items) {
      var before, after: seq<Value> :|
        ToolResultOf(x, before) && y == Obj(x.fields["content" := Arr(after)]) && AllFilled(net, before, after);
      OneContent(x, before);
      OneContent(y, after);
      AllFilledCounts(net, before, after);
    } else {
      FilledCounts(net, x, y);
    }
  }

  lemma ContentPassedCounts(net: Net, x: Value, y: Value)
    requires ContentPassed(net, x, y)
    ensures CountContent(y) == Deep(x)
  {
    if x.Arr? {
      forall j | 0 <= j < |y.items| ensures CountItem(y.items[j]) == DeepItem(x.items[j]) {
        PassedCounts(net, x.items[j], y.items[j]);
      }
      CountIsSum(y, 0);
      assert y.items[0..] == y.items;
      SumsEqual(CountItem, y.items, DeepItem, x.items);
    }
  }

  /**
   A pass that succeeds changes only the sources of remote items at most one tool result deep, and what a
   second count still finds is exactly what lay deeper.
   */
  lemma PassReplacesShallowSources(net: Net, lim: Limits, contents: seq<Value>)
    requires lim.downloaded <= USIZE_MAX
    ensures var r := PassMessages(net, lim, contents, Tally(0, 0, 0));
      r.Ok? ==>
        && Within(lim, r.tally) && |r.value| == |contents|
        && (forall j :: 0 <= j < |contents| ==> ContentPassed(net, contents[j], r.value[j]))
        && Sum(CountContent, r.value) == Sum(Deep, contents)
        && Sum(CountContent, contents) == Sum(Shallow, contents) + Sum(CountContent, r.value)
  {
    var r := PassMessages(net, lim, contents, Tally(0, 0, 0));
    if r.Ok? {
      ContentPasserRelates(net, lim);
      FillAllRelates(ContentPasser(net, lim), lim, (x, y) => ContentPassed(net, x, y), contents, 0, Tally(0, 0, 0));
      forall j | 0 <= j < |contents| ensures CountContent(r.value[j]) == Deep(contents[j]) {
        ContentPassedCounts(net, contents[j], r.value[j]);
      }
      SumsEqual(CountContent, r.value, Deep, contents);
      forall x: Value ensures CountContent(x) == Shallow(x) + Deep(x) { CountSplits(x); }
      SumSplits(CountContent, Shallow, Deep, contents);
    }
  }

  // ----- Why a pass fails -----

  /** Within the limits, the download of some remote source ends with this error. */
  ghost predicate FetchFails(net: Net, lim: Limits, e: Error) {
    exists x, url, t :: RemoteAt(x, url) && Within(lim, t) && Fetch(net, lim, x, url, t) == Got<Value>.Err(e)
  }

  ghost predicate FailsAsFetch(fill: Filler, net: Net, lim: Limits) {
    forall x: Value, t: Tally :: Within(lim, t) ==>
      (if fill(x, t).Ok? then Within(lim, fill(x, t).tally) else FetchFails(net, lim, fill(x, t).error))
  }

  lemma {:induction false} FillAllFails(fill: Filler, net: Net, lim: Limits, items: seq<Value>, i: nat, t: Tally)
    requires FailsAsFetch(fill, net, lim) && i <= |items| && Within(lim, t)
    ensures var r := FillAll(fill, items, i, t);
      if r.Ok? then Within(lim, r.tally) else FetchFails(net, lim, r.error)
    decreases |items| - i
  {
    if i < |items| && fill(items[i], t).Ok? {
      FillAllFails(fill, net, lim, items[i := fill(items[i], t).value], i + 1, fill(items[i], t).tally);
    }
  }

  lemma FillItemFails(net: Net, lim: Limits)
    requires lim.downloaded <= USIZE_MAX
    ensures FailsAsFetch(ItemFiller(net, lim), net, lim)
  {
    forall x: Value, t: Tally | Within(lim, t)
      ensures var r := ItemFiller(net, lim)(x, t);
        if r.Ok? then Within(lim, r.tally) else FetchFails(net, lim, r.error)
    {
      RemoteIff(x);
      if FillItem(net, lim, x, t).Ok? {
        FillItemFills(net, lim, x, t);
      } else {
        assert Fetch(net, lim, x, SourceUrl(x).value, t).Err?;
      }
    }
  }

  lemma PassItemFails(net: Net, lim: Limits)
    requires lim.downloaded <= USIZE_MAX
    ensures FailsAsFetch(ItemPasser(net, lim), net, lim)
  {
    FillItemFails(net, lim);
    forall x: Value, t: Tally | Within(lim, t)
      ensures var r := ItemPasser(net, lim)(x, t);
        if r.Ok? then Within(lim, r.tally) else FetchFails(net, lim, r.error)
    {
      match Nested(x)
      case None => assert ItemPasser(net, lim)(x, t) == ItemFiller(net, lim)(x, t);
      case Some(c) => FillAllFails(ItemFiller(net, lim), net, lim, c.items, 0, t);
    }
  }

  lemma PassContentFails(net: Net, lim: Limits)
    requires lim.downloaded <= USIZE_MAX
    ensures FailsAsFetch(ContentPasser(net, lim), net, lim)
  {
    PassItemFails(net, lim);
    forall x: Value, t: Tally | Within(lim, t)
      ensures var r := ContentPasser(net, lim)(x, t);
        if r.Ok? then Within(lim, r.tally) else FetchFails(net, lim, r.error)
    {
      if x.Arr? {
        FillAllFails(ItemPasser(net, lim), net, lim, x.items, 0, t);
      }
    }
  }

  /** A pass fails only because some source cannot be downloaded within the limits, and with that error. */
  lemma PassFailsAsFetch(net: Net, lim: Limits, contents: seq<Value>)
    requires lim.downloaded <= USIZE_MAX
    ensures var r := PassMessages(net, lim, contents, Tally(0, 0, 0)); r.Err? ==> FetchFails(net, lim, r.error)
  {
    PassContentFails(net, lim);
    FillAllFails(ContentPasser(net, lim), net, lim, contents, 0, Tally(0, 0, 0));
  }

  function Picture(url: string): Value {
    Obj(map["type" := Str("image"), "source" := Obj(map["type" := Str("url"), "url" := Str(url)])])
  }

  function ToolResult(content: Value): Value {
    Obj(map["type" := Str("tool_result"), "content" := content])
  }

  lemma SingleItem(x: Value, f: Value -> nat)
    ensures CountFrom(Arr([x]), 0) == CountItem(x) && Sum(f, [x]) == f(x)
    ensures CountItem(ToolResult(Arr([x]))) == CountItem(x)
    ensures ShallowItem(ToolResult(Arr([x]))) == One(x)
  {
    assert Nested(ToolResult(Arr([x]))) == Some(Arr([x]));
    assert CountFrom(Arr([x]), 0) == CountItem(x) + CountFrom(Arr([x]), 1);
    assert Sum(One, [x]) == One(x) + Sum(One, [x][1..]);
  }

  /** A source two tool results deep is counted against the limit but not among those fetched. */
  lemma DeepSourceSurvives(url: string)
    requires !("data:" <= url)
    ensures var content := Arr([ToolResult(Arr([ToolResult(Arr([Picture(url)]))]))]);
      CountContent(content) == 1 && Shallow(content) == 0
  {
    var inner := ToolResult(Arr([Picture(url)]));
    SingleItem(Picture(url), One);
    SingleItem(inner, One);
    SingleItem(ToolResult(Arr([inner])), ShallowItem);
    assert IsRemote(Picture(url)) && Nested(Picture(url)) == None;
  }

  // ----- The budget object and the loops -----

  datatype Result<+T> = Done(value: T) | Failure(error: Error)

  /** A method's result and the budget it left behind are those the specification gives. */
  predicate Agrees<T(==)>(r: Result<T>, now: Tally, want: Got<T>) {
    match want
    case Ok(v, u) => r == Done(v) && now == u
    case Err(e) => r == Failure(e)
  }

  /** The new counts are those wanted; a refusal changes nothing. */
  predicate Reserved(r: Option<Error>, was: Tally, now: Tally, want: Got<nat>) {
    match want
    case Ok(_, u) => r == None && now == u
    case Err(e) => r == Some(e) && now == was
  }

  class RemoteMaterializationBudget {
    var downloadedBytes: nat
    var materializedBytes: nat
    var httpAttempts: nat
    const limits: Limits

    function Counts(): Tally
      reads this
    {
      Tally(downloadedBytes, materializedBytes, httpAttempts)
    }

    ghost predicate Valid()
      reads this
    {
      Within(limits, Counts())
    }

    constructor (limits: Limits)
      ensures this.limits == limits && Counts() == Tally(0, 0, 0) && Valid()
    {
      this.limits := limits;
      downloadedBytes, materializedBytes, httpAttempts := 0, 0, 0;
    }

    method ReserveHttpAttempt() returns (r: Option<Error>)
      requires Valid()
      modifies this
      ensures Valid() && Reserved(r, old(Counts()), Counts(), AddAttempt(limits, old(Counts())))
    {
      if httpAttempts >= limits.attempts { return Some(AttemptLimit); }
      httpAttempts := httpAttempts + 1;
      return None;
    }

    method ReserveDownloadedBytes(amount: nat) returns (r: Option<Error>)
      requires Valid()
      modifies this
      ensures Valid() && Reserved(r, old(Counts()), Counts(), AddDownloaded(limits, old(Counts()), amount))
    {
      if downloadedBytes + amount > USIZE_MAX { return Some(Overflow); }
      var next := downloadedBytes + amount;
      if next > limits.downloaded { return Some(DownloadLimit); }
      downloadedBytes := next;
      return None;
    }

    method ReserveMaterializedBytes(amount: nat) returns (r: Option<Error>)
      requires Valid()
      modifies this
      ensures Valid() && Reserved(r, old(Counts()), Counts(), AddMaterialized(limits, old(Counts()), amount))
    {
      if materializedBytes + amount > USIZE_MAX { return Some(Overflow); }
      var next := materializedBytes + amount;
      if next > limits.materialized { return Some(MaterializedLimit); }
      materializedBytes := next;
      return None;
    }
  }

  method ReadLimitedResponseBody(chunks: seq<Chunk>, budget: RemoteMaterializationBudget) returns (r: Result<Bytes>)
    requires budget.Valid()
    modifies budget
    ensures budget.Valid() && Agrees(r, budget.Counts(), ReadBody(budget.limits, chunks, [], old(budget.Counts())))
  {
    var bytes: Bytes, i := [], 0;
    while i < |chunks|
      invariant 0 <= i <= |chunks| && budget.Valid()
      invariant ReadBody(budget.limits, chunks, [], old(budget.Counts()))
             == ReadBody(budget.limits, chunks[i..], bytes, budget.Counts())
    {
      if chunks[i].Broken? { return Failure(ReadFailed); }
      var chunk := chunks[i].bytes;
      if |bytes| + |chunk| > MAX_SOURCE_BYTES { return Failure(SourceTooLarge); }
      var refused := budget.ReserveDownloadedBytes(|chunk|);
      if refused.Some? { return Failure(refused.value); }
      assert chunks[i..][1..] == chunks[i + 1..];
      bytes := bytes + chunk;
      i := i + 1;
    }
    return Done(bytes);
  }

  /** Follows redirects; the loop never ends without a reply or an error of its own. */
  method FollowRedirects(net: Net, url: string, budget: RemoteMaterializationBudget) returns (r: Result<Reply>)
    requires budget.Valid()
    modifies budget
    ensures budget.Valid() && Agrees(r, budget.Counts(), Walk(net, budget.limits, old(budget.Counts()), url, 0))
  {
    var currentUrl, response, redirectCount := url, None, 0;
    while redirectCount <= MAX_REDIRECTS && response == None
      invariant redirectCount <= MAX_REDIRECTS + 1 && budget.Valid()
      invariant redirectCount == MAX_REDIRECTS + 1 ==> response.Some?
      invariant Walk(net, budget.limits, old(budget.Counts()), url, 0)
             == match response
                case Some(reply) => Ok(reply, budget.Counts())
                case None => Walk(net, budget.limits, budget.Counts(), currentUrl, redirectCount)
      decreases MAX_REDIRECTS + 1 - redirectCount
    {
      if !net.safe(currentUrl) { return Failure(Rejected); }
      var at := budget.httpAttempts;
      var refused := budget.ReserveHttpAttempt();
      if refused.Some? { return Failure(refused.value); }
      match net.get(at, currentUrl) {
        case Failed => return Failure(SendFailed);
        case Answer(reply) => response := Some(reply);
        case Redirect(location) =>
          if redirectCount >= MAX_REDIRECTS { return Failure(TooManyRedirects); }
          if location == None { return Failure(BadRedirect); }
          currentUrl := location.value;
      }
      redirectCount := redirectCount + 1;
    }
    return Done(response.value);
  }

  method DownloadSource(net: Net, item: Value, url: string, budget: RemoteMaterializationBudget)
    returns (r: Result<Value>)
    requires budget.Valid()
    modifies budget
    ensures budget.Valid() && Agrees(r, budget.Counts(), Fetch(net, budget.limits, item, url, old(budget.Counts())))
  {
    var response := FollowRedirects(net, url, budget);
    if response.Failure? { return Failure(response.error); }
    var reply := response.value;
    if !net.safe(reply.finalUrl) { return Failure(Rejected); }
    if !reply.success { return Failure(BadStatus); }
    if reply.contentLength.Some? {
      if reply.contentLength.value > MAX_SOURCE_BYTES { return Failure(SourceTooLarge); }
      if budget.downloadedBytes + reply.contentLength.value > budget.limits.downloaded {
        return Failure(DownloadLimit);
      }
    }
    var body := ReadLimitedResponseBody(reply.chunks, budget);
    if body.Failure? { return Failure(body.error); }
    var mediaType := net.mediaType(item, reply, body.value);
    if mediaType == None { return Failure(UnsupportedMedia); }
    var encodedLen := EncodedLen(|body.value|);
    if encodedLen == None { return Failure(Overflow); }
    var refused := budget.ReserveMaterializedBytes(encodedLen.value);
    if refused.Some? { return Failure(refused.value); }
    return Done(Inline(mediaType.value, Base64(body.value)));
  }

  method MaterializeItem(net: Net, item: Value, budget: RemoteMaterializationBudget) returns (r: Result<Value>, n: nat)
    requires budget.Valid()
    modifies budget
    ensures budget.Valid() && Agrees(r, budget.Counts(), FillItem(net, budget.limits, item, old(budget.Counts())))
    ensures r.Done? ==> n == One(item)
  {
    if !IsRemote(item) { return Done(item), 0; }
    var source := DownloadSource(net, item, SourceUrl(item).value, budget);
    if source.Failure? { return Failure(source.error), 0; }
    return Done(WithSource(item, source.value)), 1;
  }

  method MaterializeNested(net: Net, content: seq<Value>, budget: RemoteMaterializationBudget)
    returns (r: Result<seq<Value>>, n: nat)
    requires budget.Valid()
    modifies budget
    ensures budget.Valid()
    ensures Agrees(r, budget.Counts(), FillAll(ItemFiller(net, budget.limits), content, 0, old(budget.Counts())))
    ensures r.Done? ==> n == Sum(One, content)
  {
    var items, i := content, 0;
    n := 0;
    assert content[0..] == content;
    while i < |items|
      invariant 0 <= i <= |items| == |content| && items[i..] == content[i..] && budget.Valid()
      invariant n + Sum(One, content[i..]) == Sum(One, content)
      invariant FillAll(ItemFiller(net, budget.limits), content, 0, old(budget.Counts()))
             == FillAll(ItemFiller(net, budget.limits), items, i, budget.Counts())
    {
      assert items[i] == items[i..][0] == content[i] && content[i..][1..] == content[i + 1..];
      var item, k := MaterializeItem(net, items[i], budget);
      if item.Failure? { return Failure(item.error), n; }
      n := n + k;
      assert items[i..][1..] == items[i + 1..];
      items := items[i := item.value];
      i := i + 1;
    }
    return Done(items), n;
  }

  method MaterializeContentItem(net: Net, item: Value, budget: RemoteMaterializationBudget)
    returns (r: Result<Value>, n: nat)
    requires budget.Valid()
    modifies budget
    ensures budget.Valid() && Agrees(r, budget.Counts(), PassItem(net, budget.limits, item, old(budget.Counts())))
    ensures r.Done? ==> n == ShallowItem(item)
  {
    match Nested(item)
    case None => r, n := MaterializeItem(net, item, budget);
    case Some(c) =>
      var items, k := MaterializeNested(net, c.items, budget);
      if items.Failure? { return Failure(items.error), 0; }
      return Done(Obj(item.fields["content" := Arr(items.value)])), k;
  }

  method MaterializeContentSources(net: Net, content: Value, budget: RemoteMaterializationBudget)
    returns (r: Result<Value>, n: nat)
    requires budget.Valid()
    modifies budget
    ensures budget.Valid() && Agrees(r, budget.Counts(), PassContent(net, budget.limits, content, old(budget.Counts())))
    ensures r.Done? ==> n == Shallow(content)
  {
    if !content.Arr? { return Done(content), 0; }
    var items, i := content.items, 0;
    n := 0;
    assert items[0..] == items;
    while i < |items|
      invariant 0 <= i <= |items| == |content.items| && items[i..] == content.items[i..] && budget.Valid()
      invariant n + Sum(ShallowItem, content.items[i..]) == Sum(ShallowItem, content.items)
      invariant FillAll(ItemPasser(net, budget.limits), content.items, 0, old(budget.Counts()))
             == FillAll(ItemPasser(net, budget.limits), items, i, budget.Counts())
    {
      assert items[i] == items[i..][0] == content.items[i] && content.items[i..][1..] == content.items[i + 1..];
      var item, k := MaterializeContentItem(net, items[i], budget);
      if item.Failure? { return Failure(item.error), n; }
      n := n + k;
      assert items[i..][1..] == items[i + 1..];
      items := items[i := item.value];
      i := i + 1;
    }
    return Done(Arr(items)), n;
  }

  datatype Outcome = Outcome(contents: seq<Value>, materializedSources: nat, tally: Tally)

  function Total(contents: seq<Value>): nat {
    Sum(CountContent, contents)
  }

  method MaterializeMessages(net: Net, contents: seq<Value>, budget: RemoteMaterializationBudget)
    returns (r: Result<seq<Value>>, n: nat)
    requires budget.Valid()
    modifies budget
    ensures budget.Valid() && Agrees(r, budget.Counts(), PassMessages(net, budget.limits, contents, old(budget.Counts())))
    ensures r.Done? ==> n == Sum(Shallow, contents)
  {
    var items, i := contents, 0;
    n := 0;
    assert contents[0..] == contents;
    while i < |items|
      invariant 0 <= i <= |items| == |contents| && items[i..] == contents[i..] && budget.Valid()
      invariant n + Sum(Shallow, contents[i..]) == Sum(Shallow, contents)
      invariant FillAll(ContentPasser(net, budget.limits), contents, 0, old(budget.Counts()))
             == FillAll(ContentPasser(net, budget.limits), items, i, budget.Counts())
    {
      assert items[i] == items[i..][0] == contents[i] && contents[i..][1..] == contents[i + 1..];
      var item, k := MaterializeContentSources(net, items[i], budget);
      if item.Failure? { return Failure(item.error), n; }
      n := n + k;
      assert items[i..][1..] == items[i + 1..];
      items := items[i := item.value];
      i := i + 1;
    }
    return Done(items), n;
  }

  /**
   The whole workflow.  Nothing to fetch leaves the request alone; too many sources refuse it; otherwise it
   fails only for the network's reasons or the download and attempt limits, and on success reports as many
   sources as were replaced.
   */
  method MaterializeRemoteMultimodalSources(net: Net, contents: seq<Value>) returns (r: Result<Option<Outcome>>)
    ensures r == Done(None) <==> Total(contents) == 0
    ensures r == Failure(TooManySources) <==> Total(contents) > MAX_SOURCES
    ensures r.Failure? ==> r.error != MaterializedLimit && r.error != Overflow && r.error != NoResponse
    ensures r.Failure? && r.error != TooManySources ==> FetchFails(net, DEFAULTS, r.error)
    ensures r.Done? && r.value.Some? ==>
      var o := r.value.value;
      && PassMessages(net, DEFAULTS, contents, Tally(0, 0, 0)) == Ok(o.contents, o.tally)
      && o.materializedSources + Total(o.contents) == Total(contents)
      && |o.contents| == |contents|
      && (forall j :: 0 <= j < |contents| ==> ContentPassed(net, contents[j], o.contents[j]))
      && Within(DEFAULTS, o.tally)
    ensures 0 < Total(contents) <= MAX_SOURCES ==>
      (r.Done? <==> PassMessages(net, DEFAULTS, contents, Tally(0, 0, 0)).Ok?)
  {
    var count := Total(contents);
    if count == 0 { return Done(None); }
    if count > MAX_SOURCES { return Failure(TooManySources); }
    EncodedLimitNeverFails(net, contents);
    PassReplacesShallowSources(net, DEFAULTS, contents);
    PassFailsAsFetch(net, DEFAULTS, contents);
    var budget := new RemoteMaterializationBudget(DEFAULTS);
    var pass, n := MaterializeMessages(net, contents, budget);
    if pass.Failure? { return Failure(pass.error); }
    return Done(Some(Outcome(pass.value, n, budget.Counts())));
  }
}
