/**
 Event-stream frames: a twelve-byte prelude (total length, header length, checksum of both), headers,
 payload, and a checksum of everything before it.  `DecodeAll` specifies the traffic decoder's
 `decode_aws_eventstream`.  The checksum is any function of the bytes.
 */
module EventStreamFrames {
  import opened Bytes
  import opened EventStreamHeaders

  type U32 = n: nat | n < 0x1_0000_0000
  type Crc = Bytes -> U32

  /** A frame with its header bytes as transmitted. */
  datatype Frame = Frame(headers: Bytes, payload: Bytes)

  function TotalLength(f: Frame): nat {
    16 + |f.headers| + |f.payload|
  }

  predicate Encodable(f: Frame) {
    TotalLength(f) < 0x1_0000_0000
  }

  // ----- Encoding -----

  /** The eight bytes the first checksum covers. */
  function Lengths(f: Frame): (s: Bytes)
    requires Encodable(f)
    ensures |s| == 8
  {
    Be32(TotalLength(f)) + Be32(|f.headers|)
  }

  /** Everything the second checksum covers. */
  function Message(crc: Crc, f: Frame): (s: Bytes)
    requires Encodable(f)
    ensures |s| == TotalLength(f) - 4
  {
    Lengths(f) + Be32(crc(Lengths(f))) + f.headers + f.payload
  }

  function EncodeFrame(crc: Crc, f: Frame): (s: Bytes)
    requires Encodable(f)
    ensures |s| == TotalLength(f)
  {
    Message(crc, f) + Be32(crc(Message(crc, f)))
  }

  predicate AllEncodable(fs: seq<Frame>) {
    forall i :: 0 <= i < |fs| ==> Encodable(fs[i])
  }

  /** The frames one after the other, followed by `k`. */
  function EncodeFrames(crc: Crc, fs: seq<Frame>, k: Bytes): Bytes
    requires AllEncodable(fs)
  {
    if fs == [] then k else EncodeFrame(crc, fs[0]) + EncodeFrames(crc, fs[1..], k)
  }

  // ----- The fields of a buffer that starts with a frame -----

  /** The frame cut out of the first `total` bytes, whatever its checksums. */
  function FrameOf(s: Bytes, total: nat, headerLength: nat): Frame
    requires 16 <= total <= |s| && 12 + headerLength <= total - 4
  {
    Frame(s[12..12 + headerLength], s[12 + headerLength..total - 4])
  }

  /** `s` starts with a frame: both lengths agree with the bytes and both checksums are right. */
  predicate StartsFrame(crc: Crc, s: Bytes, total: nat, headerLength: nat) {
    && 16 <= total <= |s| && 12 + headerLength <= total - 4
    && Read32(s[..4]) == total && Read32(s[4..8]) == headerLength
    && Read32(s[8..12]) == crc(s[..8])
    && Read32(s[total - 4..total]) == crc(s[..total - 4])
  }

  lemma MessageFields(crc: Crc, f: Frame, k: Bytes)
    requires Encodable(f)
    ensures var m, h := Message(crc, f) + k, |f.headers|;
            && m[..4] == Be32(TotalLength(f)) && m[4..8] == Be32(h)
            && m[..8] == Lengths(f) && m[8..12] == Be32(crc(Lengths(f)))
            && m[12..12 + h] == f.headers && m[12 + h..TotalLength(f) - 4] == f.payload
            && m[..TotalLength(f) - 4] == Message(crc, f)
  {
    var m, h := Message(crc, f) + k, |f.headers|;
    assert m[..8] == Lengths(f);
    assert m[..4] == Lengths(f)[..4] && m[4..8] == Lengths(f)[4..8];
  }

  lemma EncodedStartsFrame(crc: Crc, f: Frame, k: Bytes)
    requires Encodable(f)
    ensures var s := EncodeFrame(crc, f) + k;
            && StartsFrame(crc, s, TotalLength(f), |f.headers|)
            && s[12..12 + |f.headers|] == f.headers && s[12 + |f.headers|..TotalLength(f) - 4] == f.payload
            && FrameOf(s, TotalLength(f), |f.headers|) == f
            && s[TotalLength(f)..] == k
  {
    var s, total := EncodeFrame(crc, f) + k, TotalLength(f);
    var tail := Be32(crc(Message(crc, f)));
    assert s == Message(crc, f) + (tail + k);
    MessageFields(crc, f, tail + k);
    assert s[total - 4..total] == tail;
    Read32Be32(total);
    Read32Be32(|f.headers|);
    Read32Be32(crc(Lengths(f)));
    Read32Be32(crc(Message(crc, f)));
  }

  lemma StartsFrameIsEncoded(crc: Crc, s: Bytes, total: nat, headerLength: nat)
    requires StartsFrame(crc, s, total, headerLength)
    ensures var f := FrameOf(s, total, headerLength);
            Encodable(f) && TotalLength(f) == total && EncodeFrame(crc, f) + s[total..] == s
  {
    var f := FrameOf(s, total, headerLength);
    Be32Read32(s[..4]);
    Be32Read32(s[4..8]);
    Be32Read32(s[8..12]);
    Be32Read32(s[total - 4..total]);
    assert s[..8] == s[..4] + s[4..8] == Lengths(f);
    SplitMessage(s, total, headerLength);
    assert s[..total - 4] == Message(crc, f);
    assert s == s[..total - 4] + s[total - 4..total] + s[total..];
  }

  lemma SplitMessage(s: Bytes, total: nat, headerLength: nat)
    requires 16 <= total <= |s| && 12 + headerLength <= total - 4
    ensures s[..total - 4] == s[..8] + s[8..12] + s[12..12 + headerLength] + s[12 + headerLength..total - 4]
  {
  }

  // ----- The traffic decoder -----

  datatype DecodeError = ShortTail | BadLength | PreludeCrc | MessageCrc | HeaderOverrun

  datatype Step = Done(frame: Frame, rest: Bytes) | Bad(error: DecodeError)

  function DecodeOne(crc: Crc, s: Bytes): (r: Step)
    ensures r.Done? ==> |r.rest| + 16 <= |s|
  {
    if |s| < 16 then Bad(ShortTail)
    else
      var total, headerLength := Read32(s[..4]), Read32(s[4..8]);
      if total < 16 || total > |s| then Bad(BadLength)
      else if Read32(s[8..12]) != crc(s[..8]) then Bad(PreludeCrc)
      else if Read32(s[total - 4..total]) != crc(s[..total - 4]) then Bad(MessageCrc)
      else if 12 + headerLength > total - 4 then Bad(HeaderOverrun)
      else Done(FrameOf(s, total, headerLength), s[total..])
  }

  /** Why a frame is refused: the first of these checks that it fails. */
  lemma DecodeErrorIs(crc: Crc, s: Bytes)
    ensures DecodeOne(crc, s) == Bad(ShortTail) <==> |s| < 16
    ensures DecodeOne(crc, s) == Bad(BadLength) <==> |s| >= 16 && !(16 <= Read32(s[..4]) <= |s|)
    ensures |s| >= 16 && 16 <= Read32(s[..4]) <= |s| ==>
      var (r, m) := (DecodeOne(crc, s), s[..Read32(s[..4])]);
      var prelude := Read32(m[8..12]) == crc(m[..8]);
      var whole := Read32(m[|m| - 4..]) == crc(m[..|m| - 4]);
      && (r == Bad(PreludeCrc) <==> !prelude)
      && (r == Bad(MessageCrc) <==> prelude && !whole)
      && (r == Bad(HeaderOverrun) <==> prelude && whole && Read32(m[4..8]) > |m| - 16)
  {
    if |s| >= 16 && 16 <= Read32(s[..4]) <= |s| {
      var m := s[..Read32(s[..4])];
      assert m[8..12] == s[8..12] && m[..8] == s[..8] && m[4..8] == s[4..8];
      assert m[|m| - 4..] == s[|m| - 4..|m|] && m[..|m| - 4] == s[..|m| - 4];
    }
  }

  /** The frames decoded in order, and why decoding stopped if it did not reach the end. */
  function DecodeAll(crc: Crc, s: Bytes): (seq<Frame>, Option<DecodeError>)
    decreases |s|
  {
    if s == [] then ([], None)
    else
      match DecodeOne(crc, s)
      case Bad(e) => ([], Some(e))
      case Done(f, rest) =>
        var (fs, e) := DecodeAll(crc, rest);
        ([f] + fs, e)
  }

  lemma DecodeEncoded(crc: Crc, f: Frame, k: Bytes)
    requires Encodable(f)
    ensures DecodeOne(crc, EncodeFrame(crc, f) + k) == Done(f, k)
  {
    EncodedStartsFrame(crc, f, k);
  }

  lemma DecodedIsEncoded(crc: Crc, s: Bytes)
    requires DecodeOne(crc, s).Done?
    ensures var r := DecodeOne(crc, s); Encodable(r.frame) && EncodeFrame(crc, r.frame) + r.rest == s
  {
    StartsFrameIsEncoded(crc, s, Read32(s[..4]), Read32(s[4..8]));
  }

  lemma ConsFrames(fs: seq<Frame>, tail: seq<Frame>)
    requires fs != []
    ensures [fs[0]] + (fs[1..] + tail) == fs + tail
  {
  }

  lemma {:induction false} DecodeThrough(crc: Crc, fs: seq<Frame>, k: Bytes)
    requires AllEncodable(fs)
    ensures DecodeAll(crc, EncodeFrames(crc, fs, k)).0 == fs + DecodeAll(crc, k).0
    ensures DecodeAll(crc, EncodeFrames(crc, fs, k)).1 == DecodeAll(crc, k).1
    decreases |fs|
  {
    if fs != [] {
      DecodeThrough(crc, fs[1..], k);
      DecodeEncoded(crc, fs[0], EncodeFrames(crc, fs[1..], k));
      ConsFrames(fs, DecodeAll(crc, k).0);
    }
  }

  /** Any frames, encoded and concatenated, are decoded to exactly those frames without an error. */
  lemma FramesRoundTrip(crc: Crc, fs: seq<Frame>)
    requires AllEncodable(fs)
    ensures DecodeAll(crc, EncodeFrames(crc, fs, [])) == (fs, None)
  {
    DecodeThrough(crc, fs, []);
    assert fs + [] == fs;
  }

  /** Conversely the frames decoded from any bytes re-encode to the bytes consumed. */
  lemma {:induction false} DecodedAreEncoded(crc: Crc, s: Bytes) returns (rest: Bytes)
    ensures AllEncodable(DecodeAll(crc, s).0)
    ensures s == EncodeFrames(crc, DecodeAll(crc, s).0, rest)
    ensures DecodeAll(crc, s).1 == None <==> rest == []
    ensures rest != [] ==> DecodeOne(crc, rest) == Bad(DecodeAll(crc, s).1.value)
    decreases |s|
  {
    rest := s;
    if s != [] && DecodeOne(crc, s).Done? {
      DecodedIsEncoded(crc, s);
      rest := DecodedAreEncoded(crc, DecodeOne(crc, s).rest);
      assert DecodeAll(crc, s).0[1..] == DecodeAll(crc, DecodeOne(crc, s).rest).0;
    }
  }

  lemma {:induction false} EncodeFramesAppend(crc: Crc, fs: seq<Frame>, k: Bytes, more: Bytes)
    requires AllEncodable(fs)
    ensures EncodeFrames(crc, fs, k) + more == EncodeFrames(crc, fs, k + more)
    decreases |fs|
  {
    if fs != [] {
      EncodeFramesAppend(crc, fs[1..], k, more);
      var a, b := EncodeFrame(crc, fs[0]), EncodeFrames(crc, fs[1..], k);
      assert (a + b) + more == a + (b + more);
    }
  }

  lemma DecodeMore(crc: Crc, s: Bytes, more: Bytes, whole: Bytes)
    requires whole == s + more
    ensures DecodeAll(crc, s).0 <= DecodeAll(crc, whole).0
  {
    var rest := DecodedAreEncoded(crc, s);
    var fs := DecodeAll(crc, s).0;
    EncodeFramesAppend(crc, fs, rest, more);
    DecodeThrough(crc, fs, rest + more);
  }

  lemma CutAnywhere(s: Bytes, n: nat)
    requires n <= |s|
    ensures s == s[..n] + s[n..]
  {
  }

  /** Decoding a truncation yields a prefix of the frames. */
  lemma TruncationYieldsPrefix(crc: Crc, s: Bytes, n: nat)
    requires n <= |s|
    ensures DecodeAll(crc, s[..n]).0 <= DecodeAll(crc, s).0
  {
    CutAnywhere(s, n);
    DecodeMore(crc, s[..n], s[n..], s);
  }

  /** What the decoder reports of a frame. */
  datatype Record = Record(index: nat, bytes: nat, headers: map<string, HeaderValue>, payload: Bytes)

  function RecordOf(text: Bytes -> string, index: nat, f: Frame): Record {
    Record(index, TotalLength(f), Dictionary(text, ReadHeaders(f.headers).0), f.payload)
  }

  lemma DecodeAppend(crc: Crc, fs: seq<Frame>, s: Bytes)
    requires s != [] && DecodeOne(crc, s).Done?
    ensures var r := DecodeOne(crc, s);
            fs + DecodeAll(crc, s).0 == (fs + [r.frame]) + DecodeAll(crc, r.rest).0
    ensures DecodeAll(crc, s).1 == DecodeAll(crc, DecodeOne(crc, s).rest).1
  {
  }

  lemma PartOfRest(body: Bytes, offset: nat, s: Bytes, i: nat, j: nat)
    requires offset <= |body| && s == body[offset..] && i <= j <= |s|
    ensures s[i..j] == body[offset + i..offset + j]
  {
  }

  /** The prelude read at an offset. */
  lemma PreludeAt(body: Bytes, offset: nat, s: Bytes)
    requires offset <= |body| && s == body[offset..] && 16 <= |s|
    ensures s[..4] == body[offset..offset + 4] && s[4..8] == body[offset + 4..offset + 8]
    ensures s[8..12] == body[offset + 8..offset + 12] && s[..8] == body[offset..offset + 8]
  {
    PartOfRest(body, offset, s, 0, 4);
    PartOfRest(body, offset, s, 4, 8);
    PartOfRest(body, offset, s, 8, 12);
    PartOfRest(body, offset, s, 0, 8);
  }

  /** What the message checksum is taken of, and the checksum, at an offset. */
  lemma ChecksumAt(body: Bytes, offset: nat, s: Bytes, total: nat)
    requires offset <= |body| && s == body[offset..] && 16 <= total <= |s|
    ensures s[..total - 4] == body[offset..offset + total - 4]
    ensures s[total - 4..total] == body[offset + total - 4..offset + total]
    ensures s[total..] == body[offset + total..]
  {
    PartOfRest(body, offset, s, 0, total - 4);
    PartOfRest(body, offset, s, total - 4, total);
  }

  /** The frame cut out at an offset. */
  lemma FrameAt(body: Bytes, offset: nat, s: Bytes, total: nat, headersEnd: nat)
    requires offset <= |body| && s == body[offset..] && 16 <= total <= |s|
    requires 12 <= headersEnd - offset <= total - 4
    ensures FrameOf(s, total, headersEnd - offset - 12)
         == Frame(body[offset + 12..headersEnd], body[headersEnd..offset + total - 4])
  {
    PartOfRest(body, offset, s, 12, headersEnd - offset);
    PartOfRest(body, offset, s, headersEnd - offset, total - 4);
  }

  /** One turn of the loop, on the buffer and the offset. */
  method DecodeAt(crc: Crc, body: Bytes, offset: nat) returns (r: Step, next: nat)
    requires offset < |body|
    ensures r == DecodeOne(crc, body[offset..])
    ensures r.Done? ==> next == offset + TotalLength(r.frame) <= |body| && r.rest == body[next..]
    ensures offset <= next
  {
    next := offset;
    ghost var s := body[offset..];
    var remaining := |body| - offset;
    if remaining < 16 {
      return Bad(ShortTail), next;
    }
    PreludeAt(body, offset, s);
    var total := Read32(body[offset..offset + 4]);
    var headerLength := Read32(body[offset + 4..offset + 8]);
    var preludeCrc := Read32(body[offset + 8..offset + 12]);
    if total < 16 || total > remaining {
      return Bad(BadLength), next;
    }
    var frameEnd := offset + total;
    ChecksumAt(body, offset, s, total);
    var messageCrc := Read32(body[frameEnd - 4..frameEnd]);
    if preludeCrc != crc(body[offset..offset + 8]) {
      return Bad(PreludeCrc), next;
    }
    if messageCrc != crc(body[offset..frameEnd - 4]) {
      return Bad(MessageCrc), next;
    }
    var headersEnd := offset + 12 + headerLength;
    if headersEnd > frameEnd - 4 {
      return Bad(HeaderOverrun), next;
    }
    FrameAt(body, offset, s, total, headersEnd);
    r := Done(Frame(body[offset + 12..headersEnd], body[headersEnd..frameEnd - 4]), body[frameEnd..]);
    next := frameEnd;
  }

  /** `decode_aws_eventstream`; every turn consumes at least sixteen bytes. */
  method DecodeAwsEventstream(crc: Crc, text: Bytes -> string, body: Bytes)
    returns (records: seq<Record>, error: Option<DecodeError>)
    ensures |records| == |DecodeAll(crc, body).0| && error == DecodeAll(crc, body).1
    ensures forall i :: 0 <= i < |records| ==>
              var f := DecodeAll(crc, body).0[i];
              && records[i].index == i + 1 && records[i].bytes == 16 + |f.headers| + |f.payload|
              && records[i].headers == Dictionary(text, ReadHeaders(f.headers).0) && records[i].payload == f.payload
  {
    records, error := [], None;
    ghost var fs: seq<Frame> := [];
    var offset := 0;
    assert body[0..] == body;
    while offset < |body|
      invariant 0 <= offset <= |body|
      invariant DecodeAll(crc, body).0 == fs + DecodeAll(crc, body[offset..]).0
      invariant DecodeAll(crc, body).1 == DecodeAll(crc, body[offset..]).1
      invariant |records| == |fs|
      invariant forall i :: 0 <= i < |records| ==> records[i] == RecordOf(text, i + 1, fs[i])
    {
      var r, next := DecodeAt(crc, body, offset);
      if r.Bad? {
        error := Some(r.error);
        assert fs + [] == fs;
        return;
      }
      DecodeAppend(crc, fs, body[offset..]);
      var headers := HeaderValues(text, r.frame.headers);
      records := records + [Record(|records| + 1, next - offset, headers, r.frame.payload)];
      fs := fs + [r.frame];
      offset := next;
    }
    assert fs + [] == fs;
  }
}
