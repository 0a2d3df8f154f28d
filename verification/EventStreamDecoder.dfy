/** The streaming response decoder: the frame parser and the decoder object. */
module EventStreamDecoder {
  import opened Bytes
  import opened EventStreamHeaders
  import opened EventStreamFrames
  import opened StreamingDecoder

  const MAX_MESSAGE_SIZE := 16 * 1024 * 1024

  /** A decoded frame: its headers in order and its payload. */
  datatype Event = Event(headers: seq<Header>, payload: Bytes)

  function HeaderFailure(e: HeaderError): ParseError {
    match e
    case EmptyName => HeaderParseFailed
    case Truncated => Incomplete
    case UnknownType => InvalidHeaderType
  }

  /** The verdict on a whole message whose checksums are right. */
  function ParseContent(m: Bytes, headerLength: nat): (r: ParseResult<Event>)
    requires |m| >= 16
    ensures r != NeedMore
    ensures r.Parsed? ==> r.consumed == |m|
    ensures r.Failed? ==> r.error !in {MessageTooLarge, MessageTooSmall}
  {
    if 12 + headerLength > |m| - 4 then Failed(HeaderParseFailed)
    else
      var (headers, e) := ReadHeaders(m[12..12 + headerLength]);
      if e.Some? then Failed(HeaderFailure(e.value))
      else Parsed(Event(headers, m[12 + headerLength..|m| - 4]), |m|)
  }

  /** The verdict on the bytes `m` of one whole message. */
  function ParseMessage(crc: Crc, m: Bytes): (r: ParseResult<Event>)
    requires |m| >= 16
    ensures r != NeedMore
    ensures r.Parsed? ==> r.consumed == |m|
    ensures r.Failed? ==> r.error !in {MessageTooLarge, MessageTooSmall}
  {
    if crc(m[..8]) != Read32(m[8..12]) then Failed(PreludeCrcMismatch)
    else if crc(m[..|m| - 4]) != Read32(m[|m| - 4..|m|]) then Failed(MessageCrcMismatch)
    else ParseContent(m, Read32(m[4..8]))
  }

  function ParseFrame(crc: Crc, b: Bytes): (r: ParseResult<Event>)
    ensures r.Parsed? ==> 16 <= r.consumed <= |b|
    ensures r.Failed? ==> |b| >= 12
  {
    if |b| < 12 then NeedMore
    else
      var total := Read32(b[..4]);
      if total < 16 then Failed(MessageTooSmall)
      else if total > MAX_MESSAGE_SIZE then Failed(MessageTooLarge)
      else if |b| < total then NeedMore
      else ParseMessage(crc, b[..total])
  }

  function FrameParser(crc: Crc): Parser<Event> {
    (b: Bytes) => ParseFrame(crc, b)
  }

  lemma ParseIsFinal(crc: Crc, b: Bytes, more: Bytes)
    requires ParseFrame(crc, b) != NeedMore
    ensures ParseFrame(crc, b + more) == ParseFrame(crc, b)
  {
    assert (b + more)[..4] == b[..4];
    var total := Read32(b[..4]);
    if total <= |b| {
      assert (b + more)[..total] == b[..total];
    }
  }

  /** What each failure is about: the length, the prelude, the content, or how the headers end. */
  lemma FailureIs(crc: Crc, b: Bytes)
    ensures ParseFrame(crc, b) == Failed(MessageTooSmall) <==> |b| >= 12 && Read32(b[..4]) < 16
    ensures ParseFrame(crc, b) == Failed(MessageTooLarge) <==> |b| >= 12 && Read32(b[..4]) > MAX_MESSAGE_SIZE
    ensures ParseFrame(crc, b) == NeedMore <==>
              |b| < 12 || (16 <= Read32(b[..4]) <= MAX_MESSAGE_SIZE && |b| < Read32(b[..4]))
  {
  }

  lemma MessageFailureIs(crc: Crc, m: Bytes, headers: nat)
    requires |m| >= 16 && headers == Read32(m[4..8])
    ensures ParseMessage(crc, m) == Failed(PreludeCrcMismatch) <==> crc(m[..8]) != Read32(m[8..12])
    ensures crc(m[..8]) == Read32(m[8..12]) ==>
              (ParseMessage(crc, m) == Failed(MessageCrcMismatch)
               <==> crc(m[..|m| - 4]) != Read32(m[|m| - 4..|m|]))
    ensures crc(m[..8]) == Read32(m[8..12]) && crc(m[..|m| - 4]) == Read32(m[|m| - 4..|m|]) ==>
      var r := ParseMessage(crc, m);
      if headers > |m| - 16 then r == Failed(HeaderParseFailed)
      else
        match ReadHeaders(m[12..12 + headers]).1
        case None => r.Parsed?
        case Some(EmptyName) => r == Failed(HeaderParseFailed)
        case Some(Truncated) => r == Failed(Incomplete)
        case Some(UnknownType) => r == Failed(InvalidHeaderType)
  {
  }

  /** The frame parser's verdicts are final, and its data errors are about whole frames. */
  lemma FrameParserIsLawful(crc: Crc)
    ensures Lawful(FrameParser(crc))
  {
    var parse := FrameParser(crc);
    forall b, more | parse(b) != NeedMore ensures parse(b + more) == parse(b) {
      ParseIsFinal(crc, b, more);
    }
  }

  class EventStreamDecoder {
    const crc: Crc
    var buffer: Bytes
    var state: DecoderState
    var framesDecoded: nat
    var errorCount: nat
    var bytesSkipped: nat

    ghost function View(): Decoder
      reads this
    {
      Decoder(buffer, state, framesDecoded, errorCount, bytesSkipped)
    }

    constructor (crc: Crc)
      ensures View() == FRESH && this.crc == crc
    {
      this.crc := crc;
      buffer, state, framesDecoded, errorCount, bytesSkipped := [], Ready, 0, 0, 0;
    }

    method FeedData(data: Bytes) returns (ok: bool)
      modifies this
      ensures ok <==> Feed(old(View()), data).Some?
      ensures View() == if ok then Feed(old(View()), data).value else old(View())
      ensures ok <==> |old(buffer)| + |data| <= MAX_BUFFER_SIZE
      ensures ok ==> buffer == old(buffer) + data && state == if old(state) == Recovering then Ready else old(state)
    {
      if |buffer| + |data| > MAX_BUFFER_SIZE {
        return false;
      }
      buffer := buffer + data;
      if state == Recovering {
        state := Ready;
      }
      ok := true;
    }

    method TryRecover(e: ParseError)
      requires buffer != []
      modifies this
      ensures var n := SkipLength(old(buffer), e);
              View() == old(View()).(buffer := old(buffer)[n..], bytesSkipped := old(bytesSkipped) + n)
      ensures e !in {MessageCrcMismatch, HeaderParseFailed} || !WholeFrame(old(buffer)) ==>
                buffer == old(buffer)[1..] && bytesSkipped == old(bytesSkipped) + 1
      ensures e in {MessageCrcMismatch, HeaderParseFailed} && WholeFrame(old(buffer)) ==>
                var n := Read32(old(buffer)[..4]);
                buffer == old(buffer)[n..] && bytesSkipped == old(bytesSkipped) + n
    {
      if e == MessageCrcMismatch || e == HeaderParseFailed {
        if |buffer| >= 12 {
          var total := Read32(buffer[..4]);
          if total >= 16 && total <= |buffer| {
            buffer := buffer[total..];
            bytesSkipped := bytesSkipped + total;
            return;
          }
        }
      }
      buffer := buffer[1..];
      bytesSkipped := bytesSkipped + 1;
    }

    method Settle(r: ParseResult<Event>) returns (x: Outcome<Event>)
      requires r.Parsed? ==> r.consumed <= |buffer|
      requires r.Failed? ==> buffer != []
      modifies this
      ensures (View(), x) == Conclude(old(View()), r)
    {
      match r {
        case Parsed(event, consumed) =>
          buffer := buffer[consumed..];
          state := Ready;
          framesDecoded := framesDecoded + 1;
          errorCount := 0;
          x := Decoded(event);
        case NeedMore =>
          state := Ready;
          x := NoFrame;
        case Failed(e) =>
          errorCount := errorCount + 1;
          if errorCount >= MAX_ERRORS {
            state := Stopped;
            return TooManyErrors;
          }
          TryRecover(e);
          state := Recovering;
          x := Error(e);
      }
    }

    method DecodeNext() returns (x: Outcome<Event>)
      modifies this
      ensures Bounded(FrameParser(crc))
      ensures (View(), x) == Decode(FrameParser(crc), old(View()))
    {
      FrameParserIsLawful(crc);
      if state == Stopped {
        return TooManyErrors;
      }
      if buffer == [] {
        state := Ready;
        return NoFrame;
      }
      var r := FrameParser(crc)(buffer);
      x := Settle(r);
    }

    method DecodeIter() returns (xs: seq<Outcome<Event>>)
      modifies this
      ensures Bounded(FrameParser(crc))
      ensures (View(), xs) == Iterate(FrameParser(crc), old(View()))
    {
      FrameParserIsLawful(crc);
      ghost var parse := FrameParser(crc);
      xs := [];
      ghost var goal := Iterate(parse, View());
      while state != Stopped && state != Recovering
        invariant goal.0 == Iterate(parse, View()).0
        invariant goal.1 == xs + Iterate(parse, View()).1
        decreases |buffer|, if state == Stopped then 0 else 1
      {
        IterateStep(parse, View(), xs);
        var x := DecodeNext();
        if x.NoFrame? {
          return;
        }
        xs := xs + [x];
      }
      assert xs + [] == xs;
    }
  }

  // ----- Valid streams -----

  function Raw(e: Event): Frame
    requires AllWellFormed(e.headers)
  {
    Frame(EncodeHeaders(e.headers, []), e.payload)
  }

  predicate Sendable(e: Event) {
    AllWellFormed(e.headers) && TotalLength(Raw(e)) <= MAX_MESSAGE_SIZE
  }

  predicate AllSendable(es: seq<Event>) {
    forall i :: 0 <= i < |es| ==> Sendable(es[i])
  }

  /** The events as transmitted. */
  function Messages(crc: Crc, es: seq<Event>): (ms: seq<Bytes>)
    requires AllSendable(es)
    ensures |ms| == |es|
  {
    seq(|es|, i requires 0 <= i < |es| => EncodeFrame(crc, Raw(es[i])))
  }

  lemma ContentParses(m: Bytes, n: nat, headers: seq<Header>)
    requires |m| >= 16 && 12 + n <= |m| - 4 && ReadHeaders(m[12..12 + n]) == (headers, None)
    ensures ParseContent(m, n) == Parsed(Event(headers, m[12 + n..|m| - 4]), |m|)
  {
  }

  lemma ParseWhole(crc: Crc, m: Bytes, n: nat)
    requires |m| >= 16 && n == Read32(m[4..8])
    requires crc(m[..8]) == Read32(m[8..12]) && crc(m[..|m| - 4]) == Read32(m[|m| - 4..|m|])
    ensures ParseMessage(crc, m) == ParseContent(m, n)
  {
  }

  lemma ParseFront(crc: Crc, m: Bytes, k: Bytes)
    requires 16 <= |m| <= MAX_MESSAGE_SIZE && Read32(m[..4]) == |m|
    ensures ParseFrame(crc, m + k) == ParseMessage(crc, m)
  {
    assert (m + k)[..|m|] == m && (m + k)[..4] == m[..4];
  }

  lemma EncodedParts(crc: Crc, f: Frame, m: Bytes)
    requires Encodable(f) && m == EncodeFrame(crc, f)
    ensures |m| == TotalLength(f) && StartsFrame(crc, m, |m|, |f.headers|)
    ensures m[12..12 + |f.headers|] == f.headers && m[12 + |f.headers|..|m| - 4] == f.payload
  {
    EncodedStartsFrame(crc, f, []);
    assert m + [] == m;
  }

  lemma ParseEncodedFrame(crc: Crc, e: Event, k: Bytes)
    requires Sendable(e)
    ensures ParseFrame(crc, EncodeFrame(crc, Raw(e)) + k) == Parsed(e, |EncodeFrame(crc, Raw(e))|)
  {
    var m := EncodeFrame(crc, Raw(e));
    EncodedParses(crc, e, Raw(e), m);
    ParseFront(crc, m, k);
  }

  lemma EncodedParses(crc: Crc, e: Event, f: Frame, m: Bytes)
    requires Sendable(e) && f == Raw(e) && m == EncodeFrame(crc, f)
    ensures |m| >= 16 && Read32(m[..4]) == |m| && ParseMessage(crc, m) == Parsed(e, |m|)
  {
    EncodedParts(crc, f, m);
    HeadersRoundTrip(e.headers);
    ParseWhole(crc, m, |f.headers|);
    ContentParses(m, |f.headers|, e.headers);
  }

  lemma ParsedStartsFrame(crc: Crc, m: Bytes, headerLength: nat)
    requires |m| >= 16 && Read32(m[..4]) == |m| && ParseMessage(crc, m).Parsed? && headerLength == Read32(m[4..8])
    ensures StartsFrame(crc, m, |m|, headerLength)
    ensures var f, e := FrameOf(m, |m|, headerLength), ParseMessage(crc, m).event;
      (e.headers, None) == ReadHeaders(f.headers) && e.payload == f.payload
  {
  }

  lemma ReadFrameIsRaw(e: Event, f: Frame)
    requires (e.headers, None) == ReadHeaders(f.headers) && e.payload == f.payload
    requires TotalLength(f) <= MAX_MESSAGE_SIZE
    ensures Sendable(e) && Raw(e) == f
  {
    var rest := ReadIsEncoded(f.headers);
  }

  lemma MessageIsEncoded(crc: Crc, m: Bytes)
    requires 16 <= |m| <= MAX_MESSAGE_SIZE && Read32(m[..4]) == |m| && ParseMessage(crc, m).Parsed?
    ensures var e := ParseMessage(crc, m).event; Sendable(e) && m == EncodeFrame(crc, Raw(e))
  {
    var headerLength := Read32(m[4..8]);
    ParsedStartsFrame(crc, m, headerLength);
    var f := FrameOf(m, |m|, headerLength);
    StartsFrameIsEncoded(crc, m, |m|, headerLength);
    assert m[|m|..] == [] && EncodeFrame(crc, f) + [] == EncodeFrame(crc, f);
    ReadFrameIsRaw(ParseMessage(crc, m).event, f);
  }

  /** The message a parsed frame was read from. */
  lemma ParsedWhole(crc: Crc, b: Bytes) returns (m: Bytes)
    requires ParseFrame(crc, b).Parsed?
    ensures 16 <= |m| <= MAX_MESSAGE_SIZE && Read32(m[..4]) == |m| && ParseMessage(crc, m) == ParseFrame(crc, b)
    ensures |m| <= |b| && b == m + b[|m|..]
  {
    m := b[..Read32(b[..4])];
    assert m[..4] == b[..4];
  }

  lemma ParsedIsEncoded(crc: Crc, b: Bytes)
    requires ParseFrame(crc, b).Parsed?
    ensures var r := ParseFrame(crc, b);
            Sendable(r.event) && b == EncodeFrame(crc, Raw(r.event)) + b[r.consumed..]
  {
    var m := ParsedWhole(crc, b);
    MessageIsEncoded(crc, m);
  }

  lemma EventsAreRead(crc: Crc, es: seq<Event>)
    requires AllSendable(es)
    ensures ReadsAll(FrameParser(crc), Messages(crc, es), es)
  {
    forall i | 0 <= i < |es| ensures Reads(FrameParser(crc), Messages(crc, es)[i], es[i]) {
      EventIsRead(crc, es[i]);
    }
  }

  lemma EventIsRead(crc: Crc, e: Event)
    requires Sendable(e)
    ensures Reads(FrameParser(crc), EncodeFrame(crc, Raw(e)), e)
  {
    forall k ensures FrameParser(crc)(EncodeFrame(crc, Raw(e)) + k) == Parsed(e, |EncodeFrame(crc, Raw(e))|) {
      ParseEncodedFrame(crc, e, k);
    }
  }

  /** However a valid stream is cut into chunks, exactly its frames come out and the end is clean. */
  lemma ValidStreamDecodes(crc: Crc, es: seq<Event>, chunks: seq<Bytes>)
    requires AllSendable(es) && Concat(chunks) == Concat(Messages(crc, es))
    ensures Bounded(FrameParser(crc))
    ensures var r := Session(FrameParser(crc), FRESH, chunks);
            r.Some? ==> r.value == (Decoder([], Ready, |es|, 0, 0), Frames(es))
  {
    FrameParserIsLawful(crc);
    EventsAreRead(crc, es);
    var parse := FrameParser(crc);
    if Session(parse, FRESH, chunks).Some? {
      SessionReadsMessages(parse, Messages(crc, es), es, chunks);
    }
  }

  // ----- Damaged streams -----

  /** An event as sent, or a whole frame whose content arrives damaged, and how the parser finds that out. */
  datatype Piece = Sent(event: Event) | Spoilt(bytes: Bytes, error: ParseError)

  predicate Transmitted(crc: Crc, p: Piece) {
    match p
    case Sent(e) => Sendable(e)
    case Spoilt(b, e) =>
      ParseFrame(crc, b) == Failed(e) && e in {MessageCrcMismatch, HeaderParseFailed} && Read32(b[..4]) == |b|
  }

  predicate AllTransmitted(crc: Crc, ps: seq<Piece>) {
    forall i :: 0 <= i < |ps| ==> Transmitted(crc, ps[i])
  }

  function Wire(crc: Crc, p: Piece): Bytes
    requires Transmitted(crc, p)
  {
    if p.Sent? then EncodeFrame(crc, Raw(p.event)) else p.bytes
  }

  function Wires(crc: Crc, ps: seq<Piece>): (ms: seq<Bytes>)
    requires AllTransmitted(crc, ps)
    ensures |ms| == |ps|
  {
    seq(|ps|, i requires 0 <= i < |ps| => Wire(crc, ps[i]))
  }

  /** What should come out: the events, and one error for each damaged frame. */
  function Expected(ps: seq<Piece>): (xs: seq<Outcome<Event>>)
    ensures |xs| == |ps|
  {
    seq(|ps|, i requires 0 <= i < |ps| => if ps[i].Sent? then Decoded(ps[i].event) else Error(ps[i].error))
  }

  lemma PieceIsTaken(crc: Crc, p: Piece)
    requires Transmitted(crc, p)
    ensures Takes(FrameParser(crc), Wire(crc, p), if p.Sent? then Decoded(p.event) else Error(p.error))
  {
    if p.Sent? {
      EventIsRead(crc, p.event);
    }
  }

  lemma PiecesAreTaken(crc: Crc, ps: seq<Piece>)
    requires AllTransmitted(crc, ps)
    ensures TakesAll(FrameParser(crc), Wires(crc, ps), Expected(ps))
  {
    forall i | 0 <= i < |ps| ensures Takes(FrameParser(crc), Wires(crc, ps)[i], Expected(ps)[i]) {
      PieceIsTaken(crc, ps[i]);
    }
  }

  /**
   Events and damaged frames in any order, with no five damaged frames in a row, cut into chunks anywhere:
   every damaged frame costs one error and its own bytes.  The decoder has reported exactly the first so many
   pieces and keeps the bytes behind them; all of them come out exactly when enough chunks follow each one.
   */
  lemma DamageIsContained(crc: Crc, ps: seq<Piece>, chunks: seq<Bytes>)
    requires AllTransmitted(crc, ps) && !FiveFailures(Expected(ps))
    requires Concat(chunks) == Concat(Wires(crc, ps))
    ensures Bounded(FrameParser(crc))
    ensures Session(FrameParser(crc), FRESH, chunks).Some? ==>
      var (d, xs) := Session(FrameParser(crc), FRESH, chunks).value;
      var (ms, all) := (Wires(crc, ps), Expected(ps));
      var n := Reached(ms, all, chunks);
      && xs == all[..n] && Size(ms, n) <= |Concat(chunks)|
      && d == StandingAt(ms, all, n, Concat(chunks), StateReached(ms, all, chunks))
      && (xs == all <==> EnoughFor(ms, all, chunks, |ps|))
      && (xs == all ==> d.buffer == [])
  {
    var parse := FrameParser(crc);
    FrameParserIsLawful(crc);
    if Session(parse, FRESH, chunks).Some? {
      PiecesAreTaken(crc, ps);
      AllReportedIff(parse, Wires(crc, ps), Expected(ps), chunks);
    }
  }

  /** When such a stream arrives in one chunk, nothing behind the first damaged frame is ever reported. */
  lemma OneChunkStopsAtDamage(crc: Crc, ps: seq<Piece>, chunks: seq<Bytes>, q: nat)
    requires AllTransmitted(crc, ps) && |chunks| == 1 && chunks[0] == Concat(Wires(crc, ps))
    requires !FiveFailures(Expected(ps)) && |chunks[0]| <= MAX_BUFFER_SIZE
    requires q < |ps| && ps[q].Spoilt? && forall i :: 0 <= i < q ==> ps[i].Sent?
    ensures Bounded(FrameParser(crc))
    ensures Session(FrameParser(crc), FRESH, chunks).Some?
    ensures var (d, xs) := Session(FrameParser(crc), FRESH, chunks).value;
      && xs == Expected(ps)[..q + 1]
      && d.buffer == Concat(Wires(crc, ps)[q + 1..]) && d.state == Recovering && d.framesDecoded == q
      && d.errorCount == 1 && d.bytesSkipped == |ps[q].bytes|
  {
    FrameParserIsLawful(crc);
    PiecesAreTaken(crc, ps);
    assert Wires(crc, ps)[q] == ps[q].bytes;
    OneChunkReaches(FrameParser(crc), Wires(crc, ps), Expected(ps), q, chunks);
  }

  // ----- Stray bytes -----

  /**
   Fewer than five stray bytes in front of events, wherever the stream is cut into chunks: one error and one
   byte skipped for each, no event lost, once more chunks than stray bytes have come since it was complete.
   */
  lemma StrayBytesAreSkipped(crc: Crc, g: Bytes, es: seq<Event>, chunks: seq<Bytes>)
    requires AllSendable(es) && es != [] && |g| < MAX_ERRORS
    requires Stray(FrameParser(crc), g, Concat(Messages(crc, es)))
    requires Concat(chunks) == g + Concat(Messages(crc, es)) && |g| < Polls(chunks, |Concat(chunks)|)
    ensures Bounded(FrameParser(crc))
    ensures Session(FrameParser(crc), FRESH, chunks).Some? ==>
      Session(FrameParser(crc), FRESH, chunks).value
      == (Decoder([], Ready, |es|, 0, |g|),
          StrayErrors(FrameParser(crc), g, Concat(Messages(crc, es))) + Frames(es))
  {
    FrameParserIsLawful(crc);
    EventsAreRead(crc, es);
    if Session(FrameParser(crc), FRESH, chunks).Some? {
      Resynchronises(FrameParser(crc), g, Messages(crc, es), es, chunks);
    }
  }

  /** For instance bytes 0xff, which no length can begin with. */
  lemma {:induction false} HighBytesAreStray(crc: Crc, g: Bytes, tail: Bytes)
    requires |tail| >= 12 && forall i :: 0 <= i < |g| ==> g[i] == 0xff
    ensures Stray(FrameParser(crc), g, tail)
    decreases |g|
  {
    if g != [] {
      HighBytesAreStray(crc, g[1..], tail);
      var b := g + tail;
      assert Read32(b[..4]) >= 0xff00_0000;
    }
  }

  // ----- Agreement with the traffic decoder -----

  lemma ReadMessageIsEncoded(crc: Crc, m: Bytes, e: Event, k: Bytes)
    requires ParseFrame(crc, m + k) == Parsed(e, |m|)
    ensures Sendable(e) && m == EncodeFrame(crc, Raw(e))
  {
    ParsedIsEncoded(crc, m + k);
    assert (m + k)[|m|..] == k;
    var n := |EncodeFrame(crc, Raw(e))|;
    assert n == |m|;
    assert (m + k)[..n] == m && (EncodeFrame(crc, Raw(e)) + k)[..n] == EncodeFrame(crc, Raw(e));
  }

  function Raws(es: seq<Event>): (fs: seq<Frame>)
    requires AllSendable(es)
    ensures |fs| == |es| && AllEncodable(fs)
  {
    seq(|es|, i requires 0 <= i < |es| => Raw(es[i]))
  }

  lemma {:induction false} ConcatFrames(crc: Crc, ms: seq<Bytes>, fs: seq<Frame>)
    requires AllEncodable(fs) && |ms| == |fs| && forall i :: 0 <= i < |fs| ==> ms[i] == EncodeFrame(crc, fs[i])
    ensures Concat(ms) == EncodeFrames(crc, fs, [])
    decreases |fs|
  {
    if fs != [] {
      ConcatFrames(crc, ms[1..], fs[1..]);
    }
  }

  /** When the streaming decoder reports only frames and ends clean, the traffic decoder sees those frames. */
  lemma DecodersAgree(crc: Crc, s: Bytes) returns (es: seq<Event>)
    requires Bounded(FrameParser(crc))
    requires OnlyFrames(Drain(FrameParser(crc), More(FRESH, s)).1)
    requires Drain(FrameParser(crc), More(FRESH, s)).0.buffer == []
    ensures AllSendable(es) && Drain(FrameParser(crc), More(FRESH, s)).1 == Frames(es)
    ensures DecodeAll(crc, s) == (Raws(es), None)
  {
    MoreFresh(s);
    var ms;
    ms, es := DrainedAreMessages(FrameParser(crc), More(FRESH, s));
    assert Concat(ms) + [] == Concat(ms);
    forall i | 0 <= i < |es| ensures Sendable(es[i]) && ms[i] == EncodeFrame(crc, Raw(es[i])) {
      assert WasRead(FrameParser(crc), ms[i], es[i]);
      var k :| FrameParser(crc)(ms[i] + k) == Parsed(es[i], |ms[i]|);
      ReadMessageIsEncoded(crc, ms[i], es[i], k);
    }
    AgreeOn(crc, s, ms, es);
  }

  lemma AgreeOn(crc: Crc, s: Bytes, ms: seq<Bytes>, es: seq<Event>)
    requires AllSendable(es) && |ms| == |es| && s == Concat(ms)
    requires forall i :: 0 <= i < |es| ==> ms[i] == EncodeFrame(crc, Raw(es[i]))
    ensures DecodeAll(crc, s) == (Raws(es), None)
  {
    ConcatFrames(crc, ms, Raws(es));
    FramesRoundTrip(crc, Raws(es));
  }
}
