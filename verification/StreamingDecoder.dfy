/**
 A streaming frame decoder over any frame parser: bytes are fed in chunks of any size, frames come out,
 damaged data is skipped, and five errors in a row stop it.
 */
module StreamingDecoder {
  import opened Bytes

  const MAX_BUFFER_SIZE := 16 * 1024 * 1024
  const MAX_ERRORS := 5

  datatype ParseError =
    | Incomplete
    | PreludeCrcMismatch
    | MessageCrcMismatch
    | InvalidHeaderType
    | HeaderParseFailed
    | MessageTooLarge
    | MessageTooSmall

  datatype ParseResult<E> = NeedMore | Parsed(event: E, consumed: nat) | Failed(error: ParseError)

  // ----- The decoder -----

  /**
   The parser of one frame at the front of a buffer.  What is proved of the decoder needs three facts
   about it, stated by `Lawful`.
   */
  type Parser<!E> = Bytes -> ParseResult<E>

  predicate DataError(e: ParseError) {
    e == MessageCrcMismatch || e == HeaderParseFailed
  }

  predicate WholeFrame(b: Bytes) {
    |b| >= 12 && 16 <= Read32(b[..4]) <= |b|
  }

  /** A frame lies within the buffer, and errors are found only once a prelude is there. */
  ghost predicate Bounded<E(!new)>(parse: Parser<E>) {
    && (forall b :: parse(b).Parsed? ==> 16 <= parse(b).consumed <= |b|)
    && (forall b :: parse(b).Failed? ==> |b| >= 12)
  }

  /** A verdict is final: more data does not change it; and a data error is a verdict on a whole frame. */
  ghost predicate Lawful<E(!new)>(parse: Parser<E>) {
    && Bounded(parse)
    && (forall b, more :: parse(b) != NeedMore ==> parse(b + more) == parse(b))
    && (forall b :: parse(b).Failed? && DataError(parse(b).error) ==> WholeFrame(b))
  }

  datatype DecoderState = Ready | Parsing | Recovering | Stopped

  datatype Decoder = Decoder(
    buffer: Bytes,
    state: DecoderState,
    framesDecoded: nat,
    errorCount: nat,
    bytesSkipped: nat)

  const FRESH := Decoder([], Ready, 0, 0, 0)

  datatype Outcome<E> = Decoded(event: E) | NoFrame | Error(error: ParseError) | TooManyErrors

  function Feed(d: Decoder, data: Bytes): Option<Decoder> {
    if |d.buffer| + |data| > MAX_BUFFER_SIZE then None
    else Some(d.(buffer := d.buffer + data, state := if d.state == Recovering then Ready else d.state))
  }

  /** How many bytes recovery skips: the damaged frame when its bounds are sound, else one byte. */
  function SkipLength(b: Bytes, e: ParseError): (n: nat)
    requires b != []
    ensures 1 <= n <= |b|
  {
    if DataError(e) && WholeFrame(b) then Read32(b[..4]) else 1
  }

  /** What one attempt does once the parser has given its verdict on the buffer. */
  function Conclude<E(!new)>(d: Decoder, r: ParseResult<E>): (Decoder, Outcome<E>)
    requires r.Parsed? ==> r.consumed <= |d.buffer|
    requires r.Failed? ==> d.buffer != []
  {
    match r
    case NeedMore => (d.(state := Ready), NoFrame)
    case Parsed(event, consumed) =>
      (Decoder(d.buffer[consumed..], Ready, d.framesDecoded + 1, 0, d.bytesSkipped), Decoded(event))
    case Failed(e) =>
      if d.errorCount + 1 >= MAX_ERRORS then
        (d.(state := Stopped, errorCount := d.errorCount + 1), TooManyErrors)
      else
        var n := SkipLength(d.buffer, e);
        (Decoder(d.buffer[n..], Recovering, d.framesDecoded, d.errorCount + 1, d.bytesSkipped + n), Error(e))
  }

  ghost function Decode<E(!new)>(parse: Parser<E>, d: Decoder): (Decoder, Outcome<E>)
    requires Bounded(parse)
  {
    if d.state == Stopped then (d, TooManyErrors)
    else if d.buffer == [] then (d.(state := Ready), NoFrame)
    else Conclude(d, parse(d.buffer))
  }

  /** `decode_iter`: frames until data runs out or an error has been reported. */
  ghost function Iterate<E(!new)>(parse: Parser<E>, d: Decoder): (Decoder, seq<Outcome<E>>)
    requires Bounded(parse)
    decreases |d.buffer|
  {
    if d.state in {Stopped, Recovering} then (d, [])
    else
      var (d1, x) := Decode(parse, d);
      if x.NoFrame? then (d1, [])
      else if x.Decoded? then
        var (d2, xs) := Iterate(parse, d1);
        (d2, [x] + xs)
      else (d1, [x])
  }

  /** Feeding the chunks one by one, taking what `decode_iter` gives after each; `None` on overflow. */
  ghost function Session<E(!new)>(parse: Parser<E>, d: Decoder, chunks: seq<Bytes>): Option<(Decoder, seq<Outcome<E>>)>
    requires Bounded(parse)
    decreases |chunks|
  {
    if chunks == [] then Some((d, []))
    else
      match Feed(d, chunks[0])
      case None => None
      case Some(d0) =>
        var (d1, xs) := Iterate(parse, d0);
        match Session(parse, d1, chunks[1..])
        case None => None
        case Some((d2, ys)) => Some((d2, xs + ys))
  }

  lemma Associative<T>(a: seq<T>, b: seq<T>, c: seq<T>)
    ensures a + (b + c) == (a + b) + c
  {
  }

  lemma IterateStep<E(!new)>(parse: Parser<E>, d: Decoder, xs: seq<Outcome<E>>)
    requires Bounded(parse) && d.state !in {Stopped, Recovering}
    ensures var (d1, x) := Decode(parse, d);
            if x.NoFrame? then Iterate(parse, d).0 == d1 && xs + Iterate(parse, d).1 == xs
            else
              && Iterate(parse, d).0 == Iterate(parse, d1).0
              && xs + Iterate(parse, d).1 == (xs + [x]) + Iterate(parse, d1).1
              && (|d1.buffer| < |d.buffer| || (|d1.buffer| == |d.buffer| && d1.state == Stopped))
  {
    var (d1, x) := Decode(parse, d);
    if x.NoFrame? {
      assert xs + [] == xs;
    } else {
      Associative(xs, [x], Iterate(parse, d1).1);
      assert [x] + [] == [x];
    }
  }

  // ----- Chunking does not matter -----

  function More(d: Decoder, more: Bytes): Decoder {
    d.(buffer := d.buffer + more)
  }

  /** Everything the decoder would report of its buffer, errors and all, and where it ends up. */
  ghost function Drain<E(!new)>(parse: Parser<E>, d: Decoder): (Decoder, seq<Outcome<E>>)
    requires Bounded(parse)
    decreases |d.buffer|, if d.state == Stopped then 0 else 1
  {
    var (d1, x) := Decode(parse, d);
    if d.state == Stopped || x.NoFrame? then (d1, [])
    else
      var (d2, xs) := Drain(parse, d1);
      (d2, [x] + xs)
  }

  lemma DropAppend(b: Bytes, more: Bytes, n: nat)
    requires n <= |b|
    ensures (b + more)[n..] == b[n..] + more
  {
  }

  lemma DecodeIsFinal<E(!new)>(parse: Parser<E>, d: Decoder, more: Bytes)
    requires Lawful(parse) && d.state != Stopped && !Decode(parse, d).1.NoFrame?
    ensures Decode(parse, More(d, more)) == (More(Decode(parse, d).0, more), Decode(parse, d).1)
  {
    var b := d.buffer;
    assert parse(b + more) == parse(b);
    ConcludeIsFinal(d, parse(b), more);
  }

  lemma ConcludeIsFinal<E(!new)>(d: Decoder, r: ParseResult<E>, more: Bytes)
    requires r.Parsed? ==> r.consumed <= |d.buffer|
    requires r.Failed? ==> |d.buffer| >= 12
    requires r.Failed? && DataError(r.error) ==> WholeFrame(d.buffer)
    requires r != NeedMore
    ensures Conclude(More(d, more), r) == (More(Conclude(d, r).0, more), Conclude(d, r).1)
  {
    var b := d.buffer;
    if r.Parsed? {
      DropAppend(b, more, r.consumed);
    } else {
      assert (b + more)[..4] == b[..4];
      DropAppend(b, more, SkipLength(b, r.error));
    }
  }

  /** Only `Stopped` matters of the state. */
  lemma {:induction false} DrainIgnoresState<E(!new)>(parse: Parser<E>, d: Decoder)
    requires Bounded(parse) && d.state != Stopped
    ensures Drain(parse, d) == Drain(parse, d.(state := Ready))
  {
    assert Decode(parse, d) == Decode(parse, d.(state := Ready));
  }

  /** `d` drains to `xs` and then as `end` does. */
  ghost predicate DrainsTo<E(!new)>(parse: Parser<E>, d: Decoder, xs: seq<Outcome<E>>, end: Decoder)
    requires Bounded(parse)
  {
    Drain(parse, d).0 == Drain(parse, end).0 && Drain(parse, d).1 == xs + Drain(parse, end).1
  }

  lemma DrainsToSelf<E(!new)>(parse: Parser<E>, d: Decoder)
    requires Bounded(parse)
    ensures DrainsTo(parse, d, [], d)
    ensures d.state != Stopped ==> DrainsTo(parse, d, [], d.(state := Ready))
  {
    assert [] + Drain(parse, d).1 == Drain(parse, d).1;
    if d.state != Stopped {
      DrainIgnoresState(parse, d);
    }
  }

  lemma DrainsToTrans<E(!new)>(
    parse: Parser<E>, a: Decoder, xs: seq<Outcome<E>>, b: Decoder, ys: seq<Outcome<E>>, c: Decoder)
    requires Bounded(parse) && DrainsTo(parse, a, xs, b) && DrainsTo(parse, b, ys, c)
    ensures DrainsTo(parse, a, xs + ys, c)
  {
    assert xs + (ys + Drain(parse, c).1) == (xs + ys) + Drain(parse, c).1;
  }

  lemma DrainsToOne<E(!new)>(parse: Parser<E>, d: Decoder)
    requires Bounded(parse) && d.state != Stopped && !Decode(parse, d).1.NoFrame?
    ensures DrainsTo(parse, d, [Decode(parse, d).1], Decode(parse, d).0)
  {
  }

  lemma {:induction false} IterateThenDrain<E(!new)>(parse: Parser<E>, d: Decoder, more: Bytes)
    requires Lawful(parse)
    ensures DrainsTo(parse, More(d, more), Iterate(parse, d).1, More(Iterate(parse, d).0, more))
    decreases |d.buffer|
  {
    var (d1, x) := Decode(parse, d);
    DrainsToSelf(parse, More(d, more));
    if d.state in {Stopped, Recovering} {
    } else if x.NoFrame? {
      assert More(d1, more) == More(d, more).(state := Ready);
    } else {
      DecodeIsFinal(parse, d, more);
      DrainsToOne(parse, More(d, more));
      if x.Decoded? {
        IterateThenDrain(parse, d1, more);
        DrainsToTrans(parse, More(d, more), [x], More(d1, more), Iterate(parse, d1).1, More(Iterate(parse, d1).0, more));
      }
    }
  }

  function Concat(chunks: seq<Bytes>): Bytes {
    if chunks == [] then [] else chunks[0] + Concat(chunks[1..])
  }

  lemma FeedThenDrain<E(!new)>(parse: Parser<E>, d: Decoder, data: Bytes, more: Bytes)
    requires Bounded(parse) && Feed(d, data).Some?
    ensures DrainsTo(parse, More(d, data + more), [], More(Feed(d, data).value, more))
  {
    var whole := More(d, data + more);
    assert d.buffer + (data + more) == (d.buffer + data) + more;
    DrainsToSelf(parse, whole);
  }

  /**
   Conservation over any chunking of any bytes, damaged or not: what a session reported, followed by
   what its buffer would still yield, is what the whole input yields at once; the final states agree.
   */
  lemma {:induction false} ChunkingDoesNotMatter<E(!new)>(parse: Parser<E>, d: Decoder, chunks: seq<Bytes>)
    requires Lawful(parse) && Session(parse, d, chunks).Some?
    ensures var (d1, xs) := Session(parse, d, chunks).value;
            DrainsTo(parse, More(d, Concat(chunks)), xs, d1)
    decreases |chunks|
  {
    if chunks == [] {
      assert More(d, []) == d;
      DrainsToSelf(parse, d);
    } else {
      var whole, rest := More(d, Concat(chunks)), Concat(chunks[1..]);
      var d0 := Feed(d, chunks[0]).value;
      var (d1, xs) := Iterate(parse, d0);
      FeedThenDrain(parse, d, chunks[0], rest);
      IterateThenDrain(parse, d0, rest);
      DrainsToTrans(parse, whole, [], More(d0, rest), xs, More(d1, rest));
      ChunkingDoesNotMatter(parse, d1, chunks[1..]);
      var (d2, ys) := Session(parse, d1, chunks[1..]).value;
      assert [] + xs == xs;
      DrainsToTrans(parse, whole, xs, More(d1, rest), ys, d2);
    }
  }

  lemma {:induction false} IterateShrinks<E(!new)>(parse: Parser<E>, d: Decoder)
    requires Bounded(parse)
    ensures |Iterate(parse, d).0.buffer| <= |d.buffer|
    decreases |d.buffer|
  {
    if d.state !in {Stopped, Recovering} && Decode(parse, d).1.Decoded? {
      IterateShrinks(parse, Decode(parse, d).0);
    }
  }

  /** Input that fits the buffer as a whole never overflows it in chunks. */
  lemma {:induction false} SmallInputFits<E(!new)>(parse: Parser<E>, d: Decoder, chunks: seq<Bytes>)
    requires Bounded(parse) && |d.buffer| + |Concat(chunks)| <= MAX_BUFFER_SIZE
    ensures Session(parse, d, chunks).Some?
    decreases |chunks|
  {
    if chunks != [] {
      var d0 := Feed(d, chunks[0]).value;
      IterateShrinks(parse, d0);
      SmallInputFits(parse, Iterate(parse, d0).0, chunks[1..]);
    }
  }

  predicate OnlyFrames<E(!new)>(xs: seq<Outcome<E>>) {
    forall i :: 0 <= i < |xs| ==> xs[i].Decoded?
  }

  /** The decoder is ready and has reported all it can. */
  ghost predicate Idle<E(!new)>(parse: Parser<E>, d: Decoder)
    requires Bounded(parse)
  {
    d.state == Ready && Drain(parse, d) == (d, [])
  }

  lemma {:induction false} IterateLeavesIdle<E(!new)>(parse: Parser<E>, d: Decoder)
    requires Bounded(parse) && d.state == Ready && OnlyFrames(Iterate(parse, d).1)
    ensures Idle(parse, Iterate(parse, d).0)
    decreases |d.buffer|
  {
    var (d1, x) := Decode(parse, d);
    var xs := Iterate(parse, d).1;
    if !x.NoFrame? {
      assert xs[0] == x;
      assert xs[1..] == Iterate(parse, d1).1;
      IterateLeavesIdle(parse, d1);
    }
  }

  lemma {:induction false} SessionLeavesIdle<E(!new)>(parse: Parser<E>, d: Decoder, chunks: seq<Bytes>)
    requires Bounded(parse) && Idle(parse, d)
    requires Session(parse, d, chunks).Some? && OnlyFrames(Session(parse, d, chunks).value.1)
    ensures Idle(parse, Session(parse, d, chunks).value.0)
    decreases |chunks|
  {
    if chunks != [] {
      var d0 := Feed(d, chunks[0]).value;
      var (d1, xs) := Iterate(parse, d0);
      var ys := Session(parse, d1, chunks[1..]).value.1;
      SplitOnlyFrames(xs, ys);
      IterateLeavesIdle(parse, d0);
      SessionLeavesIdle(parse, d1, chunks[1..]);
    }
  }

  lemma SplitOnlyFrames<E(!new)>(xs: seq<Outcome<E>>, ys: seq<Outcome<E>>)
    requires OnlyFrames(xs + ys)
    ensures OnlyFrames(xs) && OnlyFrames(ys)
  {
    assert forall i :: 0 <= i < |xs| ==> xs[i] == (xs + ys)[i];
    assert forall i :: 0 <= i < |ys| ==> ys[i] == (xs + ys)[|xs| + i];
  }

  /** If what is still to come yields only frames, a session over any chunking of it reports them all. */
  lemma SessionReports<E(!new)>(parse: Parser<E>, d: Decoder, chunks: seq<Bytes>)
    requires Lawful(parse) && d.state in {Ready, Recovering} && chunks != []
    requires Session(parse, d, chunks).Some? && OnlyFrames(Drain(parse, More(d, Concat(chunks))).1)
    ensures Session(parse, d, chunks).value == Drain(parse, More(d, Concat(chunks)))
  {
    ChunkingDoesNotMatter(parse, d, chunks);
    var (end, xs) := Session(parse, d, chunks).value;
    var d0 := Feed(d, chunks[0]).value;
    var (d1, ys) := Iterate(parse, d0);
    SplitOnlyFrames(xs, Drain(parse, end).1);
    SplitOnlyFrames(ys, Session(parse, d1, chunks[1..]).value.1);
    IterateLeavesIdle(parse, d0);
    SessionLeavesIdle(parse, d1, chunks[1..]);
    assert xs + [] == xs;
  }

  /** If the whole input yields only frames, a session over any chunking of it reports them all. */
  lemma SessionReportsAll<E(!new)>(parse: Parser<E>, chunks: seq<Bytes>)
    requires Lawful(parse) && Session(parse, FRESH, chunks).Some?
    requires OnlyFrames(Drain(parse, More(FRESH, Concat(chunks))).1)
    ensures Session(parse, FRESH, chunks).value == Drain(parse, More(FRESH, Concat(chunks)))
  {
    if chunks == [] {
      assert More(FRESH, []) == FRESH;
    } else {
      SessionReports(parse, FRESH, chunks);
    }
  }

  // ----- Messages the parser knows -----

  /** The parser reads `m` as `e`, whatever follows. */
  ghost predicate Reads<E(!new)>(parse: Parser<E>, m: Bytes, e: E) {
    m != [] && forall k :: parse(m + k) == Parsed(e, |m|)
  }

  ghost predicate ReadsAll<E(!new)>(parse: Parser<E>, ms: seq<Bytes>, es: seq<E>) {
    |ms| == |es| && forall i :: 0 <= i < |ms| ==> Reads(parse, ms[i], es[i])
  }

  function Frames<E(!new)>(es: seq<E>): seq<Outcome<E>> {
    if es == [] then [] else [Decoded(es[0])] + Frames(es[1..])
  }

  lemma DrainMessage<E(!new)>(parse: Parser<E>, d: Decoder, m: Bytes, e: E, k: Bytes)
    requires Bounded(parse) && Reads(parse, m, e)
    requires d.state != Stopped && d.buffer == m + k
    ensures DrainsTo(parse, d, [Decoded(e)], Decoder(k, Ready, d.framesDecoded + 1, 0, d.bytesSkipped))
  {
    assert (m + k)[|m|..] == k;
    DrainsToOne(parse, d);
  }

  lemma {:induction false} FramesAreFrames<E(!new)>(es: seq<E>)
    ensures OnlyFrames(Frames(es)) && |Frames(es)| == |es|
    decreases |es|
  {
    if es != [] {
      FramesAreFrames(es[1..]);
    }
  }

  lemma DrainEmpty<E(!new)>(parse: Parser<E>, d: Decoder)
    requires Bounded(parse) && d.buffer == [] && d.state != Stopped
    ensures Drain(parse, d) == (d.(state := Ready), [])
  {
  }

  /** Messages are reported in order, and leave no error behind. */
  lemma {:induction false} DrainMessages<E(!new)>(
    parse: Parser<E>, d: Decoder, ms: seq<Bytes>, es: seq<E>, end: Decoder)
    requires Bounded(parse) && ReadsAll(parse, ms, es)
    requires d.state != Stopped && d.buffer == Concat(ms)
    requires end == Decoder([], Ready, d.framesDecoded + |es|, 0, d.bytesSkipped)
    requires es == [] ==> d.errorCount == 0
    ensures Drain(parse, d) == (end, Frames(es))
    decreases |es|
  {
    if es == [] {
      DrainEmpty(parse, d);
    } else {
      var d1 := Decoder(Concat(ms[1..]), Ready, d.framesDecoded + 1, 0, d.bytesSkipped);
      DrainMessage(parse, d, ms[0], es[0], d1.buffer);
      DrainMessages(parse, d1, ms[1..], es[1..], end);
    }
  }

  lemma MoreFresh(s: Bytes)
    ensures More(FRESH, s) == Decoder(s, Ready, 0, 0, 0)
  {
    assert [] + s == s;
  }

  /** However messages are cut into chunks, exactly their frames come out and the end is clean. */
  lemma SessionReadsMessages<E(!new)>(parse: Parser<E>, ms: seq<Bytes>, es: seq<E>, chunks: seq<Bytes>)
    requires Lawful(parse) && ReadsAll(parse, ms, es) && Concat(chunks) == Concat(ms)
    requires Session(parse, FRESH, chunks).Some?
    ensures Session(parse, FRESH, chunks).value == (Decoder([], Ready, |es|, 0, 0), Frames(es))
  {
    var d := More(FRESH, Concat(chunks));
    MoreFresh(Concat(chunks));
    DrainMessages(parse, d, ms, es, Decoder([], Ready, |es|, 0, 0));
    FramesAreFrames(es);
    SessionReportsAll(parse, chunks);
  }

  // ----- When the decoder stops -----

  /** How many of the last attempts failed, one after the other. */
  function FailuresAtEnd<E>(xs: seq<Outcome<E>>): nat {
    if xs == [] || xs[|xs| - 1].Decoded? then 0 else 1 + FailuresAtEnd(xs[..|xs| - 1])
  }

  predicate AllFail<E>(xs: seq<Outcome<E>>) {
    forall i :: 0 <= i < |xs| ==> !xs[i].Decoded?
  }

  /** The last five of the first `n` attempts failed. */
  predicate FiveFailAt<E>(xs: seq<Outcome<E>>, n: nat) {
    MAX_ERRORS <= n <= |xs| && AllFail(xs[n - MAX_ERRORS..n])
  }

  /** Five failed attempts follow each other with no frame between them. */
  ghost predicate FiveFailures<E>(xs: seq<Outcome<E>>) {
    exists n :: FiveFailAt(xs, n)
  }

  lemma {:induction false} FailuresAtEndIff<E>(xs: seq<Outcome<E>>, k: nat)
    ensures k <= FailuresAtEnd(xs) <==> k <= |xs| && AllFail(xs[|xs| - k..])
    decreases k
  {
    var n := |xs| - 1;
    if 0 < k <= |xs| {
      FailuresAtEndIff(xs[..n], k - 1);
      assert xs[|xs| - k..] == xs[..n][|xs| - k..] + [xs[n]];
    } else if xs != [] {
      FailuresAtEndBound(xs);
    }
  }

  lemma {:induction false} FailuresAtEndBound<E>(xs: seq<Outcome<E>>)
    ensures FailuresAtEnd(xs) <= |xs|
  {
    if xs != [] {
      FailuresAtEndBound(xs[..|xs| - 1]);
    }
  }

  lemma FiveFailAtIff<E>(xs: seq<Outcome<E>>, n: nat)
    requires n <= |xs|
    ensures FiveFailAt(xs, n) <==> FailuresAtEnd(xs[..n]) >= MAX_ERRORS
  {
    FailuresAtEndIff(xs[..n], MAX_ERRORS);
    if n >= MAX_ERRORS {
      assert xs[..n][n - MAX_ERRORS..] == xs[n - MAX_ERRORS..n];
    }
  }

  /** The decoder has counted the failures at the end of its reports, and stopped exactly at the fifth. */
  ghost predicate Counted<E(!new)>(d: Decoder, xs: seq<Outcome<E>>) {
    && d.errorCount == FailuresAtEnd(xs)
    && (d.state == Stopped <==> d.errorCount >= MAX_ERRORS)
    && (forall n :: 0 <= n < |xs| ==> FailuresAtEnd(xs[..n]) < MAX_ERRORS)
    && (forall i :: 0 <= i < |xs| ==> (xs[i].TooManyErrors? <==> d.state == Stopped && i == |xs| - 1))
  }

  lemma ReportCounts<E(!new)>(d: Decoder, xs: seq<Outcome<E>>, d1: Decoder, x: Outcome<E>)
    requires Counted(d, xs) && d.state != Stopped
    requires d1.errorCount == (if x.Decoded? then 0 else d.errorCount + 1)
    requires d1.state == Stopped <==> d1.errorCount >= MAX_ERRORS
    requires x.TooManyErrors? <==> d1.state == Stopped
    ensures Counted(d1, xs + [x])
  {
    var xs' := xs + [x];
    assert xs'[..|xs|] == xs;
    forall n | 0 <= n < |xs'| ensures FailuresAtEnd(xs'[..n]) < MAX_ERRORS {
      if n < |xs| {
        assert xs'[..n] == xs[..n];
      }
    }
  }

  lemma {:induction false} IterateCounts<E(!new)>(parse: Parser<E>, d: Decoder, xs: seq<Outcome<E>>)
    requires Bounded(parse) && Counted(d, xs)
    ensures Counted(Iterate(parse, d).0, xs + Iterate(parse, d).1)
    decreases |d.buffer|
  {
    var (d1, x) := Decode(parse, d);
    assert xs + [] == xs;
    if d.state !in {Stopped, Recovering} && !x.NoFrame? {
      ReportCounts(d, xs, d1, x);
      if x.Decoded? {
        IterateCounts(parse, d1, xs + [x]);
        Associative(xs, [x], Iterate(parse, d1).1);
      }
    }
  }

  lemma {:induction false} SessionCounts<E(!new)>(
    parse: Parser<E>, d: Decoder, xs: seq<Outcome<E>>, chunks: seq<Bytes>)
    requires Bounded(parse) && Counted(d, xs) && Session(parse, d, chunks).Some?
    ensures var (d1, ys) := Session(parse, d, chunks).value; Counted(d1, xs + ys)
    decreases |chunks|
  {
    if chunks == [] {
      assert xs + [] == xs;
    } else {
      var d0 := Feed(d, chunks[0]).value;
      var (d1, ys) := Iterate(parse, d0);
      IterateCounts(parse, d0, xs);
      SessionCounts(parse, d1, xs + ys, chunks[1..]);
      Associative(xs, ys, Session(parse, d1, chunks[1..]).value.1);
    }
  }

  lemma CountedStopsIff<E(!new)>(d: Decoder, xs: seq<Outcome<E>>)
    requires Counted(d, xs)
    ensures d.state == Stopped <==> FiveFailures(xs)
  {
    assert xs[..|xs|] == xs;
    FiveFailAtIff(xs, |xs|);
    forall n | FiveFailAt(xs, n) ensures n == |xs| {
      FiveFailAtIff(xs, n);
    }
  }

  /**
   Whatever is fed, in whatever chunks: the decoder has stopped exactly when five failed attempts have
   followed each other with no frame between them, and then the fifth is the last thing it reported.
   */
  lemma SessionStopsIff<E(!new)>(parse: Parser<E>, chunks: seq<Bytes>)
    requires Bounded(parse) && Session(parse, FRESH, chunks).Some?
    ensures var (d, xs) := Session(parse, FRESH, chunks).value;
      && (d.state == Stopped <==> FiveFailures(xs))
      && d.errorCount == FailuresAtEnd(xs)
      && forall i :: 0 <= i < |xs| ==> (xs[i].TooManyErrors? <==> d.state == Stopped && i == |xs| - 1)
  {
    var (d, xs) := Session(parse, FRESH, chunks).value;
    SessionCounts(parse, FRESH, [], chunks);
    assert [] + xs == xs;
    CountedStopsIff(d, xs);
  }

  // ----- Sessions in pieces -----

  lemma {:induction false} ConcatSplit(chunks: seq<Bytes>, c: nat)
    requires c <= |chunks|
    ensures Concat(chunks) == Concat(chunks[..c]) + Concat(chunks[c..])
  {
    if c == 0 {
      assert chunks[c..] == chunks;
    } else {
      ConcatSplit(chunks[1..], c - 1);
      assert chunks[..c][1..] == chunks[1..][..c - 1] && chunks[c..] == chunks[1..][c - 1..];
    }
  }

  lemma {:induction false} SessionSplit<E(!new)>(parse: Parser<E>, d: Decoder, chunks: seq<Bytes>, c: nat)
    requires Bounded(parse) && c <= |chunks| && Session(parse, d, chunks).Some?
    ensures Session(parse, d, chunks[..c]).Some?
    ensures var (d1, xs) := Session(parse, d, chunks[..c]).value;
            && Session(parse, d1, chunks[c..]).Some?
            && Session(parse, d, chunks).value
               == (Session(parse, d1, chunks[c..]).value.0, xs + Session(parse, d1, chunks[c..]).value.1)
    decreases c
  {
    if c == 0 {
      assert chunks[c..] == chunks;
      assert [] + Session(parse, d, chunks).value.1 == Session(parse, d, chunks).value.1;
    } else {
      var (d0, xs) := Iterate(parse, Feed(d, chunks[0]).value);
      SessionSplit(parse, d0, chunks[1..], c - 1);
      assert chunks[..c][1..] == chunks[1..][..c - 1] && chunks[c..] == chunks[1..][c - 1..];
      var (d1, ys) := Session(parse, d0, chunks[1..][..c - 1]).value;
      Associative(xs, ys, Session(parse, d1, chunks[c..]).value.1);
    }
  }

  lemma SessionSnoc<E(!new)>(parse: Parser<E>, d: Decoder, chunks: seq<Bytes>, chunk: Bytes)
    requires Bounded(parse) && Session(parse, d, chunks + [chunk]).Some?
    ensures Session(parse, d, chunks).Some?
    ensures var (d1, xs) := Session(parse, d, chunks).value;
      && Feed(d1, chunk).Some?
      && var (d2, ys) := Iterate(parse, Feed(d1, chunk).value);
        Session(parse, d, chunks + [chunk]).value == (d2, xs + ys)
  {
    var c := |chunks|;
    SessionSplit(parse, d, chunks + [chunk], c);
    assert (chunks + [chunk])[..c] == chunks && (chunks + [chunk])[c..] == [chunk];
    var d1 := Session(parse, d, chunks).value.0;
    var ys := Iterate(parse, Feed(d1, chunk).value).1;
    assert [chunk][1..] == [] && ys + [] == ys;
  }

  // ----- Damaged frames -----

  /** A whole frame with a data error. */
  ghost predicate Damaged<E>(parse: Parser<E>, m: Bytes, e: ParseError) {
    DataError(e) && parse(m) == Failed(e) && WholeFrame(m) && Read32(m[..4]) == |m|
  }

  /** The parser takes `m` for what `x` reports: a frame, or one damaged frame. */
  ghost predicate Takes<E(!new)>(parse: Parser<E>, m: Bytes, x: Outcome<E>) {
    match x
    case Decoded(e) => Reads(parse, m, e)
    case Error(e) => Damaged(parse, m, e)
    case _ => false
  }

  ghost predicate TakesAll<E(!new)>(parse: Parser<E>, ms: seq<Bytes>, xs: seq<Outcome<E>>) {
    |ms| == |xs| && forall i :: 0 <= i < |ms| ==> Takes(parse, ms[i], xs[i])
  }

  function Failures<E>(xs: seq<Outcome<E>>): (n: nat)
    ensures n <= |xs|
  {
    if xs == [] then 0 else Failures(xs[..|xs| - 1]) + if xs[|xs| - 1].Decoded? then 0 else 1
  }

  function DamagedBytes<E>(ms: seq<Bytes>, xs: seq<Outcome<E>>): nat
    requires |ms| == |xs|
  {
    if xs == [] then 0
    else
      var n := |xs| - 1;
      DamagedBytes(ms[..n], xs[..n]) + if xs[n].Decoded? then 0 else |ms[n]|
  }

  /** The size of the first `n` messages. */
  function Size(ms: seq<Bytes>, n: nat): nat
    requires n <= |ms|
  {
    |Concat(ms[..n])|
  }

  /** The decoder with `n` of the messages behind it when `fed` has arrived. */
  function StandingAt<E(!new)>(
    ms: seq<Bytes>, xs: seq<Outcome<E>>, n: nat, fed: Bytes, state: DecoderState): Decoder
    requires n <= |ms| == |xs| && Size(ms, n) <= |fed|
  {
    Decoder(fed[Size(ms, n)..], state, n - Failures(xs[..n]), FailuresAtEnd(xs[..n]), DamagedBytes(ms[..n], xs[..n]))
  }

  lemma DecodeTaken<E(!new)>(parse: Parser<E>, d: Decoder, m: Bytes, x: Outcome<E>, k: Bytes)
    requires Lawful(parse) && Takes(parse, m, x) && d.state == Ready && d.buffer == m + k
    requires x.Error? ==> d.errorCount + 1 < MAX_ERRORS
    ensures Decode(parse, d).1 == x
    ensures Decode(parse, d).0 == if x.Decoded?
      then Decoder(k, Ready, d.framesDecoded + 1, 0, d.bytesSkipped)
      else Decoder(k, Recovering, d.framesDecoded, d.errorCount + 1, d.bytesSkipped + |m|)
  {
    assert (m + k)[|m|..] == k;
    if x.Error? {
      assert parse(m + k) == parse(m);
      assert (m + k)[..4] == m[..4];
    }
  }

  /** A message that is not all there yet is waited for. */
  lemma PartWaits<E(!new)>(parse: Parser<E>, m: Bytes, x: Outcome<E>, b: Bytes, more: Bytes, k: Bytes)
    requires Lawful(parse) && Takes(parse, m, x) && b + more == m + k && |b| < |m|
    ensures parse(b) == NeedMore
  {
    assert parse(b) != NeedMore ==> parse(b + more) == parse(b);
    if x.Error? {
      assert parse(m + k) == parse(m);
      if |b| >= 4 {
        assert b[..4] == (b + more)[..4] == (m + k)[..4] == m[..4];
      }
    }
  }

  /** What has arrived behind the first `n` messages begins with the next one, or is a part of it. */
  lemma NextMessage(ms: seq<Bytes>, n: nat, fed: Bytes, more: Bytes)
    requires n < |ms| && fed + more == Concat(ms) && Size(ms, n) <= |fed|
    ensures Size(ms, n + 1) == Size(ms, n) + |ms[n]|
    ensures fed[Size(ms, n)..] + more == ms[n] + Concat(ms[n + 1..])
    ensures Size(ms, n + 1) <= |fed| ==> fed[Size(ms, n)..] == ms[n] + fed[Size(ms, n + 1)..]
  {
    ConcatSplit(ms, n);
    ConcatSplit(ms[..n + 1], n);
    assert ms[..n + 1][..n] == ms[..n] && ms[..n + 1][n..] == [ms[n]] && ms[n..][1..] == ms[n + 1..];
    assert Concat([ms[n]]) == ms[n];
    BehindFront(fed, more, Concat(ms[..n]), ms[n], Concat(ms[n + 1..]));
  }

  lemma BehindFront(fed: Bytes, more: Bytes, front: Bytes, m: Bytes, k: Bytes)
    requires fed + more == front + (m + k) && |front| <= |fed|
    ensures fed[|front|..] + more == m + k
    ensures |front| + |m| <= |fed| ==> fed[|front|..] == m + fed[|front| + |m|..]
  {
    assert fed[|front|..] + more == (fed + more)[|front|..];
    if |front| + |m| <= |fed| {
      assert fed[|front|..][..|m|] == (fed[|front|..] + more)[..|m|] == m;
    }
  }

  lemma AllArrived(ms: seq<Bytes>, fed: Bytes, more: Bytes)
    requires fed + more == Concat(ms) && Size(ms, |ms|) <= |fed|
    ensures fed[Size(ms, |ms|)..] == []
  {
    assert ms[..|ms|] == ms;
  }

  lemma CountersStep<E(!new)>(ms: seq<Bytes>, xs: seq<Outcome<E>>, n: nat)
    requires n < |ms| == |xs|
    ensures Failures(xs[..n + 1]) == Failures(xs[..n]) + if xs[n].Decoded? then 0 else 1
    ensures FailuresAtEnd(xs[..n + 1]) == if xs[n].Decoded? then 0 else FailuresAtEnd(xs[..n]) + 1
    ensures DamagedBytes(ms[..n + 1], xs[..n + 1])
         == DamagedBytes(ms[..n], xs[..n]) + if xs[n].Decoded? then 0 else |ms[n]|
  {
    assert xs[..n + 1][..n] == xs[..n] && ms[..n + 1][..n] == ms[..n];
  }

  lemma StandingStep<E(!new)>(ms: seq<Bytes>, xs: seq<Outcome<E>>, n: nat, fed: Bytes, more: Bytes, d: Decoder)
    requires |ms| == |xs| && fed + more == Concat(ms)
    requires n < |ms| && Size(ms, n) <= Size(ms, n + 1) <= |fed| && d == StandingAt(ms, xs, n, fed, Ready)
    ensures var k := fed[Size(ms, n + 1)..];
      && d.buffer == ms[n] + k
      && (xs[n].Decoded? ==>
            StandingAt(ms, xs, n + 1, fed, Ready) == Decoder(k, Ready, d.framesDecoded + 1, 0, d.bytesSkipped))
      && (!xs[n].Decoded? ==>
            StandingAt(ms, xs, n + 1, fed, Recovering)
            == Decoder(k, Recovering, d.framesDecoded, d.errorCount + 1, d.bytesSkipped + |ms[n]|))
  {
    NextMessage(ms, n, fed, more);
    CountersStep(ms, xs, n);
  }

  lemma DecodeAtMessage<E(!new)>(
    parse: Parser<E>, ms: seq<Bytes>, xs: seq<Outcome<E>>, n: nat, fed: Bytes, more: Bytes, d: Decoder)
    requires Lawful(parse) && TakesAll(parse, ms, xs) && fed + more == Concat(ms)
    requires n < |ms| && Size(ms, n) <= Size(ms, n + 1) <= |fed| && d == StandingAt(ms, xs, n, fed, Ready)
    requires d.errorCount + 1 < MAX_ERRORS || xs[n].Decoded?
    ensures Decode(parse, d).1 == xs[n]
    ensures Decode(parse, d).0 == StandingAt(ms, xs, n + 1, fed, if xs[n].Decoded? then Ready else Recovering)
  {
    StandingStep(ms, xs, n, fed, more, d);
    assert Takes(parse, ms[n], xs[n]);
    DecodeTaken(parse, d, ms[n], xs[n], fed[Size(ms, n + 1)..]);
  }

  lemma DecodeNothing<E(!new)>(parse: Parser<E>, d: Decoder)
    requires Bounded(parse) && d.state == Ready && (d.buffer == [] || parse(d.buffer) == NeedMore)
    ensures Decode(parse, d) == (d, NoFrame)
  {
  }

  lemma DecodeWaits<E(!new)>(
    parse: Parser<E>, ms: seq<Bytes>, xs: seq<Outcome<E>>, n: nat, fed: Bytes, more: Bytes, d: Decoder)
    requires Lawful(parse) && TakesAll(parse, ms, xs) && fed + more == Concat(ms)
    requires n <= |ms| && Size(ms, n) <= |fed| && (n < |ms| ==> |fed| < Size(ms, n + 1))
    requires d == StandingAt(ms, xs, n, fed, Ready)
    ensures Decode(parse, d) == (d, NoFrame)
  {
    if n == |ms| {
      AllArrived(ms, fed, more);
    } else {
      NextMessage(ms, n, fed, more);
      PartWaits(parse, ms[n], xs[n], d.buffer, more, Concat(ms[n + 1..]));
    }
    DecodeNothing(parse, d);
  }

  /** How far one iteration gets: through the messages that have arrived, up to and with a damaged one. */
  function Reach<E>(ms: seq<Bytes>, xs: seq<Outcome<E>>, n: nat, fed: nat): (r: nat)
    requires n <= |ms| == |xs|
    ensures n <= r <= |ms|
    decreases |ms| - n
  {
    if n == |ms| || fed < Size(ms, n + 1) then n
    else if xs[n].Decoded? then Reach(ms, xs, n + 1, fed)
    else n + 1
  }

  /** The decoder is in recovery when the last thing it did was to skip a damaged message. */
  function StateAfter<E>(xs: seq<Outcome<E>>, n: nat, r: nat): DecoderState
    requires n <= r <= |xs|
  {
    if n < r && !xs[r - 1].Decoded? then Recovering else Ready
  }

  lemma IterateWaits<E(!new)>(
    parse: Parser<E>, ms: seq<Bytes>, xs: seq<Outcome<E>>, n: nat, fed: Bytes, more: Bytes, d: Decoder)
    requires Lawful(parse) && TakesAll(parse, ms, xs) && fed + more == Concat(ms)
    requires n <= |ms| && Size(ms, n) <= |fed| && (n < |ms| ==> |fed| < Size(ms, n + 1))
    requires d == StandingAt(ms, xs, n, fed, Ready)
    ensures Iterate(parse, d) == (d, xs[n..n])
  {
    DecodeWaits(parse, ms, xs, n, fed, more, d);
    IterateOne(parse, d, d, NoFrame);
    assert xs[n..n] == [];
  }

  lemma {:induction false} IterateReaches<E(!new)>(
    parse: Parser<E>, ms: seq<Bytes>, xs: seq<Outcome<E>>, n: nat, fed: Bytes, more: Bytes, d: Decoder)
    requires Lawful(parse) && TakesAll(parse, ms, xs) && !FiveFailures(xs) && fed + more == Concat(ms)
    requires n <= |ms| && Size(ms, n) <= |fed| && d == StandingAt(ms, xs, n, fed, Ready)
    ensures var r := Reach(ms, xs, n, |fed|);
      && Size(ms, r) <= |fed|
      && Iterate(parse, d).0 == StandingAt(ms, xs, r, fed, StateAfter(xs, n, r))
      && Iterate(parse, d).1 == xs[n..r]
    decreases |ms| - n
  {
    if n == |ms| || |fed| < Size(ms, n + 1) {
      IterateWaits(parse, ms, xs, n, fed, more, d);
    } else {
      var d1 := IterateAtMessage(parse, ms, xs, n, fed, more, d);
      if xs[n].Decoded? {
        var r := Reach(ms, xs, n + 1, |fed|);
        IterateReaches(parse, ms, xs, n + 1, fed, more, d1);
        StateAfterFrame(xs, n, r);
        IterateJoins(parse, d, d1, xs, n, r);
      }
    }
  }

  lemma StateAfterFrame<E>(xs: seq<Outcome<E>>, n: nat, r: nat)
    requires n < r <= |xs| && xs[n].Decoded?
    ensures StateAfter(xs, n, r) == StateAfter(xs, n + 1, r)
  {
  }

  lemma IterateOne<E(!new)>(parse: Parser<E>, d: Decoder, d1: Decoder, x: Outcome<E>)
    requires Bounded(parse) && d.state !in {Stopped, Recovering} && Decode(parse, d) == (d1, x)
    ensures x.NoFrame? ==> Iterate(parse, d) == (d1, [])
    ensures x.Decoded? ==> Iterate(parse, d).0 == Iterate(parse, d1).0
    ensures x.Decoded? ==> Iterate(parse, d).1 == [x] + Iterate(parse, d1).1
    ensures !x.NoFrame? && !x.Decoded? ==> Iterate(parse, d) == (d1, [x])
  {
  }

  lemma IterateAtMessage<E(!new)>(
    parse: Parser<E>, ms: seq<Bytes>, xs: seq<Outcome<E>>, n: nat, fed: Bytes, more: Bytes, d: Decoder)
    returns (d1: Decoder)
    requires Lawful(parse) && TakesAll(parse, ms, xs) && !FiveFailures(xs) && fed + more == Concat(ms)
    requires n < |ms| && Size(ms, n) <= |fed| && d == StandingAt(ms, xs, n, fed, Ready)
    requires Size(ms, n + 1) <= |fed|
    ensures d1 == StandingAt(ms, xs, n + 1, fed, if xs[n].Decoded? then Ready else Recovering)
    ensures xs[n].Decoded? ==> Iterate(parse, d).0 == Iterate(parse, d1).0
    ensures xs[n].Decoded? ==> Iterate(parse, d).1 == [xs[n]] + Iterate(parse, d1).1
    ensures !xs[n].Decoded? ==> Iterate(parse, d) == (d1, xs[n..n + 1])
  {
    assert xs[n..n + 1] == [xs[n]];
    FailureIsNotFifth(xs, n);
    NextMessage(ms, n, fed, more);
    DecodeAtMessage(parse, ms, xs, n, fed, more, d);
    d1 := Decode(parse, d).0;
    assert Takes(parse, ms[n], xs[n]);
    IterateOne(parse, d, d1, xs[n]);
  }

  lemma FailureIsNotFifth<E>(xs: seq<Outcome<E>>, n: nat)
    requires n < |xs| && !FiveFailures(xs)
    ensures FailuresAtEnd(xs[..n]) + 1 < MAX_ERRORS || xs[n].Decoded?
  {
    FiveFailAtIff(xs, n + 1);
    assert xs[..n + 1][..n] == xs[..n];
  }

  lemma IterateJoins<E(!new)>(parse: Parser<E>, d: Decoder, d1: Decoder, xs: seq<Outcome<E>>, n: nat, r: nat)
    requires Bounded(parse) && n < r <= |xs| && Iterate(parse, d).1 == [xs[n]] + Iterate(parse, d1).1
    requires Iterate(parse, d1).1 == xs[n + 1..r]
    ensures Iterate(parse, d).1 == xs[n..r]
  {
  }

  /** How many messages the decoder has behind it after the chunks; only sizes matter. */
  function Reached<E>(ms: seq<Bytes>, xs: seq<Outcome<E>>, chunks: seq<Bytes>): (r: nat)
    requires |ms| == |xs|
    ensures r <= |ms|
    decreases |chunks|
  {
    if chunks == [] then 0
    else Reach(ms, xs, Reached(ms, xs, chunks[..|chunks| - 1]), |Concat(chunks)|)
  }

  function StateReached<E>(ms: seq<Bytes>, xs: seq<Outcome<E>>, chunks: seq<Bytes>): DecoderState
    requires |ms| == |xs|
  {
    if chunks == [] then Ready
    else StateAfter(xs, Reached(ms, xs, chunks[..|chunks| - 1]), Reached(ms, xs, chunks))
  }

  lemma FeedStanding<E(!new)>(
    ms: seq<Bytes>, xs: seq<Outcome<E>>, n: nat, fed: Bytes, chunk: Bytes, state: DecoderState)
    requires n <= |ms| == |xs| && Size(ms, n) <= |fed| && state in {Ready, Recovering}
    requires Feed(StandingAt(ms, xs, n, fed, state), chunk).Some?
    ensures Feed(StandingAt(ms, xs, n, fed, state), chunk).value == StandingAt(ms, xs, n, fed + chunk, Ready)
  {
    assert (fed + chunk)[Size(ms, n)..] == fed[Size(ms, n)..] + chunk;
  }

  /**
   Frames and damaged frames in any order, with no five damaged ones in a row, in any chunks: exactly the
   outcomes of the first so many messages are reported, and what has arrived of the others is kept.
   */
  lemma {:induction false} SessionReaches<E(!new)>(
    parse: Parser<E>, ms: seq<Bytes>, xs: seq<Outcome<E>>, chunks: seq<Bytes>, more: Bytes)
    requires Lawful(parse) && TakesAll(parse, ms, xs) && !FiveFailures(xs)
    requires Concat(chunks) + more == Concat(ms) && Session(parse, FRESH, chunks).Some?
    ensures var n := Reached(ms, xs, chunks);
      && Size(ms, n) <= |Concat(chunks)|
      && Session(parse, FRESH, chunks).value
         == (StandingAt(ms, xs, n, Concat(chunks), StateReached(ms, xs, chunks)), xs[..n])
    decreases |chunks|
  {
    if chunks == [] {
      assert ms[..0] == [] && xs[..0] == [];
    } else {
      var c := |chunks| - 1;
      var front, chunk := chunks[..c], chunks[c];
      SplitLast(chunks);
      ConcatSnoc(front, chunk, more);
      SessionSnoc(parse, FRESH, front, chunk);
      SessionReaches(parse, ms, xs, front, chunk + more);
      var n, d := Reached(ms, xs, front), Session(parse, FRESH, front).value.0;
      ChunkReaches(parse, ms, xs, n, Concat(front), chunk, Concat(chunks), more,
                   StateReached(ms, xs, front), d, Feed(d, chunk).value);
    }
  }

  lemma SplitLast<T>(s: seq<T>)
    requires s != []
    ensures s == s[..|s| - 1] + [s[|s| - 1]]
  {
  }

  lemma ReportsJoin<T>(xs: seq<T>, n: nat, r: nat)
    requires n <= r <= |xs|
    ensures xs[..n] + xs[n..r] == xs[..r]
  {
  }

  /** One more chunk, after which `now` has arrived. */
  lemma ChunkReaches<E(!new)>(
    parse: Parser<E>, ms: seq<Bytes>, xs: seq<Outcome<E>>, n: nat, fed: Bytes, chunk: Bytes, now: Bytes, more: Bytes,
    state: DecoderState, d: Decoder, d0: Decoder)
    requires Lawful(parse) && TakesAll(parse, ms, xs) && !FiveFailures(xs)
    requires now == fed + chunk && now + more == Concat(ms)
    requires n <= |ms| && Size(ms, n) <= |fed| && state in {Ready, Recovering}
    requires d == StandingAt(ms, xs, n, fed, state) && Feed(d, chunk) == Some(d0)
    ensures var r := Reach(ms, xs, n, |now|);
      && Size(ms, r) <= |now|
      && Iterate(parse, d0).0 == StandingAt(ms, xs, r, now, StateAfter(xs, n, r))
      && xs[..n] + Iterate(parse, d0).1 == xs[..r]
  {
    FeedStanding(ms, xs, n, fed, chunk, state);
    IterateReaches(parse, ms, xs, n, now, more, d0);
    ReportsJoin(xs, n, Reach(ms, xs, n, |now|));
  }

  lemma ConcatSnoc(front: seq<Bytes>, chunk: Bytes, more: Bytes)
    ensures Concat(front + [chunk]) == Concat(front) + chunk
    ensures (Concat(front) + chunk) + more == Concat(front) + (chunk + more)
  {
    ConcatSplit(front + [chunk], |front|);
    assert (front + [chunk])[..|front|] == front && (front + [chunk])[|front|..] == [chunk];
    assert Concat([chunk]) == chunk;
  }

  // ----- Which chunkings bring everything out -----

  /** The number of chunks from the one with which the input reaches `size` bytes on. */
  function Polls(chunks: seq<Bytes>, size: nat): nat {
    if chunks == [] || |Concat(chunks)| < size then 0 else 1 + Polls(chunks[..|chunks| - 1], size)
  }

  /** From the chunk that completes message `i` on, more chunks than damaged messages before the last of `n`. */
  predicate EnoughAt<E>(ms: seq<Bytes>, xs: seq<Outcome<E>>, chunks: seq<Bytes>, n: nat, i: nat)
    requires i < n <= |ms| == |xs|
  {
    Failures(xs[i..n - 1]) < Polls(chunks, Size(ms, i + 1))
  }

  ghost predicate EnoughFor<E>(ms: seq<Bytes>, xs: seq<Outcome<E>>, chunks: seq<Bytes>, n: nat)
    requires n <= |ms| == |xs|
  {
    forall i :: 0 <= i < n ==> EnoughAt(ms, xs, chunks, n, i)
  }

  lemma {:induction false} FailuresSplit<E>(xs: seq<Outcome<E>>, i: nat, m: nat, n: nat)
    requires i <= m <= n <= |xs|
    ensures Failures(xs[i..n]) == Failures(xs[i..m]) + Failures(xs[m..n])
    decreases n
  {
    if m < n {
      FailuresSplit(xs, i, m, n - 1);
      assert xs[i..n][..n - i - 1] == xs[i..n - 1] && xs[m..n][..n - m - 1] == xs[m..n - 1];
    }
  }

  lemma SizesGrow(ms: seq<Bytes>, a: nat, b: nat)
    requires a <= b <= |ms|
    ensures Size(ms, a) <= Size(ms, b)
  {
    ConcatSplit(ms[..b], a);
    assert ms[..b][..a] == ms[..a];
  }

  lemma {:induction false} ReachIff<E>(ms: seq<Bytes>, xs: seq<Outcome<E>>, m: nat, fed: nat, n: nat)
    requires m < n <= |ms| == |xs|
    ensures n <= Reach(ms, xs, m, fed) <==> Size(ms, n) <= fed && Failures(xs[m..n - 1]) == 0
    decreases |ms| - m
  {
    SizesGrow(ms, m + 1, n);
    if Size(ms, m + 1) <= fed && m + 1 < n {
      FailuresSplit(xs, m, m + 1, n - 1);
      assert xs[m..m + 1] == [xs[m]];
      if xs[m].Decoded? {
        ReachIff(ms, xs, m + 1, fed, n);
      }
    }
  }

  /** One iteration ends at the first damaged message, when that has arrived. */
  lemma {:induction false} ReachesDamage<E>(ms: seq<Bytes>, xs: seq<Outcome<E>>, n: nat, q: nat, fed: nat)
    requires n <= q < |ms| == |xs| && Size(ms, q + 1) <= fed
    requires !xs[q].Decoded? && forall i :: n <= i < q ==> xs[i].Decoded?
    ensures Reach(ms, xs, n, fed) == q + 1
    decreases q - n
  {
    SizesGrow(ms, n + 1, q + 1);
    if n < q {
      ReachesDamage(ms, xs, n + 1, q, fed);
    }
  }

  /** So in one chunk nothing behind that message is reported. */
  lemma OneChunkReaches<E(!new)>(
    parse: Parser<E>, ms: seq<Bytes>, xs: seq<Outcome<E>>, q: nat, chunks: seq<Bytes>)
    requires Lawful(parse) && TakesAll(parse, ms, xs) && !FiveFailures(xs)
    requires |chunks| == 1 && chunks[0] == Concat(ms) && |chunks[0]| <= MAX_BUFFER_SIZE
    requires q < |ms| && !xs[q].Decoded? && forall i :: 0 <= i < q ==> xs[i].Decoded?
    ensures Session(parse, FRESH, chunks)
         == Some((Decoder(Concat(ms[q + 1..]), Recovering, q, 1, |ms[q]|), xs[..q + 1]))
  {
    var s := chunks[0];
    OneChunk(chunks);
    SmallInputFits(parse, FRESH, chunks);
    SizesGrow(ms, q + 1, |ms|);
    assert ms[..|ms|] == ms;
    ReachesDamage(ms, xs, 0, q, |s|);
    OneChunkReached(ms, xs, chunks, q + 1);
    SessionReaches(parse, ms, xs, chunks, []);
    StandingBehindFirst(ms, xs, q, s);
  }

  lemma {:induction false} NoFailures<E>(ms: seq<Bytes>, xs: seq<Outcome<E>>)
    requires |ms| == |xs| && forall i :: 0 <= i < |xs| ==> xs[i].Decoded?
    ensures Failures(xs) == 0 && FailuresAtEnd(xs) == 0 && DamagedBytes(ms, xs) == 0
    decreases |xs|
  {
    if xs != [] {
      NoFailures(ms[..|xs| - 1], xs[..|xs| - 1]);
    }
  }

  lemma StandingBehindFirst<E(!new)>(ms: seq<Bytes>, xs: seq<Outcome<E>>, q: nat, s: Bytes)
    requires q < |ms| == |xs| && s == Concat(ms) && Size(ms, q + 1) <= |s|
    requires !xs[q].Decoded? && forall i :: 0 <= i < q ==> xs[i].Decoded?
    ensures StandingAt(ms, xs, q + 1, s, Recovering)
         == Decoder(Concat(ms[q + 1..]), Recovering, q, 1, |ms[q]|)
  {
    NoFailures(ms[..q], xs[..q]);
    CountersStep(ms, xs, q);
    ConcatSplit(ms, q + 1);
  }

  lemma OneChunk(chunks: seq<Bytes>)
    requires |chunks| == 1
    ensures chunks[..0] == [] && Concat(chunks) == chunks[0] && Concat(chunks) + [] == chunks[0]
  {
    assert chunks[1..] == [];
  }

  lemma OneChunkReached<E>(ms: seq<Bytes>, xs: seq<Outcome<E>>, chunks: seq<Bytes>, r: nat)
    requires |ms| == |xs| && |chunks| == 1 && Reach(ms, xs, 0, |chunks[0]|) == r
    ensures Reached(ms, xs, chunks) == r && StateReached(ms, xs, chunks) == StateAfter(xs, 0, r)
  {
    OneChunk(chunks);
  }

  lemma PollsStep(chunks: seq<Bytes>, front: seq<Bytes>, size: nat)
    requires chunks != [] && front == chunks[..|chunks| - 1]
    ensures Polls(front, size) <= Polls(chunks, size)
    ensures Polls(chunks, size) == if |Concat(chunks)| < size then 0 else Polls(front, size) + 1
  {
    ConcatSplit(chunks, |chunks| - 1);
  }

  lemma FailuresOneMore<E>(xs: seq<Outcome<E>>, i: nat, m: nat, n: nat)
    requires i < m < n <= |xs| && Failures(xs[m..n - 1]) == 0
    ensures Failures(xs[i..n - 1]) <= Failures(xs[i..m - 1]) + 1
  {
    FailuresSplit(xs, i, m, n - 1);
    FailuresSplit(xs, i, m - 1, m);
  }

  lemma ReachGivesEnoughAt<E>(
    ms: seq<Bytes>, xs: seq<Outcome<E>>, chunks: seq<Bytes>, front: seq<Bytes>, m: nat, n: nat, i: nat)
    requires chunks != [] && front == chunks[..|chunks| - 1] && i < m < n <= |ms| == |xs|
    requires EnoughAt(ms, xs, front, m, i) && Size(ms, n) <= |Concat(chunks)| && Failures(xs[m..n - 1]) == 0
    ensures EnoughAt(ms, xs, chunks, n, i)
  {
    PollsStep(chunks, front, Size(ms, i + 1));
    SizesGrow(ms, i + 1, n);
    FailuresOneMore(xs, i, m, n);
  }

  lemma ReachGivesEnoughBehind<E>(
    ms: seq<Bytes>, xs: seq<Outcome<E>>, chunks: seq<Bytes>, m: nat, n: nat, i: nat)
    requires chunks != [] && m <= i < n <= |ms| == |xs|
    requires Size(ms, n) <= |Concat(chunks)| && Failures(xs[m..n - 1]) == 0
    ensures EnoughAt(ms, xs, chunks, n, i)
  {
    SizesGrow(ms, i + 1, n);
    FailuresSplit(xs, m, i, n - 1);
  }

  lemma ReachGivesEnough<E>(
    ms: seq<Bytes>, xs: seq<Outcome<E>>, chunks: seq<Bytes>, front: seq<Bytes>, m: nat, n: nat)
    requires chunks != [] && front == chunks[..|chunks| - 1] && m < n <= |ms| == |xs|
    requires EnoughFor(ms, xs, front, m) && Size(ms, n) <= |Concat(chunks)| && Failures(xs[m..n - 1]) == 0
    ensures EnoughFor(ms, xs, chunks, n)
  {
    forall i | 0 <= i < n ensures EnoughAt(ms, xs, chunks, n, i) {
      if i < m {
        ReachGivesEnoughAt(ms, xs, chunks, front, m, n, i);
      } else {
        ReachGivesEnoughBehind(ms, xs, chunks, m, n, i);
      }
    }
  }

  lemma EnoughHasNoFailure<E>(
    ms: seq<Bytes>, xs: seq<Outcome<E>>, chunks: seq<Bytes>, front: seq<Bytes>, m: nat, n: nat, i: nat)
    requires chunks != [] && front == chunks[..|chunks| - 1] && i <= m < n <= |ms| == |xs|
    requires !EnoughAt(ms, xs, front, m + 1, i) && EnoughAt(ms, xs, chunks, n, i)
    ensures Failures(xs[m..n - 1]) == 0
  {
    PollsStep(chunks, front, Size(ms, i + 1));
    FailuresSplit(xs, i, m, n - 1);
  }

  lemma EnoughHasArrived<E>(ms: seq<Bytes>, xs: seq<Outcome<E>>, chunks: seq<Bytes>, n: nat)
    requires 0 < n <= |ms| == |xs| && EnoughAt(ms, xs, chunks, n, n - 1)
    ensures Size(ms, n) <= |Concat(chunks)|
  {
  }

  lemma EnoughGivesReach<E>(
    ms: seq<Bytes>, xs: seq<Outcome<E>>, chunks: seq<Bytes>, front: seq<Bytes>, m: nat, n: nat)
    requires chunks != [] && front == chunks[..|chunks| - 1] && m < n <= |ms| == |xs|
    requires !EnoughFor(ms, xs, front, m + 1) && EnoughFor(ms, xs, chunks, n)
    ensures Size(ms, n) <= |Concat(chunks)| && Failures(xs[m..n - 1]) == 0
  {
    EnoughHasArrived(ms, xs, chunks, n);
    var i :| 0 <= i < m + 1 && !EnoughAt(ms, xs, front, m + 1, i);
    EnoughHasNoFailure(ms, xs, chunks, front, m, n, i);
  }

  /** How far a session gets, said of every message at once. */
  lemma {:induction false} ReachedIff<E>(ms: seq<Bytes>, xs: seq<Outcome<E>>, chunks: seq<Bytes>, n: nat)
    requires n <= |ms| == |xs|
    ensures n <= Reached(ms, xs, chunks) <==> EnoughFor(ms, xs, chunks, n)
    decreases |chunks|
  {
    if chunks == [] {
      assert n > 0 ==> !EnoughAt(ms, xs, chunks, n, n - 1);
    } else {
      var front := chunks[..|chunks| - 1];
      var m := Reached(ms, xs, front);
      if n <= m {
        ReachedIff(ms, xs, front, n);
        EnoughGrows(ms, xs, chunks, front, n);
      } else {
        ReachedIff(ms, xs, front, m);
        ReachedIff(ms, xs, front, m + 1);
        ReachIff(ms, xs, m, |Concat(chunks)|, n);
        if n <= Reached(ms, xs, chunks) {
          ReachGivesEnough(ms, xs, chunks, front, m, n);
        }
        if EnoughFor(ms, xs, chunks, n) {
          EnoughGivesReach(ms, xs, chunks, front, m, n);
        }
      }
    }
  }

  lemma EnoughGrows<E>(ms: seq<Bytes>, xs: seq<Outcome<E>>, chunks: seq<Bytes>, front: seq<Bytes>, n: nat)
    requires chunks != [] && front == chunks[..|chunks| - 1]
    requires n <= |ms| == |xs| && EnoughFor(ms, xs, front, n)
    ensures EnoughFor(ms, xs, chunks, n)
  {
    forall i | 0 <= i < n ensures EnoughAt(ms, xs, chunks, n, i) {
      assert EnoughAt(ms, xs, front, n, i);
      PollsStep(chunks, front, Size(ms, i + 1));
    }
  }

  /**
   Everything is reported, and nothing is left over, exactly when for each message there are more chunks from
   the one that completes it on than damaged messages from it on, the last message not counted.
   */
  lemma AllReportedIff<E(!new)>(parse: Parser<E>, ms: seq<Bytes>, xs: seq<Outcome<E>>, chunks: seq<Bytes>)
    requires Lawful(parse) && TakesAll(parse, ms, xs) && !FiveFailures(xs)
    requires Concat(chunks) == Concat(ms) && Session(parse, FRESH, chunks).Some?
    ensures var (d, ys) := Session(parse, FRESH, chunks).value;
      var n := Reached(ms, xs, chunks);
      && ys == xs[..n] && Size(ms, n) <= |Concat(chunks)|
      && d == StandingAt(ms, xs, n, Concat(chunks), StateReached(ms, xs, chunks))
      && (ys == xs <==> EnoughFor(ms, xs, chunks, |ms|))
      && (ys == xs ==> d.buffer == [])
  {
    var n := Reached(ms, xs, chunks);
    assert Concat(chunks) + [] == Concat(ms);
    SessionReaches(parse, ms, xs, chunks, []);
    ReachedIff(ms, xs, chunks, |ms|);
    if n == |ms| {
      AllArrived(ms, Concat(chunks), []);
      assert xs[..n] == xs;
    }
  }

  // ----- Everything comes out after enough chunks -----

  lemma {:induction false} FailuresAppend<E>(a: seq<Outcome<E>>, b: seq<Outcome<E>>)
    ensures Failures(a + b) == Failures(a) + Failures(b)
    decreases |b|
  {
    if b == [] {
      assert a + b == a;
    } else {
      assert (a + b)[..|a + b| - 1] == a + b[..|b| - 1];
      FailuresAppend(a, b[..|b| - 1]);
    }
  }

  lemma {:induction false} FailuresOfOne<E>(x: Outcome<E>)
    ensures Failures([x]) == if x.Decoded? then 0 else 1
  {
    assert [x][..0] == [];
  }

  /** One iteration reports all there is, or ends with a failure. */
  lemma {:induction false} IterateProgress<E(!new)>(parse: Parser<E>, d: Decoder)
    requires Bounded(parse) && d.state != Recovering
    ensures var (d1, xs) := Iterate(parse, d);
      && Drain(parse, d).1 == xs + Drain(parse, d1).1
      && (Drain(parse, d1).1 == [] || Failures(xs) >= 1)
      && (d1.state == Recovering ==> xs != [] && !xs[|xs| - 1].Decoded?)
    decreases |d.buffer|
  {
    if d.state != Stopped {
      var (d1, x) := Decode(parse, d);
      if x.Decoded? {
        IterateProgress(parse, d1);
        Associative([x], Iterate(parse, d1).1, Drain(parse, Iterate(parse, d1).0).1);
        FailuresAppend([x], Iterate(parse, d1).1);
      } else {
        IterateOne(parse, d, d1, x);
        FailuresOfOne(x);
      }
    }
  }

  lemma FeedNothing<E(!new)>(parse: Parser<E>, d: Decoder)
    requires Bounded(parse) && Feed(d, []).Some?
    ensures Drain(parse, Feed(d, []).value).1 == Drain(parse, d).1
  {
    assert d.buffer + [] == d.buffer;
    if d.state == Recovering {
      DrainIgnoresState(parse, d);
    }
  }

  /** Every chunk that comes when the input is complete brings the session one failure further, or to the end. */
  lemma {:induction false} SessionProgress<E(!new)>(parse: Parser<E>, chunks: seq<Bytes>)
    requires Lawful(parse) && chunks != [] && Session(parse, FRESH, chunks).Some?
    ensures var ((d, xs), all) := (Session(parse, FRESH, chunks).value, Drain(parse, More(FRESH, Concat(chunks))).1);
      && all == xs + Drain(parse, d).1
      && (Drain(parse, d).1 == []
          || Failures(Drain(parse, d).1) + Polls(chunks, |Concat(chunks)|) <= Failures(all))
      && (d.state == Recovering ==> xs != [] && !xs[|xs| - 1].Decoded?)
    decreases |chunks|
  {
    var c := |chunks| - 1;
    var front, chunk := chunks[..c], chunks[c];
    SplitLast(chunks);
    SessionSnoc(parse, FRESH, front, chunk);
    var (d0, xs0) := Session(parse, FRESH, front).value;
    var f := Feed(d0, chunk).value;
    var (d, ys) := Iterate(parse, f);
    IterateProgress(parse, f);
    ChunkingDoesNotMatter(parse, FRESH, chunks);
    FailuresAppend(xs0, ys);
    FailuresAppend(xs0 + ys, Drain(parse, d).1);
    ConcatSnoc(front, chunk, []);
    if |Concat(front)| == |Concat(chunks)| && front != [] {
      assert Concat(front) == Concat(chunks) && chunk == [];
      SessionProgress(parse, front);
      FeedNothing(parse, d0);
      FailuresAppend(ys, Drain(parse, d).1);
    }
  }

  /**
   Any bytes at all, in any chunks: once more chunks than failures have come since the input was complete, the
   session has reported all that the input yields, and nothing more.
   */
  lemma EnoughChunksReportAll<E(!new)>(parse: Parser<E>, chunks: seq<Bytes>)
    requires Lawful(parse) && chunks != [] && Session(parse, FRESH, chunks).Some?
    requires var all := Drain(parse, More(FRESH, Concat(chunks))).1;
      Failures(all) < Polls(chunks, |Concat(chunks)|)
    ensures var ((d, xs), (end, all)) := (Session(parse, FRESH, chunks).value, Drain(parse, More(FRESH, Concat(chunks))));
      && xs == all && d == end.(state := d.state)
      && (d.state == Recovering ==> all != [] && !all[|all| - 1].Decoded?)
  {
    SessionProgress(parse, chunks);
    ChunkingDoesNotMatter(parse, FRESH, chunks);
    var (d, xs) := Session(parse, FRESH, chunks).value;
    assert xs + [] == xs;
    DrainedIsAt(parse, d);
  }

  lemma DrainedIsAt<E(!new)>(parse: Parser<E>, d: Decoder)
    requires Bounded(parse) && Drain(parse, d).1 == []
    ensures d == Drain(parse, d).0.(state := d.state)
  {
  }

  // ----- Stray bytes -----

  /** In front of `tail` the parser fails at every byte of `g`, with an error that says nothing of frame bounds. */
  predicate Stray<E>(parse: Parser<E>, g: Bytes, tail: Bytes) {
    g == [] || (parse(g + tail).Failed? && !DataError(parse(g + tail).error) && Stray(parse, g[1..], tail))
  }

  function StrayErrors<E>(parse: Parser<E>, g: Bytes, tail: Bytes): (xs: seq<Outcome<E>>)
    requires Stray(parse, g, tail)
    ensures |xs| == |g| && forall i :: 0 <= i < |xs| ==> xs[i].Error?
  {
    if g == [] then [] else [Error(parse(g + tail).error)] + StrayErrors(parse, g[1..], tail)
  }

  lemma DecodeStray<E(!new)>(parse: Parser<E>, d: Decoder, g: Bytes, tail: Bytes)
    requires Bounded(parse) && g != [] && parse(g + tail).Failed? && !DataError(parse(g + tail).error)
    requires d.state != Stopped && d.buffer == g + tail && d.errorCount + 1 < MAX_ERRORS
    ensures Decode(parse, d)
         == (Decoder(g[1..] + tail, Recovering, d.framesDecoded, d.errorCount + 1, d.bytesSkipped + 1),
             Error(parse(g + tail).error))
  {
    assert (g + tail)[1..] == g[1..] + tail;
  }

  lemma {:induction false} DrainOneStray<E(!new)>(
    parse: Parser<E>, d: Decoder, g: Bytes, tail: Bytes, x: Outcome<E>, d1: Decoder)
    requires Bounded(parse) && g != [] && parse(g + tail).Failed? && !DataError(parse(g + tail).error)
    requires d.state != Stopped && d.buffer == g + tail && d.errorCount + 1 < MAX_ERRORS
    requires x == Error(parse(g + tail).error)
    requires d1 == Decoder(g[1..] + tail, Recovering, d.framesDecoded, d.errorCount + 1, d.bytesSkipped + 1)
    ensures DrainsTo(parse, d, [x], d1)
  {
    DecodeStray(parse, d, g, tail);
    DrainsToOne(parse, d);
  }

  /** Stray bytes are skipped one at a time, each with an error. */
  lemma {:induction false} DrainStray<E(!new)>(
    parse: Parser<E>, d: Decoder, g: Bytes, tail: Bytes, xs: seq<Outcome<E>>, end: Decoder)
    requires Bounded(parse) && Stray(parse, g, tail) && xs == StrayErrors(parse, g, tail)
    requires d.state in {Ready, Recovering} && d.buffer == g + tail && d.errorCount + |g| < MAX_ERRORS
    requires end == Decoder(tail, Ready, d.framesDecoded, d.errorCount + |g|, d.bytesSkipped + |g|)
    ensures DrainsTo(parse, d, xs, end)
    decreases |g|
  {
    if g == [] {
      DrainNoStray(parse, d, end);
    } else {
      var x, rest := Error(parse(g + tail).error), StrayErrors(parse, g[1..], tail);
      var d1 := Decoder(g[1..] + tail, Recovering, d.framesDecoded, d.errorCount + 1, d.bytesSkipped + 1);
      DrainOneStray(parse, d, g, tail, x, d1);
      DrainStray(parse, d1, g[1..], tail, rest, end);
      DrainsToTrans(parse, d, [x], d1, rest, end);
    }
  }

  lemma {:induction false} DrainNoStray<E(!new)>(parse: Parser<E>, d: Decoder, end: Decoder)
    requires Bounded(parse) && d.state != Stopped && end.buffer == d.buffer && end == d.(state := Ready, buffer := end.buffer)
    ensures DrainsTo(parse, d, [], end)
  {
    DrainsToSelf(parse, d);
  }

  lemma {:induction false} FailuresOfStray<E>(xs: seq<Outcome<E>>)
    requires forall i :: 0 <= i < |xs| ==> xs[i].Error?
    ensures Failures(xs) == |xs|
  {
    if xs != [] {
      FailuresOfStray(xs[..|xs| - 1]);
    }
  }

  lemma FailuresOfFrames<E(!new)>(es: seq<E>)
    ensures Failures(Frames(es)) == 0
    decreases |es|
  {
    if es != [] {
      FailuresOfFrames(es[1..]);
      FailuresAppend([Decoded(es[0])], Frames(es[1..]));
      FailuresOfOne(Decoded(es[0]));
    }
  }

  lemma {:induction false} DrainBehindStray<E(!new)>(parse: Parser<E>, g: Bytes, ms: seq<Bytes>, es: seq<E>)
    requires Lawful(parse) && ReadsAll(parse, ms, es) && ms != [] && |g| < MAX_ERRORS && Stray(parse, g, Concat(ms))
    ensures Drain(parse, More(FRESH, g + Concat(ms)))
         == (Decoder([], Ready, |es|, 0, |g|), StrayErrors(parse, g, Concat(ms)) + Frames(es))
  {
    MoreFresh(g + Concat(ms));
    var behind := Decoder(Concat(ms), Ready, 0, |g|, |g|);
    DrainStray(parse, More(FRESH, g + Concat(ms)), g, Concat(ms), StrayErrors(parse, g, Concat(ms)), behind);
    DrainMessages(parse, behind, ms, es, Decoder([], Ready, |es|, 0, |g|));
  }

  lemma {:induction false} ErrorsThenFrames<E(!new)>(errors: seq<Outcome<E>>, es: seq<E>, all: seq<Outcome<E>>)
    requires all == errors + Frames(es) && es != [] && forall i :: 0 <= i < |errors| ==> errors[i].Error?
    ensures Failures(all) == |errors| && all != [] && all[|all| - 1].Decoded? && FailuresAtEnd(all) == 0
  {
    FailuresOfStray(errors);
    FailuresOfFrames(es);
    FailuresAppend(errors, Frames(es));
    FramesAreFrames(es);
    assert all[|all| - 1] == Frames(es)[|es| - 1];
  }

  /**
   Fewer than five stray bytes in front of frames cost one error and one byte each and no frame: once more
   chunks than stray bytes have come since the input was complete, every frame has been reported.
   */
  lemma {:induction false} Resynchronises<E(!new)>(
    parse: Parser<E>, g: Bytes, ms: seq<Bytes>, es: seq<E>, chunks: seq<Bytes>)
    requires Lawful(parse) && ReadsAll(parse, ms, es) && ms != [] && |g| < MAX_ERRORS && Stray(parse, g, Concat(ms))
    requires Concat(chunks) == g + Concat(ms) && Session(parse, FRESH, chunks).Some?
    requires |g| < Polls(chunks, |Concat(chunks)|)
    ensures Session(parse, FRESH, chunks).value
         == (Decoder([], Ready, |es|, 0, |g|), StrayErrors(parse, g, Concat(ms)) + Frames(es))
  {
    DrainBehindStray(parse, g, ms, es);
    ErrorsThenFrames(StrayErrors(parse, g, Concat(ms)), es, Drain(parse, More(FRESH, Concat(chunks))).1);
    EnoughChunksReportAll(parse, chunks);
    ReadyAfterFrame(parse, chunks);
  }

  /** A session whose last report is a frame is neither in recovery nor stopped. */
  lemma {:induction false} ReadyAfterFrame<E(!new)>(parse: Parser<E>, chunks: seq<Bytes>)
    requires Lawful(parse) && chunks != [] && Session(parse, FRESH, chunks).Some?
    requires var xs := Session(parse, FRESH, chunks).value.1; xs != [] && xs[|xs| - 1].Decoded?
    ensures Session(parse, FRESH, chunks).value.0.state == Ready
  {
    SessionProgress(parse, chunks);
    SessionIsSettled(parse, FRESH, chunks);
    NotStoppedAfterFrame(parse, chunks);
  }

  lemma {:induction false} NotStoppedAfterFrame<E(!new)>(parse: Parser<E>, chunks: seq<Bytes>)
    requires Bounded(parse) && Session(parse, FRESH, chunks).Some?
    requires var xs := Session(parse, FRESH, chunks).value.1; xs != [] && xs[|xs| - 1].Decoded?
    ensures Session(parse, FRESH, chunks).value.0.state != Stopped
  {
    SessionStopsIff(parse, chunks);
    var xs := Session(parse, FRESH, chunks).value.1;
    assert !xs[|xs| - 1].TooManyErrors?;
  }

  /** Between chunks a decoder is ready, in recovery or stopped. */
  lemma {:induction false} SessionIsSettled<E(!new)>(parse: Parser<E>, d: Decoder, chunks: seq<Bytes>)
    requires Bounded(parse) && d.state != Parsing && Session(parse, d, chunks).Some?
    ensures Session(parse, d, chunks).value.0.state != Parsing
    decreases |chunks|
  {
    if chunks != [] {
      IterateIsSettled(parse, Feed(d, chunks[0]).value);
      SessionIsSettled(parse, Iterate(parse, Feed(d, chunks[0]).value).0, chunks[1..]);
    }
  }

  lemma {:induction false} IterateIsSettled<E(!new)>(parse: Parser<E>, d: Decoder)
    requires Bounded(parse) && d.state != Parsing
    ensures Iterate(parse, d).0.state != Parsing
    decreases |d.buffer|
  {
    if d.state == Ready && Decode(parse, d).1.Decoded? {
      IterateIsSettled(parse, Decode(parse, d).0);
    }
  }

  /** The parser has read `m` as `e` in some buffer. */
  ghost predicate WasRead<E(!new)>(parse: Parser<E>, m: Bytes, e: E) {
    exists k :: parse(m + k) == Parsed(e, |m|)
  }

  ghost predicate AllWereRead<E(!new)>(parse: Parser<E>, ms: seq<Bytes>, es: seq<E>) {
    |ms| == |es| && forall i :: 0 <= i < |ms| ==> WasRead(parse, ms[i], es[i])
  }

  lemma ReadAtFront<E(!new)>(parse: Parser<E>, d: Decoder) returns (m: Bytes)
    requires Bounded(parse) && d.state != Stopped && Decode(parse, d).1.Decoded?
    ensures d.buffer == m + Decode(parse, d).0.buffer && WasRead(parse, m, Decode(parse, d).1.event)
  {
    var n := parse(d.buffer).consumed;
    m := d.buffer[..n];
    assert d.buffer == m + d.buffer[n..];
  }

  lemma {:induction false} DrainedAreMessages<E(!new)>(parse: Parser<E>, d: Decoder)
    returns (ms: seq<Bytes>, es: seq<E>)
    requires Bounded(parse) && d.state != Stopped && OnlyFrames(Drain(parse, d).1)
    ensures AllWereRead(parse, ms, es) && Drain(parse, d).1 == Frames(es)
    ensures d.buffer == Concat(ms) + Drain(parse, d).0.buffer
    decreases |d.buffer|
  {
    var (d1, x) := Decode(parse, d);
    ms, es := [], [];
    if !x.NoFrame? {
      DrainsToOne(parse, d);
      var xs := Drain(parse, d1).1;
      assert Drain(parse, d).1[0] == x;
      SplitOnlyFrames([x], xs);
      var m := ReadAtFront(parse, d);
      var ms1, es1 := DrainedAreMessages(parse, d1);
      ms, es := [m] + ms1, [x.event] + es1;
      assert ms[1..] == ms1 && es[1..] == es1;
      Associative(m, Concat(ms1), Drain(parse, d1).0.buffer);
    }
  }
}
