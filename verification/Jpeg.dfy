/**
 The JPEG dimension scan.  A `Segment` is one marker segment as section B.1.1 of ITU-T T.81 lays it out,
 preceded by whatever stray bytes the scan tolerates; a frame header (section B.2.2) ends the run.  The
 scan finds dimensions exactly in the byte strings that are such a run, and then finds the frame's own.
 */
module Jpeg {
  import opened Bytes

  /** Markers that stand alone. */
  predicate Standalone(marker: Byte) {
    marker == 0x01 || 0xd0 <= marker <= 0xd9
  }

  predicate IsSof(marker: Byte) {
    0xc0 <= marker <= 0xcf && marker != 0xc4 && marker != 0xc8 && marker != 0xcc
  }

  // ----- Reading: what the scan computes, on the bytes not yet passed -----

  function DropStray(b: Bytes): (r: Bytes)
    ensures |r| <= |b|
  {
    if b != [] && b[0] != 0xff then DropStray(b[1..]) else b
  }

  function DropFill(b: Bytes): (r: Bytes)
    ensures |r| <= |b|
  {
    if b != [] && b[0] == 0xff then DropFill(b[1..]) else b
  }

  function Scan(b: Bytes): Option<(nat, nat)>
    decreases |b|, 0
  {
    if |b| <= 9 || |DropStray(b)| <= 3 then None
    else
      var d := DropFill(DropStray(b));
      if d == [] then None else ScanMarker(d[0], d[1..])
  }

  /** `b` follows the marker. */
  function ScanMarker(marker: Byte, b: Bytes): Option<(nat, nat)>
    decreases |b|, 1
  {
    if Standalone(marker) then Scan(b)
    else if |b| < 2 || WordAt(b, 0) < 2 || |b| < WordAt(b, 0) then None
    else if IsSof(marker) && WordAt(b, 0) >= 7 then Some((WordAt(b, 5), WordAt(b, 3)))
    else Scan(b[WordAt(b, 0)..])
  }

  function Dimensions(b: Bytes): Option<(nat, nat)> {
    if |b| < 4 || b[0] != 0xff || b[1] != 0xd8 then None else Scan(b[2..])
  }

  // ----- Marker segments and their bytes before a continuation -----

  /** The start-of-frame markers of Table B.1 of ITU-T T.81. */
  predicate FrameMarker(m: Byte) {
    || m == 0xc0 || m == 0xc1 || m == 0xc2 || m == 0xc3 || m == 0xc5 || m == 0xc6 || m == 0xc7
    || m == 0xc9 || m == 0xca || m == 0xcb || m == 0xcd || m == 0xce || m == 0xcf
  }

  /** The markers of that table that have no length: TEM, RST0 to RST7, SOI and EOI. */
  predicate BareMarker(m: Byte) {
    || m == 0x01 || m == 0xd0 || m == 0xd1 || m == 0xd2 || m == 0xd3 || m == 0xd4 || m == 0xd5
    || m == 0xd6 || m == 0xd7 || m == 0xd8 || m == 0xd9
  }

  lemma MarkersAre(m: Byte)
    ensures IsSof(m) <==> FrameMarker(m)
    ensures Standalone(m) <==> BareMarker(m)
  {
  }

  /** Stray bytes, fill bytes, a marker, and the parameters after the length of a segment that has one. */
  datatype Segment = Segment(stray: Bytes, fill: nat, marker: Byte, parameters: Bytes)

  predicate Good(s: Segment) {
    && (forall i :: 0 <= i < |s.stray| ==> s.stray[i] != 0xff)
    && s.fill >= 1 && s.marker != 0xff && |s.parameters| + 2 < 0x1_0000
    && (BareMarker(s.marker) ==> s.parameters == [])
  }

  /** The segment carries a frame size: precision, height, width. */
  predicate IsFrame(s: Segment) {
    Good(s) && FrameMarker(s.marker) && |s.parameters| >= 5
  }

  function Fill(n: nat): (b: Bytes)
    ensures |b| == n
  {
    if n == 0 then [] else [0xff] + Fill(n - 1)
  }

  function PrintBody(s: Segment, k: Bytes): Bytes
    requires Good(s)
  {
    if BareMarker(s.marker) then k else Be16(|s.parameters| + 2) + s.parameters + k
  }

  function PrintSegment(s: Segment, k: Bytes): (b: Bytes)
    requires Good(s)
    ensures |b| >= |s.stray| + s.fill + 1 + |k|
  {
    s.stray + (Fill(s.fill) + ([s.marker] + PrintBody(s, k)))
  }

  predicate GoodRun(run: seq<Segment>) {
    forall i :: 0 <= i < |run| ==> Good(run[i]) && !IsFrame(run[i])
  }

  function PrintRun(run: seq<Segment>, k: Bytes): (b: Bytes)
    requires GoodRun(run)
    ensures |b| >= |k|
  {
    if run == [] then k else PrintSegment(run[0], PrintRun(run[1..], k))
  }

  /** Start of image, a run of segments, a frame header, and the rest of the file. */
  function Print(run: seq<Segment>, frame: Segment, rest: Bytes): Bytes
    requires GoodRun(run) && IsFrame(frame)
  {
    [0xff, 0xd8] + PrintRun(run, PrintSegment(frame, rest))
  }

  function FrameSize(frame: Segment): (nat, nat)
    requires IsFrame(frame)
  {
    (WordAt(frame.parameters, 3), WordAt(frame.parameters, 1))
  }

  /**
   The scan wants ten bytes before it starts on a segment, one more than the shortest frame header, so it
   misses a shortest frame header that ends the file.
   */
  predicate Reached(frame: Segment, rest: Bytes) {
    |frame.stray| + frame.fill + |frame.parameters| + |rest| > 6
  }

  // ----- Every such run is read -----

  lemma {:induction false} StrayDropped(stray: Bytes, k: Bytes)
    requires forall i :: 0 <= i < |stray| ==> stray[i] != 0xff
    requires k != [] && k[0] == 0xff
    ensures DropStray(stray + k) == k
  {
    if stray == [] {
      assert stray + k == k;
    } else {
      assert (stray + k)[1..] == stray[1..] + k;
      StrayDropped(stray[1..], k);
    }
  }

  lemma {:induction false} FillDropped(n: nat, k: Bytes)
    requires k != [] && k[0] != 0xff
    ensures DropFill(Fill(n) + k) == k
  {
    if n == 0 {
      assert Fill(n) + k == k;
    } else {
      assert (Fill(n) + k)[1..] == Fill(n - 1) + k;
      FillDropped(n - 1, k);
    }
  }

  lemma SegmentOpened(s: Segment, k: Bytes)
    requires Good(s) && |PrintSegment(s, k)| > 9 && s.fill + |PrintBody(s, k)| > 2
    ensures Scan(PrintSegment(s, k)) == ScanMarker(s.marker, PrintBody(s, k))
  {
    var d := [s.marker] + PrintBody(s, k);
    var c := Fill(s.fill) + d;
    assert c[0] == 0xff;
    StrayDropped(s.stray, c);
    FillDropped(s.fill, d);
    assert d[1..] == PrintBody(s, k);
  }

  lemma FrameRead(frame: Segment, rest: Bytes)
    requires IsFrame(frame) && Reached(frame, rest)
    ensures Scan(PrintSegment(frame, rest)) == Some(FrameSize(frame))
  {
    SegmentOpened(frame, rest);
    var b, p := PrintBody(frame, rest), frame.parameters;
    assert WordAt(b, 0) == WordAt(Be16(|p| + 2), 0);
    assert WordAt(b, 5) == WordAt(p, 3) && WordAt(b, 3) == WordAt(p, 1);
  }

  lemma SegmentPassed(s: Segment, k: Bytes)
    requires Good(s) && !IsFrame(s) && |k| >= 9
    ensures Scan(PrintSegment(s, k)) == Scan(k)
  {
    SegmentOpened(s, k);
    if !Standalone(s.marker) {
      var b, p := PrintBody(s, k), s.parameters;
      assert WordAt(b, 0) == WordAt(Be16(|p| + 2), 0);
      assert b[|p| + 2..] == k;
    }
  }

  lemma {:induction false} RunPassed(run: seq<Segment>, k: Bytes)
    requires GoodRun(run) && |k| >= 9
    ensures Scan(PrintRun(run, k)) == Scan(k)
  {
    if run != [] {
      SegmentPassed(run[0], PrintRun(run[1..], k));
      RunPassed(run[1..], k);
    }
  }

  lemma FrameLength(frame: Segment, rest: Bytes)
    requires IsFrame(frame)
    ensures |PrintSegment(frame, rest)| == |frame.stray| + frame.fill + 3 + |frame.parameters| + |rest|
  {
  }

  /** A run of segments before a frame header yields that header's size, unless the file ends too soon. */
  lemma FrameHeaderIsFound(run: seq<Segment>, frame: Segment, rest: Bytes)
    requires GoodRun(run) && IsFrame(frame)
    ensures Dimensions(Print(run, frame, rest)) == if Reached(frame, rest) then Some(FrameSize(frame)) else None
  {
    var k := PrintSegment(frame, rest);
    FrameLength(frame, rest);
    assert Print(run, frame, rest)[2..] == PrintRun(run, k);
    RunPassed(run, k);
    if Reached(frame, rest) {
      FrameRead(frame, rest);
    }
  }

  /** A frame header of section B.2.2 describes at least one component, so it is never missed. */
  lemma StandardFrameIsFound(run: seq<Segment>, frame: Segment, rest: Bytes, components: Byte)
    requires GoodRun(run) && IsFrame(frame)
    requires components >= 1 && |frame.parameters| == 6 + 3 * components
    ensures Dimensions(Print(run, frame, rest)) == Some(FrameSize(frame))
  {
    FrameHeaderIsFound(run, frame, rest);
  }

  // ----- Whatever is read is such a run -----

  lemma {:induction false} StrayFound(b: Bytes) returns (stray: Bytes)
    ensures b == stray + DropStray(b)
    ensures forall i :: 0 <= i < |stray| ==> stray[i] != 0xff
    ensures DropStray(b) != [] ==> DropStray(b)[0] == 0xff
  {
    stray := [];
    if b != [] && b[0] != 0xff {
      var more := StrayFound(b[1..]);
      stray := [b[0]] + more;
      assert b == [b[0]] + b[1..];
    }
  }

  lemma {:induction false} FillFound(b: Bytes) returns (n: nat)
    ensures b == Fill(n) + DropFill(b)
    ensures b != [] && b[0] == 0xff ==> n >= 1
    ensures DropFill(b) != [] ==> DropFill(b)[0] != 0xff
  {
    n := 0;
    if b != [] && b[0] == 0xff {
      var more := FillFound(b[1..]);
      n := more + 1;
      assert b == [b[0]] + b[1..];
    }
  }

  /** The parts a successful scan of `b` sees first: stray bytes, fill, and a marker other than fill. */
  lemma MarkerFound(b: Bytes) returns (stray: Bytes, fill: nat, marker: Byte, body: Bytes)
    requires Scan(b).Some?
    ensures b == stray + (Fill(fill) + ([marker] + body))
    ensures Scan(b) == ScanMarker(marker, body) && |body| < |b|
    ensures fill >= 1 && marker != 0xff && forall i :: 0 <= i < |stray| ==> stray[i] != 0xff
  {
    var c := DropStray(b);
    var d := DropFill(c);
    stray := StrayFound(b);
    fill := FillFound(c);
    marker, body := d[0], d[1..];
    assert d == [marker] + body;
  }

  /** A segment with a length, cut out of the bytes after its marker. */
  lemma ParametersFound(b: Bytes) returns (parameters: Bytes, k: Bytes)
    requires |b| >= 2 && 2 <= WordAt(b, 0) <= |b|
    ensures |parameters| + 2 == WordAt(b, 0) && k == b[WordAt(b, 0)..]
    ensures b == Be16(|parameters| + 2) + parameters + k
    ensures |parameters| >= 5 ==> WordAt(b, 5) == WordAt(parameters, 3) && WordAt(b, 3) == WordAt(parameters, 1)
  {
    var n := WordAt(b, 0);
    parameters, k := b[2..n], b[n..];
    assert b == b[..2] + parameters + k;
    assert b[..2] == Be16(n);
  }

  lemma RunGrows(s: Segment, run: seq<Segment>, k: Bytes)
    requires Good(s) && !IsFrame(s) && GoodRun(run)
    ensures GoodRun([s] + run) && PrintRun([s] + run, k) == PrintSegment(s, PrintRun(run, k))
  {
    assert ([s] + run)[1..] == run;
  }

  /** The segment the scan is at, and the bytes behind it, where the scan goes on unless it is the frame header. */
  lemma {:induction false} SegmentFound(b: Bytes) returns (s: Segment, k: Bytes)
    requires Scan(b).Some?
    ensures Good(s) && b == PrintSegment(s, k) && |k| < |b|
    ensures IsFrame(s) || Scan(k) == Scan(b)
  {
    var stray, fill, marker, body := MarkerFound(b);
    MarkersAre(marker);
    if Standalone(marker) {
      s, k := Segment(stray, fill, marker, []), body;
    } else {
      var parameters;
      parameters, k := ParametersFound(body);
      s := Segment(stray, fill, marker, parameters);
    }
  }

  lemma {:induction false} ScanIsRun(b: Bytes) returns (run: seq<Segment>, frame: Segment, rest: Bytes)
    requires Scan(b).Some?
    ensures GoodRun(run) && IsFrame(frame) && b == PrintRun(run, PrintSegment(frame, rest))
    decreases |b|
  {
    var s, k := SegmentFound(b);
    if IsFrame(s) {
      run, frame, rest := [], s, k;
    } else {
      run, frame, rest := ScanIsRun(k);
      RunGrows(s, run, PrintSegment(frame, rest));
      run := [s] + run;
    }
  }

  predicate Describes(b: Bytes, run: seq<Segment>, frame: Segment, rest: Bytes) {
    GoodRun(run) && IsFrame(frame) && Reached(frame, rest) && b == Print(run, frame, rest)
  }

  /** Dimensions are found exactly in the files that are a run of segments up to a reached frame header. */
  lemma DimensionsIff(b: Bytes, size: (nat, nat))
    ensures Dimensions(b) == Some(size) <==>
            exists run: seq<Segment>, frame: Segment, rest: Bytes ::
              Describes(b, run, frame, rest) && FrameSize(frame) == size
  {
    if Dimensions(b) == Some(size) {
      var run, frame, rest := ScanIsRun(b[2..]);
      assert b == [0xff, 0xd8] + b[2..];
      FrameHeaderIsFound(run, frame, rest);
      assert Describes(b, run, frame, rest);
    }
    forall run: seq<Segment>, frame: Segment, rest: Bytes | Describes(b, run, frame, rest)
      ensures Dimensions(b) == Some(FrameSize(frame))
    {
      FrameHeaderIsFound(run, frame, rest);
    }
  }

  // ----- The scan's own loops -----

  method PastStray(bytes: Bytes, start: nat) returns (index: nat)
    requires start <= |bytes|
    ensures start <= index <= |bytes| && bytes[index..] == DropStray(bytes[start..])
  {
    index := start;
    while index < |bytes| && bytes[index] != 0xff
      invariant start <= index <= |bytes| && DropStray(bytes[start..]) == DropStray(bytes[index..])
    {
      assert bytes[index..][1..] == bytes[index + 1..];
      index := index + 1;
    }
  }

  method PastFill(bytes: Bytes, start: nat) returns (index: nat)
    requires start <= |bytes|
    ensures start <= index <= |bytes| && bytes[index..] == DropFill(bytes[start..])
  {
    index := start;
    while index < |bytes| && bytes[index] == 0xff
      invariant start <= index <= |bytes| && DropFill(bytes[start..]) == DropFill(bytes[index..])
    {
      assert bytes[index..][1..] == bytes[index + 1..];
      index := index + 1;
    }
  }

  /** The marker after stray and fill bytes, and the index behind it. */
  method NextMarker(bytes: Bytes, start: nat) returns (r: Option<(Byte, nat)>)
    requires start + 9 < |bytes|
    ensures r == None ==> Scan(bytes[start..]) == None
    ensures r.Some? ==> start < r.value.1 <= |bytes|
    ensures r.Some? ==> Scan(bytes[start..]) == ScanMarker(r.value.0, bytes[r.value.1..])
  {
    var index := PastStray(bytes, start);
    if index + 3 >= |bytes| { return None; }
    index := PastFill(bytes, index);
    if index >= |bytes| { return None; }
    assert bytes[index..][1..] == bytes[index + 1..];
    return Some((bytes[index], index + 1));
  }

  lemma SegmentStep(bytes: Bytes, index: nat, marker: Byte)
    requires index + 2 <= |bytes| && 2 <= WordAt(bytes, index) <= |bytes| - index
    requires !Standalone(marker) && !(IsSof(marker) && WordAt(bytes, index) >= 7)
    ensures ScanMarker(marker, bytes[index..]) == Scan(bytes[index + WordAt(bytes, index)..])
  {
    var b, n := bytes[index..], WordAt(bytes, index);
    assert WordAt(b, 0) == n;
    assert b[n..] == bytes[index + n..];
  }

  /** Each time round, the index moves past at least one marker. */
  method JpegDimensions(bytes: Bytes) returns (r: Option<(nat, nat)>)
    ensures r == Dimensions(bytes)
  {
    if |bytes| < 4 || bytes[0] != 0xff || bytes[1] != 0xd8 { return None; }
    var index := 2;
    while index + 9 < |bytes|
      invariant 2 <= index <= |bytes| && Dimensions(bytes) == Scan(bytes[index..])
      decreases |bytes| - index
    {
      var next := NextMarker(bytes, index);
      if next == None { return None; }
      var marker := next.value.0;
      index := next.value.1;
      if marker == 0xd8 || marker == 0xd9 || marker == 0x01 || 0xd0 <= marker <= 0xd7 { continue; }
      if index + 2 > |bytes| { return None; }
      var segmentLen := WordAt(bytes, index);
      assert segmentLen == WordAt(bytes[index..], 0);
      if segmentLen < 2 || index + segmentLen > |bytes| { return None; }
      if IsSof(marker) && segmentLen >= 7 {
        assert WordAt(bytes, index + 3) == WordAt(bytes[index..], 3);
        assert WordAt(bytes, index + 5) == WordAt(bytes[index..], 5);
        return Some((WordAt(bytes, index + 5), WordAt(bytes, index + 3)));
      }
      SegmentStep(bytes, index, marker);
      index := index + segmentLen;
    }
    return None;
  }
}
