/**
 Server-side stop sequences: the streaming filter over content-block events, and the batch truncation
 of a finished content list.  The question is when the two agree.
 */
module StopSequences {
  import opened Bytes

  // ----- Matching -----

  predicate OccursAt(text: string, pos: int, s: string) {
    0 <= pos && pos + |s| <= |text| && text[pos..pos + |s|] == s
  }

  /** First place at or after `from` where `s` occurs. */
  function FindFrom(text: string, s: string, from: nat): (r: Option<nat>)
    ensures r.Some? ==> r.value + |s| <= |text|
    decreases |text| + 1 - from
  {
    if from + |s| > |text| then None
    else if text[from..from + |s|] == s then Some(from)
    else FindFrom(text, s, from + 1)
  }

  lemma {:induction false} FindOccurs(text: string, s: string, from: nat)
    requires FindFrom(text, s, from).Some?
    ensures OccursAt(text, FindFrom(text, s, from).value, s)
    decreases |text| + 1 - from
  {
    if text[from..from + |s|] != s {
      FindOccurs(text, s, from + 1);
    }
  }

  lemma {:induction false} FindIsFirst(text: string, s: string, from: nat, q: nat)
    requires from <= q && OccursAt(text, q, s)
    ensures FindFrom(text, s, from).Some? && FindFrom(text, s, from).value <= q
    decreases |text| + 1 - from
  {
    if from < q && text[from..from + |s|] != s {
      FindIsFirst(text, s, from + 1, q);
    }
  }

  type Match = (nat, string)

  /** A match is preferred when it starts earlier, or at the same place and is at least as long. */
  predicate Preferred(m: Match, n: Match) {
    m.0 < n.0 || (m.0 == n.0 && |m.1| >= |n.1|)
  }

  function EarliestMatch(text: string, sequences: seq<string>): (r: Option<Match>)
    ensures r.Some? ==> r.value.0 + |r.value.1| <= |text|
  {
    if sequences == [] then None
    else
      var rest := EarliestMatch(text, sequences[1..]);
      match FindFrom(text, sequences[0], 0)
      case None => rest
      case Some(p) =>
        var here := (p, sequences[0]);
        if rest.Some? && !Preferred(here, rest.value) then rest else Some(here)
  }

  lemma {:induction false} EarliestOccurs(text: string, sequences: seq<string>)
    requires EarliestMatch(text, sequences).Some?
    ensures var (p, s) := EarliestMatch(text, sequences).value;
            s in sequences && OccursAt(text, p, s)
    decreases |sequences|
  {
    if EarliestMatch(text, sequences[1..]).Some? {
      EarliestOccurs(text, sequences[1..]);
    }
    if FindFrom(text, sequences[0], 0).Some? {
      FindOccurs(text, sequences[0], 0);
    }
  }

  /** The match found is preferred to every occurrence of every sequence. */
  lemma {:induction false} EarliestIsPreferred(text: string, sequences: seq<string>, q: nat, t: string)
    requires t in sequences && OccursAt(text, q, t)
    ensures EarliestMatch(text, sequences).Some?
    ensures Preferred(EarliestMatch(text, sequences).value, (q, t))
    decreases |sequences|
  {
    if t in sequences[1..] {
      EarliestIsPreferred(text, sequences[1..], q, t);
    } else {
      FindIsFirst(text, t, 0, q);
    }
  }

  /** The last `n` characters are a proper, non-empty prefix of `s`. */
  predicate EndsInside(text: string, n: int, s: string) {
    0 < n < |s| && n <= |text| && text[|text| - n..] == s[..n]
  }

  function HeldBy(text: string, s: string, n: nat): (h: nat)
    requires n <= |s|
    ensures h == 0 || EndsInside(text, h, s)
    ensures forall k :: h < k < n ==> !EndsInside(text, k, s)
  {
    if n <= 1 then 0
    else if EndsInside(text, n - 1, s) then n - 1
    else HeldBy(text, s, n - 1)
  }

  /** Longest end of `text` that could still grow into a stop sequence. */
  function HeldSuffixLen(text: string, sequences: seq<string>): (h: nat)
    ensures h <= |text|
  {
    if sequences == [] then 0
    else
      var here := HeldBy(text, sequences[0], |sequences[0]|);
      var rest := HeldSuffixLen(text, sequences[1..]);
      if here > rest then here else rest
  }

  lemma {:induction false} HeldIsLongest(text: string, sequences: seq<string>, s: string, k: int)
    requires s in sequences && EndsInside(text, k, s)
    ensures k <= HeldSuffixLen(text, sequences)
    decreases |sequences|
  {
    if s in sequences[1..] {
      HeldIsLongest(text, sequences[1..], s, k);
    }
  }

  /** Text is held back only while it really begins a stop sequence. */
  lemma {:induction false} HeldIsNeeded(text: string, sequences: seq<string>) returns (s: string)
    requires HeldSuffixLen(text, sequences) > 0
    ensures s in sequences && EndsInside(text, HeldSuffixLen(text, sequences), s)
    decreases |sequences|
  {
    if HeldBy(text, sequences[0], |sequences[0]|) == HeldSuffixLen(text, sequences) {
      s := sequences[0];
    } else {
      s := HeldIsNeeded(text, sequences[1..]);
    }
  }

  // ----- The streaming filter -----

  datatype Event =
    | BlockStart(index: Option<int>, isText: bool)
    | BlockDelta(index: Option<int>, isTextDelta: bool, text: string)
    | BlockStop(index: Option<int>)
    | MessageDelta(stopSequence: Option<string>)
    | Other(name: string)

  datatype FilterState = FilterState(
    sequences: seq<string>,
    forwarded: set<int>,
    textBlocks: set<int>,
    pending: map<int, string>,
    matched: Option<string>)

  function Initial(sequences: seq<string>): FilterState {
    FilterState(sequences, {}, {}, map[], None)
  }

  function PendingOf(st: FilterState, i: int): string {
    if i in st.pending then st.pending[i] else ""
  }

  function ApplyTextDelta(st: FilterState, i: int, text: string): (FilterState, seq<Event>) {
    var combined := PendingOf(st, i) + text;
    var st1 := st.(pending := st.pending - {i});
    if combined == "" then (st1, [BlockDelta(Some(i), true, text)])
    else
      match EarliestMatch(combined, st.sequences)
      case Some((pos, s)) =>
        (st1.(matched := Some(s), pending := map[]),
         if pos == 0 then [] else [BlockDelta(Some(i), true, combined[..pos])])
      case None =>
        var held := HeldSuffixLen(combined, st.sequences);
        var split := |combined| - held;
        (if held > 0 then st1.(pending := st1.pending[i := combined[split..]]) else st1,
         if split == 0 then [] else [BlockDelta(Some(i), true, combined[..split])])
  }

  function ApplyOne(st: FilterState, e: Event): (FilterState, seq<Event>) {
    match e
    case BlockStart(index, isText) =>
      if st.matched.Some? then (st, [])
      else if index.None? then (st, [e])
      else (st.(forwarded := st.forwarded + {index.value},
                textBlocks := if isText then st.textBlocks + {index.value} else st.textBlocks), [e])
    case BlockDelta(index, isTextDelta, text) =>
      if st.matched.Some? then (st, [])
      else if index.None? || index.value !in st.textBlocks || !isTextDelta then (st, [e])
      else ApplyTextDelta(st, index.value, text)
    case BlockStop(index) =>
      if index.None? then (st, [e])
      else if index.value !in st.forwarded then (st, [])
      else
        var held := PendingOf(st, index.value);
        (st.(pending := st.pending - {index.value}),
         (if held == "" then [] else [BlockDelta(index, true, held)]) + [e])
    case MessageDelta(_) =>
      (st, [if st.matched.Some? then MessageDelta(st.matched) else e])
    case Other(_) => (st, [e])
  }

  function Apply(st: FilterState, es: seq<Event>): (FilterState, seq<Event>)
    decreases |es|
  {
    if es == [] then (st, [])
    else
      var (st1, out) := ApplyOne(st, es[0]);
      var (st2, rest) := Apply(st1, es[1..]);
      (st2, out + rest)
  }

  lemma {:induction false} ApplyStep(st: FilterState, events: seq<Event>, i: nat, output: seq<Event>)
    requires i < |events|
    ensures var (st1, out) := ApplyOne(st, events[i]);
      && Apply(st, events[i..]).0 == Apply(st1, events[i + 1..]).0
      && output + Apply(st, events[i..]).1 == (output + out) + Apply(st1, events[i + 1..]).1
  {
    var (st1, out) := ApplyOne(st, events[i]);
    assert events[i..][1..] == events[i + 1..];
    Associative(output, out, Apply(st1, events[i + 1..]).1);
  }

  /** The filter object: its fields change with every event. */
  class StopSequenceFilter {
    const sequences: seq<string>
    var forwardedBlocks: set<int>
    var textBlocks: set<int>
    var pending: map<int, string>
    var matched: Option<string>

    ghost function State(): FilterState
      reads this
    {
      FilterState(sequences, forwardedBlocks, textBlocks, pending, matched)
    }

    constructor (sequences: seq<string>)
      ensures State() == Initial(sequences)
    {
      this.sequences := sequences;
      forwardedBlocks, textBlocks, pending, matched := {}, {}, map[], None;
    }

    method TextDelta(i: int, text: string) returns (output: seq<Event>)
      modifies this
      ensures (State(), output) == ApplyTextDelta(old(State()), i, text)
    {
      var combined := (if i in pending then pending[i] else "") + text;
      pending := pending - {i};
      if combined == "" {
        return [BlockDelta(Some(i), true, text)];
      }
      var visible;
      match EarliestMatch(combined, sequences) {
        case Some((pos, s)) =>
          matched := Some(s);
          pending := map[];
          visible := combined[..pos];
        case None =>
          var held := HeldSuffixLen(combined, sequences);
          var split := |combined| - held;
          if held > 0 {
            pending := pending[i := combined[split..]];
          }
          visible := combined[..split];
      }
      output := if visible == "" then [] else [BlockDelta(Some(i), true, visible)];
    }

    method Handle(e: Event) returns (output: seq<Event>)
      modifies this
      ensures (State(), output) == ApplyOne(old(State()), e)
      ensures e.Other? ==> output == [e] && State() == old(State())
      ensures e.MessageDelta? ==> output == [if matched.Some? then MessageDelta(matched) else e]
    {
      match e {
        case BlockStart(index, isText) =>
          if matched.Some? {
            return [];
          }
          if index.Some? {
            forwardedBlocks := forwardedBlocks + {index.value};
            if isText {
              textBlocks := textBlocks + {index.value};
            }
          }
          output := [e];
        case BlockDelta(index, isTextDelta, text) =>
          if matched.Some? {
            return [];
          }
          if index.None? || index.value !in textBlocks || !isTextDelta {
            return [e];
          }
          output := TextDelta(index.value, text);
        case BlockStop(index) =>
          if index.None? {
            return [e];
          }
          if index.value !in forwardedBlocks {
            return [];
          }
          var held := if index.value in pending then pending[index.value] else "";
          pending := pending - {index.value};
          output := (if held == "" then [] else [BlockDelta(index, true, held)]) + [e];
        case MessageDelta(_) =>
          output := [if matched.Some? then MessageDelta(matched) else e];
        case Other(_) =>
          output := [e];
      }
    }

    method HandleAll(events: seq<Event>) returns (output: seq<Event>)
      modifies this
      ensures (State(), output) == Apply(old(State()), events)
      ensures Passing(output) == Passing(events)
    {
      OthersPass(State(), events);
      output := [];
      ghost var goal := Apply(State(), events);
      assert events[0..] == events;
      for i := 0 to |events|
        invariant goal.0 == Apply(State(), events[i..]).0
        invariant goal.1 == output + Apply(State(), events[i..]).1
      {
        ApplyStep(State(), events, i, output);
        var out := Handle(events[i]);
        output := output + out;
      }
      assert events[|events|..] == [] && output + [] == output;
    }
  }

  // ----- One text block -----

  datatype Outcome = Outcome(visible: string, matched: Option<string>)

  /** What the filter shows of a block whose text arrives in `chunks` while `pending` is held back. */
  function StreamBlock(sequences: seq<string>, pending: string, chunks: seq<string>): Outcome
    decreases |chunks|
  {
    if chunks == [] then Outcome(pending, None)
    else
      var combined := pending + chunks[0];
      match EarliestMatch(combined, sequences)
      case Some((pos, s)) => Outcome(combined[..pos], Some(s))
      case None =>
        var split := |combined| - HeldSuffixLen(combined, sequences);
        var rest := StreamBlock(sequences, combined[split..], chunks[1..]);
        Outcome(combined[..split] + rest.visible, rest.matched)
  }

  /** What the batch truncation keeps of a whole text. */
  function BatchBlock(sequences: seq<string>, text: string): Outcome {
    match EarliestMatch(text, sequences)
    case None => Outcome(text, None)
    case Some((pos, s)) => Outcome(text[..pos], Some(s))
  }

  function Concat(chunks: seq<string>): string {
    if chunks == [] then "" else chunks[0] + Concat(chunks[1..])
  }

  /** The text received up to the first chunk boundary at which it contains a stop sequence. */
  function Received(sequences: seq<string>, seen: string, chunks: seq<string>): string
    decreases |chunks|
  {
    if chunks == [] then seen
    else
      var t := seen + chunks[0];
      if EarliestMatch(t, sequences).Some? then t else Received(sequences, t, chunks[1..])
  }

  ghost predicate NonEmpty(sequences: seq<string>) {
    forall s :: s in sequences ==> s != ""
  }

  /** The requested sequences without empty ones and repetitions. */
  function Normalized(requested: seq<string>, seen: set<string>): seq<string> {
    if requested == [] then []
    else if requested[0] == "" || requested[0] in seen then Normalized(requested[1..], seen)
    else [requested[0]] + Normalized(requested[1..], seen + {requested[0]})
  }

  /** Exactly the non-empty sequences are kept, each once, so every filter works on non-empty ones. */
  lemma {:induction false} NormalizedSequences(requested: seq<string>, seen: set<string>)
    ensures var r := Normalized(requested, seen);
      && NonEmpty(r) && (forall s :: s in r <==> s in requested && s != "" && s !in seen)
      && forall i, j :: 0 <= i < j < |r| ==> r[i] != r[j]
  {
    if requested != [] {
      var more := if requested[0] == "" then seen else seen + {requested[0]};
      NormalizedSequences(requested[1..], more);
      assert requested == [requested[0]] + requested[1..];
      if requested[0] in seen {
        assert more == seen;
      }
    }
  }

  /** Everything already emitted is out of reach of any stop sequence still to be completed. */
  ghost predicate Holds(sequences: seq<string>, seen: string, pending: string) {
    && |pending| <= |seen| && seen[|seen| - |pending|..] == pending
    && EarliestMatch(seen, sequences) == None
    && forall s, k :: s in sequences && EndsInside(seen, k, s) ==> k <= |pending|
  }

  lemma OccurrencesArePending(sequences: seq<string>, seen: string, pending: string, chunk: string,
                              s: string, q: nat)
    requires NonEmpty(sequences) && Holds(sequences, seen, pending)
    requires s in sequences && OccursAt(seen + chunk, q, s)
    ensures q >= |seen| - |pending|
    ensures OccursAt(pending + chunk, q - (|seen| - |pending|), s)
  {
    var t := seen + chunk;
    if q + |s| <= |seen| {
      assert t[q..q + |s|] == seen[q..q + |s|];
      EarliestIsPreferred(seen, sequences, q, s);
    } else {
      if q < |seen| {
        var k := |seen| - q;
        assert seen[|seen| - k..] == t[q..q + |s|][..k];
        assert EndsInside(seen, k, s);
      }
      var d := |seen| - |pending|;
      assert t[q..q + |s|] == (pending + chunk)[q - d..q - d + |s|];
    }
  }

  lemma OccursAfter(head: string, text: string, p: nat, s: string)
    requires OccursAt(text, p, s)
    ensures OccursAt(head + text, p + |head|, s)
  {
    assert (head + text)[p + |head|..p + |head| + |s|] == text[p..p + |s|];
  }

  lemma OccursInPrefix(t: string, whole: string, p: nat, s: string)
    requires t <= whole && p + |s| <= |t|
    ensures OccursAt(t, p, s) <==> OccursAt(whole, p, s)
  {
    assert whole[p..p + |s|] == t[p..p + |s|];
  }

  lemma SplitSeen(seen: string, pending: string, chunk: string)
    requires |pending| <= |seen| && seen[|seen| - |pending|..] == pending
    ensures seen + chunk == seen[..|seen| - |pending|] + (pending + chunk)
  {
    assert seen == seen[..|seen| - |pending|] + pending;
  }

  lemma PreferredBothWays(text: string, m: Match, n: Match)
    requires OccursAt(text, m.0, m.1) && OccursAt(text, n.0, n.1)
    requires Preferred(m, n) && Preferred(n, m)
    ensures m == n
  {
  }

  lemma MatchExtends(sequences: seq<string>, head: string, tail: string, text: string, m: Match)
    requires text == head + tail && EarliestMatch(tail, sequences) == Some(m)
    ensures OccursAt(text, m.0 + |head|, m.1) && EarliestMatch(text, sequences).Some?
    ensures Preferred(EarliestMatch(text, sequences).value, (m.0 + |head|, m.1))
  {
    EarliestOccurs(tail, sequences);
    OccursAfter(head, tail, m.0, m.1);
    EarliestIsPreferred(text, sequences, m.0 + |head|, m.1);
  }

  lemma MatchIsPending(sequences: seq<string>, seen: string, pending: string, chunk: string, n: Match, d: nat)
    requires NonEmpty(sequences) && Holds(sequences, seen, pending) && d == |seen| - |pending|
    requires EarliestMatch(seen + chunk, sequences) == Some(n)
    ensures n.0 >= d && OccursAt(seen + chunk, n.0, n.1) && EarliestMatch(pending + chunk, sequences).Some?
    ensures Preferred(EarliestMatch(pending + chunk, sequences).value, (n.0 - d, n.1))
  {
    EarliestOccurs(seen + chunk, sequences);
    OccurrencesArePending(sequences, seen, pending, chunk, n.1, n.0);
    EarliestIsPreferred(pending + chunk, sequences, n.0 - d, n.1);
  }

  lemma SameMatch(text: string, m: Match, n: Match, d: nat)
    requires OccursAt(text, n.0, n.1) && OccursAt(text, m.0 + d, m.1) && n.0 >= d
    requires Preferred(n, (m.0 + d, m.1)) && Preferred(m, (n.0 - d, n.1))
    ensures n == (m.0 + d, m.1)
  {
    PreferredBothWays(text, n, (m.0 + d, m.1));
  }

  /** The match found in the held-back part is the match in everything received. */
  lemma MatchShifts(sequences: seq<string>, seen: string, pending: string, chunk: string, m: Match, d: nat)
    requires NonEmpty(sequences) && Holds(sequences, seen, pending) && d == |seen| - |pending|
    requires EarliestMatch(pending + chunk, sequences) == Some(m)
    ensures EarliestMatch(seen + chunk, sequences) == Some((m.0 + d, m.1))
  {
    SplitSeen(seen, pending, chunk);
    MatchExtends(sequences, seen[..d], pending + chunk, seen + chunk, m);
    var n := EarliestMatch(seen + chunk, sequences).value;
    MatchIsPending(sequences, seen, pending, chunk, n, d);
    SameMatch(seen + chunk, m, n, d);
  }

  lemma NoMatchStays(sequences: seq<string>, seen: string, pending: string, chunk: string)
    requires NonEmpty(sequences) && Holds(sequences, seen, pending)
    requires EarliestMatch(pending + chunk, sequences).None?
    ensures EarliestMatch(seen + chunk, sequences).None?
  {
    if EarliestMatch(seen + chunk, sequences).Some? {
      MatchIsPending(sequences, seen, pending, chunk, EarliestMatch(seen + chunk, sequences).value, |seen| - |pending|);
    }
  }

  lemma EndsEarlier(seen: string, chunk: string, k: nat, s: string)
    requires EndsInside(seen + chunk, k, s) && |chunk| < k
    ensures EndsInside(seen, k - |chunk|, s)
  {
    var t, n := seen + chunk, k - |chunk|;
    assert seen[|seen| - n..] == t[|t| - k..][..n];
  }

  /** What is held back of the pending part is all that must be held back of everything received. */
  lemma HoldsStep(sequences: seq<string>, seen: string, pending: string, chunk: string)
    requires NonEmpty(sequences) && Holds(sequences, seen, pending)
    requires EarliestMatch(pending + chunk, sequences).None?
    ensures var combined := pending + chunk;
            Holds(sequences, seen + chunk, combined[|combined| - HeldSuffixLen(combined, sequences)..])
  {
    NoMatchStays(sequences, seen, pending, chunk);
    var t, combined := seen + chunk, pending + chunk;
    var d := |seen| - |pending|;
    assert t == seen[..d] + combined;
    forall s, k | s in sequences && EndsInside(t, k, s)
      ensures k <= HeldSuffixLen(combined, sequences)
    {
      if k > |chunk| {
        EndsEarlier(seen, chunk, k, s);
      }
      assert t[|t| - k..] == combined[|combined| - k..];
      HeldIsLongest(combined, sequences, s, k);
    }
  }

  /** After `seen`, with `pending` held back, the filter shows what the batch form keeps of what it received. */
  ghost predicate StreamsFrom(sequences: seq<string>, seen: string, pending: string, chunks: seq<string>) {
    |pending| <= |seen| &&
    var r := StreamBlock(sequences, pending, chunks);
    BatchBlock(sequences, Received(sequences, seen, chunks))
    == Outcome(seen[..|seen| - |pending|] + r.visible, r.matched)
  }

  lemma StreamStops(sequences: seq<string>, seen: string, pending: string, chunks: seq<string>)
    requires NonEmpty(sequences) && Holds(sequences, seen, pending)
    requires chunks != [] && EarliestMatch(pending + chunks[0], sequences).Some?
    ensures StreamsFrom(sequences, seen, pending, chunks)
  {
    var d, combined := |seen| - |pending|, pending + chunks[0];
    SplitSeen(seen, pending, chunks[0]);
    var m := EarliestMatch(combined, sequences).value;
    MatchShifts(sequences, seen, pending, chunks[0], m, d);
    StreamStepText(seen, d, combined, m.0, "");
  }

  lemma StreamGoesOn(sequences: seq<string>, seen: string, pending: string, chunks: seq<string>, held: string)
    requires NonEmpty(sequences) && Holds(sequences, seen, pending)
    requires chunks != [] && EarliestMatch(pending + chunks[0], sequences).None?
    requires var combined := pending + chunks[0]; held == combined[|combined| - HeldSuffixLen(combined, sequences)..]
    requires EarliestMatch(seen + chunks[0], sequences).None?
    requires StreamsFrom(sequences, seen + chunks[0], held, chunks[1..])
    ensures StreamsFrom(sequences, seen, pending, chunks)
  {
    var d, combined := |seen| - |pending|, pending + chunks[0];
    SplitSeen(seen, pending, chunks[0]);
    StreamStepText(seen, d, combined, |combined| - |held|, StreamBlock(sequences, held, chunks[1..]).visible);
  }

  lemma {:induction false} StreamFrom(sequences: seq<string>, seen: string, pending: string, chunks: seq<string>)
    requires NonEmpty(sequences) && Holds(sequences, seen, pending)
    ensures StreamsFrom(sequences, seen, pending, chunks)
    decreases |chunks|
  {
    if chunks == [] {
      assert seen == seen[..|seen| - |pending|] + pending;
    } else if EarliestMatch(pending + chunks[0], sequences).Some? {
      StreamStops(sequences, seen, pending, chunks);
    } else {
      var combined := pending + chunks[0];
      var held := combined[|combined| - HeldSuffixLen(combined, sequences)..];
      HoldsStep(sequences, seen, pending, chunks[0]);
      StreamFrom(sequences, seen + chunks[0], held, chunks[1..]);
      StreamGoesOn(sequences, seen, pending, chunks, held);
    }
  }

  lemma StreamStepText(seen: string, d: nat, combined: string, split: nat, rest: string)
    requires d <= |seen| && split <= |combined|
    ensures (seen[..d] + combined)[..d + split] == seen[..d] + combined[..split]
    ensures (seen[..d] + combined)[..d + split] + rest == seen[..d] + (combined[..split] + rest)
  {
  }

  /**
   For any stop sequences and any chunking, the filter shows what the batch truncation would keep of
   the text received when the first stop sequence was complete: nothing emitted is ever taken back,
   and nothing is held back for good.
   */
  lemma StreamIsBatchOfReceived(sequences: seq<string>, chunks: seq<string>)
    requires NonEmpty(sequences)
    ensures StreamBlock(sequences, "", chunks) == BatchBlock(sequences, Received(sequences, "", chunks))
  {
    if EarliestMatch("", sequences).Some? {
      EarliestOccurs("", sequences);
    }
    StreamFrom(sequences, "", "", chunks);
    var r := StreamBlock(sequences, "", chunks);
    assert "" + r.visible == r.visible;
  }

  // ----- When streaming and batch agree -----

  /** No beginning of a stop sequence contains a stop sequence only later than its first character. */
  ghost predicate TextSafe(sequences: seq<string>) {
    forall s, k :: s in sequences && 0 <= k < |s| && EarliestMatch(s[..k], sequences).Some? ==>
      EarliestMatch(s[..k], sequences).value.0 == 0
  }

  /** No beginning of a stop sequence contains a stop sequence. */
  ghost predicate MatchSafe(sequences: seq<string>) {
    forall s, k :: s in sequences && 0 <= k < |s| ==> EarliestMatch(s[..k], sequences) == None
  }

  /** `Received` is a beginning of the whole text, and stops short only at a match. */
  lemma {:induction false} ReceivedIsPrefix(sequences: seq<string>, seen: string, chunks: seq<string>)
    ensures var t := Received(sequences, seen, chunks);
            && t <= seen + Concat(chunks)
            && (t != seen + Concat(chunks) ==> EarliestMatch(t, sequences).Some?)
    decreases |chunks|
  {
    if chunks == [] {
      assert seen + Concat(chunks) == seen;
    } else {
      var t := seen + chunks[0];
      assert t + Concat(chunks[1..]) == seen + Concat(chunks);
      ReceivedIsPrefix(sequences, t, chunks[1..]);
    }
  }

  /** `t` ends in a beginning of `s'`, which has been there since `p'` and contains `s` found at `p`. */
  ghost predicate Begun(t: string, p': nat, s': string, p: nat, s: string) {
    && p' <= p && p' < |t| < p' + |s'|
    && t[p'..] == s'[..|t| - p']
    && OccursAt(s'[..|t| - p'], p - p', s)
  }

  lemma BegunBefore(t: string, whole: string, p': nat, s': string, p: nat, s: string)
    requires t <= whole && OccursAt(whole, p', s') && OccursAt(t, p, s) && s != ""
    requires p' <= p && |t| < p' + |s'|
    ensures Begun(t, p', s', p, s)
  {
    var head := s'[..|t| - p'];
    assert t[p'..] == whole[p'..p' + |s'|][..|t| - p'] == head;
    assert head[p - p'..p - p' + |s|] == t[p..p + |s|];
  }

  lemma MatchStays(sequences: seq<string>, t: string, whole: string)
    requires t <= whole && EarliestMatch(t, sequences).Some?
    ensures EarliestMatch(whole, sequences).Some?
    ensures Preferred(EarliestMatch(whole, sequences).value, EarliestMatch(t, sequences).value)
  {
    var (p, s) := EarliestMatch(t, sequences).value;
    EarliestOccurs(t, sequences);
    OccursInPrefix(t, whole, p, s);
    EarliestIsPreferred(whole, sequences, p, s);
  }

  /** Text still to come changes the match only by completing a sequence begun before it. */
  lemma LaterMatch(sequences: seq<string>, t: string, whole: string)
    requires NonEmpty(sequences) && t <= whole && EarliestMatch(t, sequences).Some?
    ensures EarliestMatch(whole, sequences).Some?
    ensures var (p, s) := EarliestMatch(t, sequences).value;
            var (p', s') := EarliestMatch(whole, sequences).value;
            p' <= p && ((p', s') == (p, s) || Begun(t, p', s', p, s))
  {
    MatchStays(sequences, t, whole);
    EarliestOccurs(t, sequences);
    EarliestOccurs(whole, sequences);
    var (p, s) := EarliestMatch(t, sequences).value;
    var (p', s') := EarliestMatch(whole, sequences).value;
    if p' + |s'| <= |t| {
      OccursInPrefix(t, whole, p', s');
      EarliestIsPreferred(t, sequences, p', s');
      PreferredBothWays(t, (p, s), (p', s'));
    } else {
      BegunBefore(t, whole, p', s', p, s);
    }
  }

  lemma BegunElsewhere(sequences: seq<string>, t: string, p': nat, s': string, p: nat, s: string)
    requires TextSafe(sequences) && s' in sequences && s in sequences
    requires Begun(t, p', s', p, s)
    ensures EarliestMatch(t, sequences).Some? && EarliestMatch(t, sequences).value.0 <= p'
  {
    var head := s'[..|t| - p'];
    EarliestIsPreferred(head, sequences, p - p', s);
    EarliestOccurs(head, sequences);
    var u := EarliestMatch(head, sequences).value.1;
    assert OccursAt(head, 0, u);
    assert t == t[..p'] + head;
    OccursAfter(t[..p'], head, 0, u);
    EarliestIsPreferred(t, sequences, p', u);
  }

  lemma TextSafeSuffices(sequences: seq<string>, chunks: seq<string>)
    requires NonEmpty(sequences) && TextSafe(sequences)
    ensures StreamBlock(sequences, "", chunks).visible == BatchBlock(sequences, Concat(chunks)).visible
  {
    StreamIsBatchOfReceived(sequences, chunks);
    ReceivedIsPrefix(sequences, "", chunks);
    var whole := Concat(chunks);
    assert "" + whole == whole;
    var t := Received(sequences, "", chunks);
    if t != whole {
      LaterMatch(sequences, t, whole);
      EarliestOccurs(t, sequences);
      EarliestOccurs(whole, sequences);
      var (p, s) := EarliestMatch(t, sequences).value;
      var (p', s') := EarliestMatch(whole, sequences).value;
      if p' < p {
        BegunElsewhere(sequences, t, p', s', p, s);
      }
    }
  }

  lemma NothingBegun(sequences: seq<string>, t: string, p': nat, s': string, p: nat, s: string)
    requires NonEmpty(sequences) && s' in sequences && s in sequences && Begun(t, p', s', p, s)
    ensures !MatchSafe(sequences)
  {
    EarliestIsPreferred(s'[..|t| - p'], sequences, p - p', s);
  }

  lemma SafeMatchStays(sequences: seq<string>, t: string, whole: string)
    requires NonEmpty(sequences) && MatchSafe(sequences) && t <= whole && EarliestMatch(t, sequences).Some?
    ensures EarliestMatch(whole, sequences) == EarliestMatch(t, sequences)
  {
    LaterMatch(sequences, t, whole);
    EarliestOccurs(t, sequences);
    EarliestOccurs(whole, sequences);
    var (p, s) := EarliestMatch(t, sequences).value;
    var (p', s') := EarliestMatch(whole, sequences).value;
    if (p', s') != (p, s) {
      NothingBegun(sequences, t, p', s', p, s);
    }
  }

  lemma MatchSafeSuffices(sequences: seq<string>, chunks: seq<string>)
    requires NonEmpty(sequences) && MatchSafe(sequences)
    ensures StreamBlock(sequences, "", chunks) == BatchBlock(sequences, Concat(chunks))
  {
    StreamIsBatchOfReceived(sequences, chunks);
    ReceivedIsPrefix(sequences, "", chunks);
    var whole := Concat(chunks);
    assert "" + whole == whole;
    var t := Received(sequences, "", chunks);
    if t != whole {
      SafeMatchStays(sequences, t, whole);
      EarliestOccurs(t, sequences);
    }
  }

  /** Splitting `s` where a beginning of it already holds a match makes the filter stop there. */
  lemma SplitAt(sequences: seq<string>, s: string, k: nat)
    requires NonEmpty(sequences) && s in sequences && k < |s|
    requires EarliestMatch(s[..k], sequences).Some?
    ensures var chunks := [s[..k], s[k..]];
            && Concat(chunks) == s
            && StreamBlock(sequences, "", chunks) == BatchBlock(sequences, s[..k])
    ensures BatchBlock(sequences, s).visible == ""
    ensures |BatchBlock(sequences, s).matched.value| >= |s|
  {
    var chunks := [s[..k], s[k..]];
    assert chunks[1..] == [s[k..]] && chunks[1..][1..] == [];
    assert Concat(chunks[1..]) == s[k..] + Concat([]) == s[k..];
    assert "" + s[..k] == s[..k];
    EarliestIsPreferred(s, sequences, 0, s);
  }

  /** The shown text never depends on the chunking exactly when the sequences are `TextSafe`. */
  lemma StreamedTextAgrees(sequences: seq<string>)
    requires NonEmpty(sequences)
    ensures TextSafe(sequences) <==>
            forall chunks :: StreamBlock(sequences, "", chunks).visible == BatchBlock(sequences, Concat(chunks)).visible
  {
    if TextSafe(sequences) {
      forall chunks ensures StreamBlock(sequences, "", chunks).visible == BatchBlock(sequences, Concat(chunks)).visible {
        TextSafeSuffices(sequences, chunks);
      }
    } else {
      var s, k :| s in sequences && 0 <= k < |s| && EarliestMatch(s[..k], sequences).Some?
                  && EarliestMatch(s[..k], sequences).value.0 != 0;
      SplitAt(sequences, s, k);
      var chunks := [s[..k], s[k..]];
      assert StreamBlock(sequences, "", chunks).visible != "";
    }
  }

  /** The shown text and the reported stop sequence agree for every chunking exactly when `MatchSafe`. */
  lemma StreamedMatchAgrees(sequences: seq<string>)
    requires NonEmpty(sequences)
    ensures MatchSafe(sequences) <==>
            forall chunks :: StreamBlock(sequences, "", chunks) == BatchBlock(sequences, Concat(chunks))
  {
    if MatchSafe(sequences) {
      forall chunks ensures StreamBlock(sequences, "", chunks) == BatchBlock(sequences, Concat(chunks)) {
        MatchSafeSuffices(sequences, chunks);
      }
    } else {
      var s, k :| s in sequences && 0 <= k < |s| && EarliestMatch(s[..k], sequences) != None;
      SplitAt(sequences, s, k);
      var chunks := [s[..k], s[k..]];
      EarliestOccurs(s[..k], sequences);
      assert StreamBlock(sequences, "", chunks) != BatchBlock(sequences, Concat(chunks));
    }
  }

  // ----- Any stream of events -----

  /** The events the filter has no business with; of a message delta, that there is one. */
  function Passing(es: seq<Event>): seq<Event> {
    if es == [] then []
    else
      (match es[0]
       case Other(_) => [es[0]]
       case MessageDelta(_) => [MessageDelta(None)]
       case BlockStop(None) => [es[0]]
       case _ => []) + Passing(es[1..])
  }

  lemma {:induction false} PassingAppend(a: seq<Event>, b: seq<Event>)
    ensures Passing(a + b) == Passing(a) + Passing(b)
    decreases |a|
  {
    if a == [] {
      assert a + b == b;
    } else {
      assert (a + b)[1..] == a[1..] + b;
      PassingAppend(a[1..], b);
    }
  }

  lemma {:induction false} PassingOne(st: FilterState, e: Event)
    ensures Passing(ApplyOne(st, e).1) == Passing([e])
  {
    var out := ApplyOne(st, e).1;
    assert [e][1..] == [];
    if |out| == 1 {
      assert out[1..] == [];
    } else if |out| == 2 {
      assert out == [out[0]] + [out[1]] && [out[0]][1..] == [] && [out[1]][1..] == [];
      PassingAppend([out[0]], [out[1]]);
    }
  }

  /**
   Whatever comes, in whatever state: the events of other kinds go through, in order, and there is one
   message delta for each that came, at its place among them.
   */
  lemma {:induction false} OthersPass(st: FilterState, es: seq<Event>)
    ensures Passing(Apply(st, es).1) == Passing(es)
    decreases |es|
  {
    if es != [] {
      var (st1, out) := ApplyOne(st, es[0]);
      PassingOne(st, es[0]);
      OthersPass(st1, es[1..]);
      PassingAppend(out, Apply(st1, es[1..]).1);
      assert es == [es[0]] + es[1..];
      PassingAppend([es[0]], es[1..]);
    }
  }

  /** The text of block `i`, of all its text deltas. */
  function TextOf(es: seq<Event>, i: int): string {
    if es == [] then ""
    else
      (if es[0].BlockDelta? && es[0].isTextDelta && es[0].index == Some(i) then es[0].text else "") + TextOf(es[1..], i)
  }

  lemma {:induction false} TextAppend(a: seq<Event>, b: seq<Event>, i: int)
    ensures TextOf(a + b, i) == TextOf(a, i) + TextOf(b, i)
    decreases |a|
  {
    if a == [] {
      assert a + b == b;
    } else {
      assert (a + b)[1..] == a[1..] + b;
      TextAppend(a[1..], b, i);
    }
  }

  lemma {:induction false} TextOne(e: Event, i: int)
    ensures TextOf([e], i) == if e.BlockDelta? && e.isTextDelta && e.index == Some(i) then e.text else ""
    ensures TextOf([], i) == ""
  {
    assert [e][1..] == [];
  }

  lemma {:induction false} TextTwo(e: Event, f: Event, i: int)
    ensures TextOf([e] + [f], i) == TextOf([e], i) + TextOf([f], i)
  {
    TextAppend([e], [f], i);
  }

  /** Text is held back of text blocks only, and none once a stop sequence is found. */
  predicate Sane(st: FilterState) {
    (st.matched.Some? ==> st.pending == map[]) && forall i :: i in st.pending ==> i in st.textBlocks
  }

  lemma {:induction false} DeltaElsewhere(st: FilterState, j: int, text: string, i: int)
    requires st.matched.None? && Sane(st) && j in st.textBlocks && i != j
    ensures var (st1, out) := ApplyTextDelta(st, j, text);
      Sane(st1) && TextOf(out, i) == "" && (st1.matched.None? ==> PendingOf(st1, i) == PendingOf(st, i))
  {
    var out := ApplyTextDelta(st, j, text).1;
    if out != [] {
      assert out == [out[0]];
      TextOne(out[0], i);
    }
  }

  lemma CutJoins(combined: string, n: nat)
    requires n <= |combined|
    ensures combined[..n] + combined[n..] == combined
  {
  }

  lemma {:induction false} DeltaSane(st: FilterState, j: int, text: string)
    requires st.matched.None? && Sane(st) && j in st.textBlocks
    ensures Sane(ApplyTextDelta(st, j, text).0)
  {
  }

  /** The only event that comes of a text delta, if any, is a delta of the same block. */
  lemma {:induction false} DeltaShows(st: FilterState, j: int, text: string, visible: string)
    requires visible == var combined := PendingOf(st, j) + text;
      match EarliestMatch(combined, st.sequences)
      case Some((pos, _)) => if combined == "" then "" else combined[..pos]
      case None => combined[..|combined| - HeldSuffixLen(combined, st.sequences)]
    ensures TextOf(ApplyTextDelta(st, j, text).1, j) == visible
  {
    var out := ApplyTextDelta(st, j, text).1;
    if out != [] {
      assert out == [out[0]];
      TextOne(out[0], j);
    }
  }

  lemma {:induction false} DeltaHolds(st: FilterState, j: int, text: string, combined: string)
    requires combined == PendingOf(st, j) + text && st.matched.None? && ApplyTextDelta(st, j, text).0.matched.None?
    ensures EarliestMatch(combined, st.sequences).None? || combined == ""
    ensures PendingOf(ApplyTextDelta(st, j, text).0, j) == combined[|combined| - HeldSuffixLen(combined, st.sequences)..]
  {
  }

  lemma {:induction false} DeltaHere(st: FilterState, j: int, text: string, combined: string)
    requires st.matched.None? && Sane(st) && j in st.textBlocks && combined == PendingOf(st, j) + text
    ensures var (st1, out) := ApplyTextDelta(st, j, text);
      Sane(st1) && TextOf(out, j) <= combined && (st1.matched.None? ==> TextOf(out, j) + PendingOf(st1, j) == combined)
  {
    DeltaSane(st, j, text);
    var split := |combined| - HeldSuffixLen(combined, st.sequences);
    var visible := match EarliestMatch(combined, st.sequences)
      case Some((pos, _)) => if combined == "" then "" else combined[..pos]
      case None => combined[..split];
    DeltaShows(st, j, text, visible);
    if ApplyTextDelta(st, j, text).0.matched.None? {
      DeltaHolds(st, j, text, combined);
      CutJoins(combined, split);
    }
  }

  lemma {:induction false} StopText(st: FilterState, index: Option<int>, i: int)
    requires Sane(st)
    ensures var (st1, out) := ApplyOne(st, BlockStop(index));
      && Sane(st1) && st1.matched == st.matched && (st.matched.Some? ==> TextOf(out, i) == "")
      && TextOf(out, i) + PendingOf(st1, i) == PendingOf(st, i)
  {
    var out := ApplyOne(st, BlockStop(index)).1;
    if |out| == 2 {
      TextTwo(out[0], out[1], i);
      TextOne(out[0], i);
      TextOne(out[1], i);
      assert out == [out[0]] + [out[1]];
    } else {
      assert out == [] || out == [BlockStop(index)];
      TextOne(BlockStop(index), i);
    }
  }

  lemma {:induction false} StepText(st: FilterState, e: Event, i: int)
    requires Sane(st)
    ensures var (st1, out) := ApplyOne(st, e);
      var came := PendingOf(st, i) + TextOf([e], i);
      && Sane(st1) && (st.matched.Some? ==> st1.matched.Some? && TextOf(out, i) == "")
      && TextOf(out, i) <= came
      && (st1.matched.None? ==> TextOf(out, i) + PendingOf(st1, i) == came)
  {
    TextOne(e, i);
    match e {
      case BlockStop(index) =>
        StopText(st, index, i);
        assert PendingOf(st, i) + "" == PendingOf(st, i);
      case BlockDelta(index, isTextDelta, text) =>
        if st.matched.None? && index.Some? && index.value in st.textBlocks && isTextDelta {
          if index.value == i {
            DeltaHere(st, i, text, PendingOf(st, i) + text);
          } else {
            DeltaElsewhere(st, index.value, text, i);
          }
        }
      case MessageDelta(_) =>
        TextOne(ApplyOne(st, e).1[0], i);
      case _ =>
    }
  }

  /**
   Whatever comes, in whatever order the blocks take turns: of every block the client is given a beginning of
   its text, and while no stop sequence has been found all of it but what is held back.
   */
  lemma {:induction false} TextIsKept(st: FilterState, es: seq<Event>, i: int)
    requires Sane(st)
    ensures var (end, out) := Apply(st, es);
      var came := PendingOf(st, i) + TextOf(es, i);
      && TextOf(out, i) <= came && (st.matched.Some? ==> end.matched.Some? && TextOf(out, i) == "")
      && (end.matched.None? ==> TextOf(out, i) + PendingOf(end, i) == came)
    decreases |es|
  {
    if es != [] {
      var (st1, out) := ApplyOne(st, es[0]);
      var (end, rest) := Apply(st1, es[1..]);
      StepText(st, es[0], i);
      TextIsKept(st1, es[1..], i);
      TextAppend(out, rest, i);
      assert es == [es[0]] + es[1..];
      TextAppend([es[0]], es[1..], i);
      var held, now, later := PendingOf(st, i), TextOf([es[0]], i), TextOf(es[1..], i);
      Associative(held, now, later);
      if st1.matched.Some? {
        assert TextOf(out, i) + "" == TextOf(out, i);
      } else {
        Associative(TextOf(out, i), PendingOf(st1, i), later);
        PrefixBehind(TextOf(out, i), TextOf(rest, i), PendingOf(st1, i) + later);
        Associative(TextOf(out, i), TextOf(rest, i), PendingOf(end, i));
      }
    }
  }

  lemma Associative<T>(a: seq<T>, b: seq<T>, c: seq<T>)
    ensures (a + b) + c == a + (b + c)
  {
  }

  lemma PrefixBehind(a: string, b: string, c: string)
    requires b <= c
    ensures a + b <= a + c
  {
  }

  /** What blocks consist of besides text: their starts, and deltas of other kinds or of no block. */
  predicate IsUntouched(e: Event) {
    e.BlockStart? || (e.BlockDelta? && (!e.isTextDelta || e.index.None?))
  }

  function Untouched(es: seq<Event>): seq<Event> {
    if es == [] then [] else (if IsUntouched(es[0]) then [es[0]] else []) + Untouched(es[1..])
  }

  lemma {:induction false} UntouchedAppend(a: seq<Event>, b: seq<Event>)
    ensures Untouched(a + b) == Untouched(a) + Untouched(b)
    decreases |a|
  {
    if a == [] {
      assert a + b == b;
    } else {
      assert (a + b)[0] == a[0] && (a + b)[1..] == a[1..] + b;
      UntouchedAppend(a[1..], b);
      Associative(if IsUntouched(a[0]) then [a[0]] else [], Untouched(a[1..]), Untouched(b));
    }
  }

  lemma {:induction false} StepUntouched(st: FilterState, e: Event)
    ensures var (st1, out) := ApplyOne(st, e);
      && Untouched(out) == (if st.matched.Some? then [] else Untouched([e]))
      && (st.matched.Some? ==> st1.matched == st.matched)
  {
    var (st1, out) := ApplyOne(st, e);
    assert [e][1..] == [];
    if |out| == 1 {
      assert out[1..] == [];
    } else if |out| == 2 {
      assert out == [out[0]] + [out[1]] && [out[0]][1..] == [] && [out[1]][1..] == [];
      UntouchedAppend([out[0]], [out[1]]);
    }
  }

  /** Blocks start, and their other deltas pass, while no stop sequence has been found, and not after that. */
  lemma {:induction false} UntouchedPass(st: FilterState, es: seq<Event>)
    ensures var (end, out) := Apply(st, es);
      && Untouched(out) <= Untouched(es)
      && (st.matched.Some? ==> Untouched(out) == [] && end.matched == st.matched)
      && (end.matched.None? ==> Untouched(out) == Untouched(es))
    decreases |es|
  {
    if es != [] {
      var (st1, out) := ApplyOne(st, es[0]);
      StepUntouched(st, es[0]);
      UntouchedPass(st1, es[1..]);
      UntouchedAppend(out, Apply(st1, es[1..]).1);
      assert es == [es[0]] + es[1..];
      UntouchedAppend([es[0]], es[1..]);
    }
  }

  /** The blocks started. */
  function StartedIds(es: seq<Event>): set<int> {
    if es == [] then {}
    else (if es[0].BlockStart? && es[0].index.Some? then {es[0].index.value} else {}) + StartedIds(es[1..])
  }

  lemma {:induction false} StartedAppend(a: seq<Event>, b: seq<Event>)
    ensures StartedIds(a + b) == StartedIds(a) + StartedIds(b)
    decreases |a|
  {
    if a == [] {
      assert a + b == b;
    } else {
      assert (a + b)[1..] == a[1..] + b;
      StartedAppend(a[1..], b);
    }
  }

  lemma {:induction false} StepStarts(st: FilterState, e: Event)
    ensures ApplyOne(st, e).0.forwarded == st.forwarded + StartedIds(ApplyOne(st, e).1)
  {
    var out := ApplyOne(st, e).1;
    if |out| == 1 {
      assert out[1..] == [];
    } else if |out| == 2 {
      assert out == [out[0]] + [out[1]] && [out[0]][1..] == [] && [out[1]][1..] == [];
      StartedAppend([out[0]], [out[1]]);
    }
  }

  lemma {:induction false} StartsAreForwarded(st: FilterState, es: seq<Event>)
    ensures Apply(st, es).0.forwarded == st.forwarded + StartedIds(Apply(st, es).1)
    decreases |es|
  {
    if es != [] {
      var (st1, out) := ApplyOne(st, es[0]);
      StepStarts(st, es[0]);
      StartsAreForwarded(st1, es[1..]);
      StartedAppend(out, Apply(st1, es[1..]).1);
    }
  }

  /** The end of a block goes through exactly when the block was started for the client, its held text before it. */
  lemma StopFollowsStart(sequences: seq<string>, es: seq<Event>, i: int)
    ensures var (st, out) := Apply(Initial(sequences), es);
      var held := if PendingOf(st, i) == "" then [] else [BlockDelta(Some(i), true, PendingOf(st, i))];
      Apply(st, [BlockStop(Some(i))]).1 == if i in StartedIds(out) then held + [BlockStop(Some(i))] else []
  {
    var (st, out) := Apply(Initial(sequences), es);
    StartsAreForwarded(Initial(sequences), es);
    var e := BlockStop(Some(i));
    assert [e][1..] == [];
    assert ApplyOne(st, e).1 + [] == ApplyOne(st, e).1;
  }

  /** A delta without text, sent to keep the connection alive, goes through when nothing is held back. */
  lemma KeepAlivePasses(st: FilterState, e: Event)
    requires st.matched.None? && e.BlockDelta? && e.text == "" && (e.index.Some? ==> PendingOf(st, e.index.value) == "")
    requires e.isTextDelta || e.index.None? || e.index.value !in st.textBlocks
    ensures Apply(st, [e]).1 == [e]
  {
    assert [e][1..] == [];
  }

  // ----- Whole messages -----

  /** A content block of the reply after some pings, its text or other payload arriving in pieces. */
  datatype Block = Block(pings: nat, index: int, isText: bool, deltas: seq<string>)

  function PingsThen(n: nat, k: seq<Event>): seq<Event> {
    if n == 0 then k else [Other("ping")] + PingsThen(n - 1, k)
  }

  function DeltasThen(b: Block, deltas: seq<string>, k: seq<Event>): seq<Event> {
    if deltas == [] then [BlockStop(Some(b.index))] + k
    else [BlockDelta(Some(b.index), b.isText, deltas[0])] + DeltasThen(b, deltas[1..], k)
  }

  /** The blocks one after the other, and the end of the message. */
  function BlockEvents(blocks: seq<Block>): seq<Event> {
    if blocks == [] then [MessageDelta(None)] + [Other("message_stop")]
    else
      var b := blocks[0];
      PingsThen(b.pings, [BlockStart(Some(b.index), b.isText)] + DeltasThen(b, b.deltas, BlockEvents(blocks[1..])))
  }

  /** The events of a reply made of these blocks. */
  function MessageEvents(blocks: seq<Block>): seq<Event> {
    [Other("message_start")] + BlockEvents(blocks)
  }

  function Pings(n: nat): seq<string> {
    if n == 0 then [] else ["ping"] + Pings(n - 1)
  }

  /** The names of the other events of the blocks and of the end. */
  function Names(blocks: seq<Block>): seq<string> {
    if blocks == [] then ["message_stop"] else Pings(blocks[0].pings) + Names(blocks[1..])
  }

  datatype Shown = Shown(index: int, isText: bool, text: string)

  /** The content of a reply and the stop sequence reported with it. */
  datatype Reply = Reply(blocks: seq<Shown>, stop: Option<string>)

  /**
   What a client has put together: the blocks, how many of them are closed, the stop sequence it was told, the
   other events it has heard, and how many events it could not place.
   */
  datatype Client = Client(blocks: seq<Shown>, closed: nat, stop: Option<string>, heard: seq<string>, stray: nat)

  const NEW_CLIENT := Client([], 0, None, [], 0)

  /** Block `i` is the last one, and the only one not closed. */
  predicate Open(c: Client, i: int) {
    |c.blocks| == c.closed + 1 && c.blocks[c.closed].index == i
  }

  function Receive(c: Client, e: Event): Client {
    match e
    case BlockStart(Some(i), isText) =>
      if c.closed == |c.blocks| then c.(blocks := c.blocks + [Shown(i, isText, "")]) else c.(stray := c.stray + 1)
    case BlockDelta(Some(i), _, text) => if Open(c, i) then AddText(c, text) else c.(stray := c.stray + 1)
    case BlockStop(Some(i)) => if Open(c, i) then Closed(c) else c.(stray := c.stray + 1)
    case MessageDelta(stop) => c.(stop := stop)
    case Other(name) => c.(heard := c.heard + [name])
    case _ => c.(stray := c.stray + 1)
  }

  function Closed(c: Client): Client {
    c.(closed := c.closed + 1)
  }

  function AddText(c: Client, text: string): Client
    requires c.blocks != []
  {
    var n := |c.blocks| - 1;
    c.(blocks := c.blocks[..n] + [c.blocks[n].(text := c.blocks[n].text + text)])
  }

  function ReceiveAll(c: Client, es: seq<Event>): Client
    decreases |es|
  {
    if es == [] then c else ReceiveAll(Receive(c, es[0]), es[1..])
  }

  /** What the client ends with when `es` reach it through the filter. */
  function Filtered(st: FilterState, es: seq<Event>, c: Client): Client {
    ReceiveAll(c, Apply(st, es).1)
  }

  lemma {:induction false} ReceiveAppend(c: Client, a: seq<Event>, b: seq<Event>)
    ensures ReceiveAll(c, a + b) == ReceiveAll(ReceiveAll(c, a), b)
    decreases |a|
  {
    if a == [] {
      assert a + b == b;
    } else {
      assert (a + b)[1..] == a[1..] + b;
      ReceiveAppend(Receive(c, a[0]), a[1..], b);
    }
  }

  lemma FilteredStep(st: FilterState, e: Event, k: seq<Event>, c: Client)
    ensures var (st1, out) := ApplyOne(st, e);
            Filtered(st, [e] + k, c) == Filtered(st1, k, ReceiveAll(c, out))
  {
    assert ([e] + k)[1..] == k;
    var (st1, out) := ApplyOne(st, e);
    ReceiveAppend(c, out, Apply(st1, k).1);
  }

  /** The filter is inside block `i`, which the client has started, and holds back `pending`. */
  ghost predicate InBlock(st: FilterState, c: Client, i: int, pending: string) {
    && i in st.forwarded
    && st.pending == (if pending == "" then map[] else map[i := pending])
    && Open(c, i)
  }

  lemma AddTextTwice(c: Client, a: string, b: string)
    requires c.blocks != []
    ensures AddText(AddText(c, a), b) == AddText(c, a + b)
  {
    var n := |c.blocks| - 1;
    var x := c.blocks[n].text;
    assert (x + a) + b == x + (a + b);
    assert AddText(c, a).blocks[..n] == c.blocks[..n];
  }

  lemma AddNoText(c: Client)
    requires c.blocks != []
    ensures AddText(c, "") == c
  {
    assert c.blocks[|c.blocks| - 1].text + "" == c.blocks[|c.blocks| - 1].text;
    assert c.blocks == c.blocks[..|c.blocks| - 1] + [c.blocks[|c.blocks| - 1]];
  }

  lemma ReceiveText(c: Client, i: int, isTextDelta: bool, text: string)
    requires Open(c, i)
    ensures Open(AddText(c, text), i)
    ensures ReceiveAll(c, [BlockDelta(Some(i), isTextDelta, text)]) == AddText(c, text)
    ensures text == "" ==> ReceiveAll(c, []) == AddText(c, text)
    ensures ReceiveAll(c, [BlockDelta(Some(i), isTextDelta, text)] + [BlockStop(Some(i))]) == Closed(AddText(c, text))
    ensures text == "" ==> ReceiveAll(c, [] + [BlockStop(Some(i))]) == Closed(AddText(c, text))
  {
    AddNoText(c);
    var d, stop := BlockDelta(Some(i), isTextDelta, text), [BlockStop(Some(i))];
    assert [d][1..] == [] && stop[1..] == [] && [] + stop == stop;
    assert ReceiveAll(AddText(c, text), stop) == Closed(AddText(c, text));
    assert ReceiveAll(c, stop) == Closed(c);
    ReceiveAppend(c, [d], stop);
  }

  lemma HearOne(st: FilterState, name: string, k: seq<Event>, c: Client)
    ensures Filtered(st, [Other(name)] + k, c) == Filtered(st, k, c.(heard := c.heard + [name]))
  {
    FilteredStep(st, Other(name), k, c);
    assert [Other(name)][1..] == [];
  }

  lemma {:induction false} HearPings(st: FilterState, n: nat, k: seq<Event>, c: Client)
    ensures Filtered(st, PingsThen(n, k), c) == Filtered(st, k, c.(heard := c.heard + Pings(n)))
  {
    if n == 0 {
      assert c.heard + [] == c.heard;
    } else {
      var c1 := c.(heard := c.heard + ["ping"]);
      HearOne(st, "ping", PingsThen(n - 1, k), c);
      HearPings(st, n - 1, k, c1);
      Associative(c.heard, ["ping"], Pings(n - 1));
    }
  }

  /** The end of the message: the client is told the stop sequence found, and hears the rest. */
  lemma MessageEnd(st: FilterState, c: Client)
    ensures Filtered(st, BlockEvents([]), c) == c.(stop := st.matched, heard := c.heard + ["message_stop"])
  {
    var c1 := c.(stop := st.matched);
    FilteredStep(st, MessageDelta(None), [Other("message_stop")], c);
    assert [MessageDelta(st.matched)][1..] == [] && [Other("message_stop")] == [Other("message_stop")] + [];
    HearOne(st, "message_stop", [], c1);
  }

  /** After a match the rest of the block shows nothing more. */
  lemma {:induction false} MatchedBlock(st: FilterState, b: Block, deltas: seq<string>, k: seq<Event>, c: Client)
    requires st.matched.Some? && InBlock(st, c, b.index, "")
    ensures Filtered(st, DeltasThen(b, deltas, k), c) == Filtered(st, k, Closed(c))
    decreases |deltas|
  {
    if deltas == [] {
      FilteredStep(st, BlockStop(Some(b.index)), k, c);
      ReceiveText(c, b.index, true, "");
      AddNoText(c);
      assert st.pending - {b.index} == st.pending;
    } else {
      FilteredStep(st, BlockDelta(Some(b.index), b.isText, deltas[0]), DeltasThen(b, deltas[1..], k), c);
      MatchedBlock(st, b, deltas[1..], k, c);
    }
  }

  /** After a match no further block reaches the client, only the reported stop sequence and other events. */
  lemma {:induction false} MatchedMessage(st: FilterState, blocks: seq<Block>, c: Client)
    requires st.matched.Some?
    requires forall i :: 0 <= i < |blocks| ==> blocks[i].index !in st.forwarded
    ensures Filtered(st, BlockEvents(blocks), c) == c.(stop := st.matched, heard := c.heard + Names(blocks))
    decreases |blocks|
  {
    if blocks == [] {
      MessageEnd(st, c);
    } else {
      var b := blocks[0];
      var k := BlockEvents(blocks[1..]);
      var c1 := c.(heard := c.heard + Pings(b.pings));
      HearPings(st, b.pings, [BlockStart(Some(b.index), b.isText)] + DeltasThen(b, b.deltas, k), c);
      FilteredStep(st, BlockStart(Some(b.index), b.isText), DeltasThen(b, b.deltas, k), c1);
      DroppedBlock(st, b, b.deltas, k, c1);
      MatchedMessage(st, blocks[1..], c1);
      Associative(c.heard, Pings(b.pings), Names(blocks[1..]));
    }
  }

  lemma {:induction false} DroppedBlock(st: FilterState, b: Block, deltas: seq<string>, k: seq<Event>, c: Client)
    requires st.matched.Some? && b.index !in st.forwarded
    ensures Filtered(st, DeltasThen(b, deltas, k), c) == Filtered(st, k, c)
    decreases |deltas|
  {
    if deltas == [] {
      FilteredStep(st, BlockStop(Some(b.index)), k, c);
    } else {
      FilteredStep(st, BlockDelta(Some(b.index), b.isText, deltas[0]), DeltasThen(b, deltas[1..], k), c);
      DroppedBlock(st, b, deltas[1..], k, c);
    }
  }

  lemma {:induction false} OtherBlock(st: FilterState, b: Block, deltas: seq<string>, k: seq<Event>, c: Client)
    requires st.matched.None? && !b.isText && InBlock(st, c, b.index, "")
    ensures Filtered(st, DeltasThen(b, deltas, k), c) == Filtered(st, k, Closed(AddText(c, Concat(deltas))))
    decreases |deltas|
  {
    if deltas == [] {
      FilteredStep(st, BlockStop(Some(b.index)), k, c);
      ReceiveText(c, b.index, true, "");
      assert st.pending - {b.index} == st.pending;
    } else {
      FilteredStep(st, BlockDelta(Some(b.index), b.isText, deltas[0]), DeltasThen(b, deltas[1..], k), c);
      ReceiveText(c, b.index, false, deltas[0]);
      var c1 := AddText(c, deltas[0]);
      OtherBlock(st, b, deltas[1..], k, c1);
      AddTextTwice(c, deltas[0], Concat(deltas[1..]));
    }
  }

  /** What one delta shows, holds back and matches, given what was held back before it. */
  datatype Piece = Piece(visible: string, held: string, matched: Option<string>)

  function Cut(sequences: seq<string>, combined: string): Piece {
    var m := EarliestMatch(combined, sequences);
    var split := |combined| - HeldSuffixLen(combined, sequences);
    if m.Some? then Piece(combined[..m.value.0], "", Some(m.value.1))
    else Piece(combined[..split], combined[split..], None)
  }

  lemma TextStep(st: FilterState, i: int, pending: string, text: string, c: Client)
    requires NonEmpty(st.sequences)
    requires st.matched.None? && i in st.textBlocks && InBlock(st, c, i, pending)
    ensures var piece := Cut(st.sequences, pending + text);
            && ApplyTextDelta(st, i, text).0
               == st.(pending := if piece.held == "" then map[] else map[i := piece.held], matched := piece.matched)
            && ReceiveAll(c, ApplyTextDelta(st, i, text).1) == AddText(c, piece.visible)
  {
    var combined := pending + text;
    assert PendingOf(st, i) == pending;
    assert st.pending - {i} == map[];
    ReceiveText(c, i, true, Cut(st.sequences, combined).visible);
    if combined == "" && EarliestMatch("", st.sequences).Some? {
      EarliestOccurs("", st.sequences);
    }
  }

  lemma TextBlockEnd(st: FilterState, b: Block, pending: string, k: seq<Event>, c: Client)
    requires st.matched.None? && b.isText && InBlock(st, c, b.index, pending)
    ensures Filtered(st, DeltasThen(b, [], k), c)
         == Filtered(st.(pending := map[], matched := None), k, Closed(AddText(c, pending)))
  {
    FilteredStep(st, BlockStop(Some(b.index)), k, c);
    ReceiveText(c, b.index, true, pending);
    assert st.pending - {b.index} == map[];
    assert st.(pending := map[], matched := None) == st.(pending := map[]);
  }

  /** One text delta of the block the client is in. */
  lemma TextDeltaStep(st: FilterState, i: int, pending: string, text: string, k: seq<Event>, c: Client)
    requires NonEmpty(st.sequences)
    requires st.matched.None? && i in st.textBlocks && InBlock(st, c, i, pending)
    ensures var piece := Cut(st.sequences, pending + text);
      var st1 := st.(pending := if piece.held == "" then map[] else map[i := piece.held], matched := piece.matched);
      && Filtered(st, [BlockDelta(Some(i), true, text)] + k, c) == Filtered(st1, k, AddText(c, piece.visible))
      && InBlock(st1, AddText(c, piece.visible), i, piece.held)
  {
    FilteredStep(st, BlockDelta(Some(i), true, text), k, c);
    TextStep(st, i, pending, text, c);
  }

  lemma {:induction false} TextBlock(
    st: FilterState, b: Block, pending: string, deltas: seq<string>, k: seq<Event>, c: Client)
    requires NonEmpty(st.sequences)
    requires st.matched.None? && b.isText && b.index in st.textBlocks && InBlock(st, c, b.index, pending)
    ensures var r := StreamBlock(st.sequences, pending, deltas);
            Filtered(st, DeltasThen(b, deltas, k), c)
            == Filtered(st.(pending := map[], matched := r.matched), k, Closed(AddText(c, r.visible)))
    decreases |deltas|
  {
    var i := b.index;
    if deltas == [] {
      TextBlockEnd(st, b, pending, k, c);
    } else {
      var piece := Cut(st.sequences, pending + deltas[0]);
      var st1 := st.(pending := if piece.held == "" then map[] else map[i := piece.held], matched := piece.matched);
      var c1 := AddText(c, piece.visible);
      TextDeltaStep(st, i, pending, deltas[0], DeltasThen(b, deltas[1..], k), c);
      if piece.matched.Some? {
        MatchedBlock(st1, b, deltas[1..], k, c1);
      } else {
        TextBlock(st1, b, piece.held, deltas[1..], k, c1);
        AddTextTwice(c, piece.visible, StreamBlock(st.sequences, piece.held, deltas[1..]).visible);
      }
    }
  }

  /** The client's content, block by block: everything up to the first match, and nothing after it. */
  function Streamed(sequences: seq<string>, blocks: seq<Block>): Reply {
    if blocks == [] then Reply([], None)
    else
      var b := blocks[0];
      var r := BlockOutcome(sequences, b);
      var first := Shown(b.index, b.isText, r.visible);
      if r.matched.Some? then Reply([first], r.matched)
      else
        var rest := Streamed(sequences, blocks[1..]);
        Reply([first] + rest.blocks, rest.stop)
  }

  ghost predicate DistinctBlocks(blocks: seq<Block>, used: set<int>) {
    && (forall i :: 0 <= i < |blocks| ==> blocks[i].index !in used)
    && (forall i, j :: 0 <= i < j < |blocks| ==> blocks[i].index != blocks[j].index)
  }

  /** What one block comes to, streamed. */
  function BlockOutcome(sequences: seq<string>, b: Block): Outcome {
    if b.isText then StreamBlock(sequences, "", b.deltas) else Outcome(Concat(b.deltas), None)
  }

  lemma AddToStarted(c: Client, b: Block, text: string)
    ensures AddText(c.(blocks := c.blocks + [Shown(b.index, b.isText, "")]), text)
         == c.(blocks := c.blocks + [Shown(b.index, b.isText, text)])
  {
    assert "" + text == text;
  }

  /** The client with one more block, closed. */
  function WithBlock(c: Client, b: Shown): Client {
    c.(blocks := c.blocks + [b], closed := c.closed + 1)
  }

  lemma OneBlock(st: FilterState, b: Block, k: seq<Event>, c: Client)
    requires NonEmpty(st.sequences) && st.matched.None? && st.pending == map[] && c.closed == |c.blocks|
    requires b.index !in st.forwarded && b.index !in st.textBlocks
    ensures var r := BlockOutcome(st.sequences, b);
      Filtered(st, [BlockStart(Some(b.index), b.isText)] + DeltasThen(b, b.deltas, k), c)
      == Filtered(ApplyOne(st, BlockStart(Some(b.index), b.isText)).0.(pending := map[], matched := r.matched), k,
                  WithBlock(c, Shown(b.index, b.isText, r.visible)))
  {
    var start := BlockStart(Some(b.index), b.isText);
    var st1 := ApplyOne(st, start).0;
    var c1 := c.(blocks := c.blocks + [Shown(b.index, b.isText, "")]);
    FilteredStep(st, start, DeltasThen(b, b.deltas, k), c);
    assert ReceiveAll(c, [start]) == c1;
    if b.isText {
      TextBlock(st1, b, "", b.deltas, k, c1);
    } else {
      OtherBlock(st1, b, b.deltas, k, c1);
    }
    AddToStarted(c, b, BlockOutcome(st.sequences, b).visible);
  }

  /** The client after the reply `r` and the other events `names`. */
  function WithReply(c: Client, r: Reply, names: seq<string>): Client {
    Client(c.blocks + r.blocks, c.closed + |r.blocks|, r.stop, c.heard + names, c.stray)
  }

  lemma WithReplyCons(c: Client, pings: seq<string>, first: Shown, rest: Reply, names: seq<string>)
    ensures WithReply(WithBlock(c.(heard := c.heard + pings), first), rest, names)
         == WithReply(c, Reply([first] + rest.blocks, rest.stop), pings + names)
  {
    Associative(c.blocks, [first], rest.blocks);
    Associative(c.heard, pings, names);
  }

  lemma {:induction false} MessageFrom(st: FilterState, blocks: seq<Block>, c: Client)
    requires NonEmpty(st.sequences) && st.matched.None? && st.pending == map[] && st.textBlocks <= st.forwarded
    requires DistinctBlocks(blocks, st.forwarded) && c.closed == |c.blocks|
    ensures Filtered(st, BlockEvents(blocks), c) == WithReply(c, Streamed(st.sequences, blocks), Names(blocks))
    decreases |blocks|
  {
    if blocks == [] {
      MessageEnd(st, c);
      assert c.blocks + [] == c.blocks;
    } else {
      var b := blocks[0];
      var k := BlockEvents(blocks[1..]);
      var r := BlockOutcome(st.sequences, b);
      var first := Shown(b.index, b.isText, r.visible);
      var st2 := ApplyOne(st, BlockStart(Some(b.index), b.isText)).0.(pending := map[], matched := r.matched);
      var c1 := c.(heard := c.heard + Pings(b.pings));
      HearPings(st, b.pings, [BlockStart(Some(b.index), b.isText)] + DeltasThen(b, b.deltas, k), c);
      OneBlock(st, b, k, c1);
      if r.matched.Some? {
        MatchedMessage(st2, blocks[1..], WithBlock(c1, first));
        Associative(c.heard, Pings(b.pings), Names(blocks[1..]));
      } else {
        MessageFrom(st2, blocks[1..], WithBlock(c1, first));
        WithReplyCons(c, Pings(b.pings), first, Streamed(st.sequences, blocks[1..]), Names(blocks[1..]));
      }
    }
  }

  /** What a client gets of a whole reply through the filter: each block closed, and every other event. */
  lemma FilteredMessage(sequences: seq<string>, blocks: seq<Block>)
    requires NonEmpty(sequences) && DistinctBlocks(blocks, {})
    ensures var r := Streamed(sequences, blocks);
      Filtered(Initial(sequences), MessageEvents(blocks), NEW_CLIENT)
      == Client(r.blocks, |r.blocks|, r.stop, ["message_start"] + Names(blocks), 0)
  {
    var c := NEW_CLIENT.(heard := ["message_start"]);
    HearOne(Initial(sequences), "message_start", BlockEvents(blocks), NEW_CLIENT);
    assert [] + ["message_start"] == ["message_start"];
    MessageFrom(Initial(sequences), blocks, c);
    assert [] + Streamed(sequences, blocks).blocks == Streamed(sequences, blocks).blocks;
  }

  /** `truncate_content_at_stop_sequence` on the finished content. */
  function TruncateContent(sequences: seq<string>, content: seq<Shown>): Reply {
    if content == [] then Reply([], None)
    else
      var first := content[0];
      var r := if first.isText then BatchBlock(sequences, first.text) else Outcome(first.text, None);
      if r.matched.Some? then Reply(if r.visible == "" then [] else [first.(text := r.visible)], r.matched)
      else
        var rest := TruncateContent(sequences, content[1..]);
        Reply([first] + rest.blocks, rest.stop)
  }

  function ReplyOf(c: Client): Reply {
    Reply(c.blocks, c.stop)
  }

  function Content(blocks: seq<Block>): seq<Shown> {
    if blocks == [] then []
    else [Shown(blocks[0].index, blocks[0].isText, Concat(blocks[0].deltas))] + Content(blocks[1..])
  }

  /** The batch form removes a block cut to nothing; the stream has already started it. */
  function DropCutBlock(c: Reply): Reply {
    var n := |c.blocks|;
    if c.stop.Some? && n > 0 && c.blocks[n - 1].isText && c.blocks[n - 1].text == ""
    then c.(blocks := c.blocks[..n - 1]) else c
  }

  lemma DropCutBlockCons(first: Shown, rest: Reply)
    requires rest.stop.Some? ==> rest.blocks != []
    ensures DropCutBlock(Reply([first] + rest.blocks, rest.stop))
         == Reply([first] + DropCutBlock(rest).blocks, rest.stop)
  {
    if rest.stop.Some? {
      var n := |rest.blocks|;
      assert ([first] + rest.blocks)[n] == rest.blocks[n - 1];
      assert ([first] + rest.blocks)[..n] == [first] + rest.blocks[..n - 1];
    }
  }

  /** With `MatchSafe` sequences a reply shows the same content and stop sequence streamed or whole. */
  lemma {:induction false} StreamedIsTruncated(sequences: seq<string>, blocks: seq<Block>)
    requires NonEmpty(sequences) && MatchSafe(sequences)
    ensures DropCutBlock(Streamed(sequences, blocks)) == TruncateContent(sequences, Content(blocks))
    ensures Streamed(sequences, blocks).stop.Some? ==> Streamed(sequences, blocks).blocks != []
    decreases |blocks|
  {
    if blocks != [] {
      var b := blocks[0];
      assert Content(blocks)[1..] == Content(blocks[1..]);
      StreamedIsTruncated(sequences, blocks[1..]);
      if b.isText {
        MatchSafeSuffices(sequences, b.deltas);
      }
      var r := if b.isText then BatchBlock(sequences, Concat(b.deltas)) else Outcome(Concat(b.deltas), None);
      if r.matched.None? {
        DropCutBlockCons(Shown(b.index, b.isText, r.visible), Streamed(sequences, blocks[1..]));
      }
    }
  }

  /** A reply of one block, split where a beginning of a stop sequence holds another, stops differently. */
  lemma UnsafeReply(sequences: seq<string>) returns (blocks: seq<Block>)
    requires NonEmpty(sequences) && !MatchSafe(sequences)
    ensures DistinctBlocks(blocks, {})
    ensures Streamed(sequences, blocks).stop != TruncateContent(sequences, Content(blocks)).stop
  {
    var s, k :| s in sequences && 0 <= k < |s| && EarliestMatch(s[..k], sequences) != None;
    SplitAt(sequences, s, k);
    blocks := [Block(0, 0, true, [s[..k], s[k..]])];
    EarliestOccurs(s[..k], sequences);
    assert blocks[1..] == [] && Content(blocks) == [Shown(0, true, s)];
  }

  /**
   Streaming a reply through the filter gives the client what truncating the finished reply would
   give, for every reply and every chunking, exactly when no beginning of a stop sequence contains
   a stop sequence.
   */
  lemma StreamedRepliesAgree(sequences: seq<string>)
    requires NonEmpty(sequences)
    ensures MatchSafe(sequences) <==>
            forall blocks :: DistinctBlocks(blocks, {}) ==>
              DropCutBlock(ReplyOf(Filtered(Initial(sequences), MessageEvents(blocks), NEW_CLIENT)))
              == TruncateContent(sequences, Content(blocks))
  {
    if MatchSafe(sequences) {
      forall blocks | DistinctBlocks(blocks, {})
        ensures DropCutBlock(ReplyOf(Filtered(Initial(sequences), MessageEvents(blocks), NEW_CLIENT)))
             == TruncateContent(sequences, Content(blocks))
      {
        FilteredMessage(sequences, blocks);
        StreamedIsTruncated(sequences, blocks);
      }
    } else {
      var blocks := UnsafeReply(sequences);
      FilteredMessage(sequences, blocks);
    }
  }

  /** For instance, with `abc` and `b`, the text `abc` shows `a` and stops at `b` when it is streamed as `ab`, `c`. */
  lemma {:induction false} UnsafeExample()
    ensures var sequences := ["abc", "b"];
      && !TextSafe(sequences) && !MatchSafe(sequences)
      && StreamBlock(sequences, "", ["ab", "c"]) == Outcome("a", Some("b"))
      && BatchBlock(sequences, "abc") == Outcome("", Some("abc"))
  {
    var sequences := ["abc", "b"];
    var s := sequences[0];
    assert s[..2] == "ab" && s[2..] == "c";
    ShortMatch(sequences, "ab");
    SplitAt(sequences, s, 2);
    WholeMatch(sequences, s);
    assert "ab"[..1] == "a" && s[..0] == "";
  }

  lemma WholeMatch(sequences: seq<string>, text: string)
    requires sequences == ["abc", "b"] && text == "abc"
    ensures EarliestMatch(text, sequences) == Some((0, "abc"))
  {
    assert OccursAt(text, 0, sequences[0]);
    EarliestIsPreferred(text, sequences, 0, sequences[0]);
    EarliestOccurs(text, sequences);
  }

  lemma ShortMatch(sequences: seq<string>, text: string)
    requires sequences == ["abc", "b"] && text == "ab"
    ensures EarliestMatch(text, sequences) == Some((1, "b"))
  {
    assert OccursAt(text, 1, sequences[1]);
    EarliestIsPreferred(text, sequences, 1, sequences[1]);
    EarliestOccurs(text, sequences);
    assert text[0..1] == "a";
  }
}
