/** The sliding-window chunker of `IngestionService::split_text_into_chunks`.
    The text is taken as its sequence of Unicode scalar values (Rust's
    `Vec<char>`); a window of `ChunkSize` characters is cut back to the last
    whitespace inside it, emitted, and the cursor moves forward by the
    window's length less `ChunkOverlap`, but always by at least one. */
module Chunker {
  import opened Text

  const ChunkSize: nat := 1500
  const ChunkOverlap: nat := 200

  /** The half-open character range `[lo, hi)` of one emitted chunk. */
  datatype Span = Span(lo: nat, hi: nat)

  /** `min(start + CHUNK_SIZE, chars.len())`. */
  function WindowEnd(n: nat, start: nat): nat
  {
    if start + ChunkSize < n then start + ChunkSize else n
  }

  /** The inner loop: from `i` step back while the character at the cursor
      is not whitespace, never going below `start`. */
  function WalkBack(chars: string, start: nat, i: nat): (a: nat)
    requires start <= i < |chars|
    ensures start <= a <= i
    decreases i
  {
    if i > start && !IsWhitespace(chars[i]) then WalkBack(chars, start, i - 1) else i
  }

  /** The walk stops at the last whitespace character after `start`, and
      reaches `start` only when there is none. */
  lemma {:induction false} WalkBackStops(chars: string, start: nat, i: nat)
    requires start <= i < |chars|
    ensures var a := WalkBack(chars, start, i);
            (a > start ==> IsWhitespace(chars[a]))
            && forall j :: a < j <= i ==> !IsWhitespace(chars[j])
    decreases i
  {
    if i > start && !IsWhitespace(chars[i]) {
      WalkBackStops(chars, start, i - 1);
    }
  }

  /** There is a whitespace character at a position in `(start, end]`. */
  predicate HasBreak(chars: string, start: nat, end: nat)
    requires end < |chars|
  {
    exists j :: start < j <= end && IsWhitespace(chars[j])
  }

  /** `actual_end`: where the chunk starting at `start` is cut. */
  function CutEnd(chars: string, start: nat): (e: nat)
    requires start < |chars|
    ensures start < e <= WindowEnd(|chars|, start) && e - start <= ChunkSize
  {
    var end := WindowEnd(|chars|, start);
    var a := if end < |chars| then WalkBack(chars, start, end) else end;
    if a == start then end else a
  }

  /** The cut avoids splitting a word: when the window stops short of the
      text's end and holds a whitespace character after `start`, the chunk
      ends just before the last such character; otherwise the cut is at the
      window's end (a hard cut). */
  lemma CutAtWhitespace(chars: string, start: nat)
    requires start < |chars|
    ensures var end := WindowEnd(|chars|, start);
            var e := CutEnd(chars, start);
            if end < |chars| && HasBreak(chars, start, end) then
              e < |chars| && IsWhitespace(chars[e]) && forall j :: e < j <= end ==> !IsWhitespace(chars[j])
            else
              e == end
  {
    var end := WindowEnd(|chars|, start);
    if end < |chars| {
      WalkBackStops(chars, start, end);
    }
  }

  /** `max(1, len.saturating_sub(CHUNK_OVERLAP))`. */
  function Advance(len: nat): (step: nat)
    ensures 1 <= step
    ensures 1 <= len ==> step <= len
    ensures len > ChunkOverlap + 1 ==> step == len - ChunkOverlap
    ensures len <= ChunkOverlap + 1 ==> step == 1
  {
    var d := if len >= ChunkOverlap then len - ChunkOverlap else 0;
    if d > 1 then d else 1
  }

  /** The ranges the outer loop emits from cursor `start` on. */
  function Spans(chars: string, start: nat): (spans: seq<Span>)
    requires start <= |chars|
    ensures forall i :: 0 <= i < |spans| ==> start <= spans[i].lo < spans[i].hi <= |chars|
    decreases |chars| - start
  {
    if start == |chars| then []
    else
      var e := CutEnd(chars, start);
      [Span(start, e)] + Spans(chars, start + Advance(e - start))
  }

  predicate InText(chars: string, spans: seq<Span>)
  {
    forall i :: 0 <= i < |spans| ==> spans[i].lo <= spans[i].hi <= |chars|
  }

  /** The text of each range, in order. */
  function Slices(chars: string, spans: seq<Span>): (r: seq<string>)
    requires InText(chars, spans)
    ensures |r| == |spans|
    ensures forall i :: 0 <= i < |spans| ==> r[i] == chars[spans[i].lo..spans[i].hi]
  {
    if spans == [] then [] else [chars[spans[0].lo..spans[0].hi]] + Slices(chars, spans[1..])
  }

  /** The chunks the outer loop emits from cursor `start` on, in the shape
      of the loop itself (cut, push, advance), so that the loop invariant
      steps by unfolding it once. `Spans` describes the same walk by its
      ranges, which is what the coverage and ordering lemmas need;
      `ChunksAreSlices` proves the two agree. */
  function ChunksFrom(chars: string, start: nat): seq<string>
    requires start <= |chars|
    decreases |chars| - start
  {
    if start == |chars| then []
    else
      var e := CutEnd(chars, start);
      [chars[start..e]] + ChunksFrom(chars, start + Advance(e - start))
  }

  /** What `split_text_into_chunks(text)` returns. */
  function Split(text: string): seq<string>
  {
    ChunksFrom(text, 0)
  }

  /** The chunks are the texts of the emitted ranges. */
  lemma {:induction false} ChunksAreSlices(chars: string, start: nat)
    requires start <= |chars|
    ensures ChunksFrom(chars, start) == Slices(chars, Spans(chars, start))
    decreases |chars| - start
  {
    if start < |chars| {
      var e := CutEnd(chars, start);
      ChunksAreSlices(chars, start + Advance(e - start));
    }
  }

  /** The chunker as the source runs it: an outer loop over the cursor and an
      inner loop walking back to whitespace. */
  method SplitTextIntoChunks(text: string) returns (chunks: seq<string>)
    ensures chunks == Split(text)
  {
    var chars := text;
    chunks := [];
    var start := 0;
    ghost var all := Split(chars);
    while start < |chars|
      invariant start <= |chars|
      invariant chunks + ChunksFrom(chars, start) == all
      decreases |chars| - start
    {
      var actualEnd := FindCut(chars, start);
      var next := start + Advance(actualEnd - start);
      NextChunk(chars, start, chunks, all);
      chunks := chunks + [chars[start..actualEnd]];
      start := next;
    }
  }

  /** The body of the outer loop up to `actual_end`: the window's end, walked
      back to whitespace, or the window's end again when the walk reached
      `start`. */
  method FindCut(chars: string, start: nat) returns (actualEnd: nat)
    requires start < |chars|
    ensures actualEnd == CutEnd(chars, start)
  {
    var end := WindowEnd(|chars|, start);
    actualEnd := end;
    if actualEnd < |chars| {
      while actualEnd > start && !IsWhitespace(chars[actualEnd])
        invariant start <= actualEnd <= end
        invariant WalkBack(chars, start, actualEnd) == WalkBack(chars, start, end)
      {
        actualEnd := actualEnd - 1;
      }
    }
    if actualEnd == start {
      actualEnd := end;
    }
  }

  /** One turn of the outer loop keeps its invariant. */
  lemma NextChunk(chars: string, start: nat, done: seq<string>, all: seq<string>)
    requires start < |chars| && done + ChunksFrom(chars, start) == all
    ensures var e := CutEnd(chars, start);
            (done + [chars[start..e]]) + ChunksFrom(chars, start + Advance(e - start)) == all
  {
    var e := CutEnd(chars, start);
    var rest := ChunksFrom(chars, start + Advance(e - start));
    assert ChunksFrom(chars, start) == [chars[start..e]] + rest;
    assert (done + [chars[start..e]]) + rest == done + ([chars[start..e]] + rest);
  }

  // ---------------------------------------------------------------------
  // Properties of the chunker

  /** Every chunk is non-empty and at most `ChunkSize` characters long, and
      there are never more chunks than characters. */
  lemma {:induction false} ChunkLengths(chars: string, start: nat)
    requires start <= |chars|
    ensures var spans := Spans(chars, start);
            |spans| <= |chars| - start
            && forall i :: 0 <= i < |spans| ==> 1 <= spans[i].hi - spans[i].lo <= ChunkSize
    decreases |chars| - start
  {
    if start < |chars| {
      var e := CutEnd(chars, start);
      ChunkLengths(chars, start + Advance(e - start));
    }
  }

  /** Chunk starts strictly increase, and each chunk starts no later than
      the previous one ends, so consecutive chunks leave no gap. */
  lemma {:induction false} SpansOrdered(chars: string, start: nat)
    requires start <= |chars|
    ensures var spans := Spans(chars, start);
            (spans == [] <==> start == |chars|)
            && (spans != [] ==> spans[0].lo == start)
            && forall i :: 0 <= i < |spans| - 1 ==> spans[i].lo < spans[i + 1].lo <= spans[i].hi
    decreases |chars| - start
  {
    if start < |chars| {
      var e := CutEnd(chars, start);
      var next := start + Advance(e - start);
      SpansOrdered(chars, next);
    }
  }

  /** Coverage: every character position from the cursor on lies inside
      some emitted chunk. */
  lemma {:induction false} SpansCover(chars: string, start: nat, k: nat)
    requires start <= k < |chars|
    ensures exists i :: 0 <= i < |Spans(chars, start)| && Spans(chars, start)[i].lo <= k < Spans(chars, start)[i].hi
    decreases |chars| - start
  {
    var spans := Spans(chars, start);
    var e := CutEnd(chars, start);
    var next := start + Advance(e - start);
    if k < e {
      assert spans[0].lo <= k < spans[0].hi;
    } else {
      SpansCover(chars, next, k);
      var i :| 0 <= i < |Spans(chars, next)| && Spans(chars, next)[i].lo <= k < Spans(chars, next)[i].hi;
      assert spans[i + 1] == Spans(chars, next)[i];
    }
  }

  /** The last chunk of a non-empty text is always its single last
      character: once a window reaches the end, the cursor creeps forward one
      character at a time. */
  lemma {:induction false} LastSpan(chars: string, start: nat)
    requires start < |chars|
    ensures var spans := Spans(chars, start);
            spans != [] && spans[|spans| - 1] == Span(|chars| - 1, |chars|)
    decreases |chars| - start
  {
    var e := CutEnd(chars, start);
    var next := start + Advance(e - start);
    if next < |chars| {
      LastSpan(chars, next);
    }
  }

  /** From a cursor at most `ChunkOverlap + 1` characters before the end,
      the chunks are every suffix of the remaining text, one per
      position. */
  lemma {:induction false} TailSpans(chars: string, start: nat)
    requires start <= |chars| && |chars| - start <= ChunkOverlap + 1
    ensures var spans := Spans(chars, start);
            |spans| == |chars| - start
            && forall i :: 0 <= i < |spans| ==> spans[i] == Span(start + i, |chars|)
    decreases |chars| - start
  {
    if start < |chars| {
      TailSpans(chars, start + 1);
    }
  }

  /** A text of `n` characters with `0 < n <= ChunkSize` does NOT give one
      chunk: the first chunk is the whole text, and the count is `n` when
      `n <= ChunkOverlap + 1` and `ChunkOverlap + 1` otherwise. */
  lemma ShortTextChunks(text: string)
    requires 0 < |text| <= ChunkSize
    ensures var chunks := Split(text);
            chunks != [] && chunks[0] == text
            && |chunks| == if |text| <= ChunkOverlap + 1 then |text| else ChunkOverlap + 1
  {
    var n := |text|;
    ChunksAreSlices(text, 0);
    if n <= ChunkOverlap + 1 {
      TailSpans(text, 0);
    } else {
      var spans := Spans(text, 0);
      assert CutEnd(text, 0) == n;
      assert spans == [Span(0, n)] + Spans(text, n - ChunkOverlap);
      TailSpans(text, n - ChunkOverlap);
    }
    assert text[0..|text|] == text;
  }
}
