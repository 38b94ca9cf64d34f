/**
 * The line-based chunker `splitCodeSmart` of src/utils/splitCode.ts.
 *
 * The text is split on newlines; lines are accumulated greedily into a
 * buffer while a running token estimate (`ceil(length / 4)` per line) stays
 * within the budget. Before a line that would push the estimate over the
 * budget, the buffer is closed as a chunk (even when it is empty). Every
 * line is written back followed by a newline. After the last line the
 * buffer is emitted only if `trim()` leaves something.
 *
 * `SmartChunks` is the function the method `SplitCodeSmart` is proved to
 * compute; the lemmas below state what the chunks are.
 */
module Chunker {
  import opened Lines

  /** One output chunk: its text and the zero-based, inclusive range of lines it holds. */
  datatype Chunk = Chunk(chunk: string, startLine: int, endLine: int)

  /** `Math.ceil(line.length / 4)`, in integer arithmetic. */
  function EstimateTokens(line: string): nat
  {
    (|line| + 3) / 4
  }

  /** The estimate is the least count of four-character blocks that covers the line. */
  lemma EstimateIsCeiling(line: string, t: nat)
    ensures 4 * EstimateTokens(line) - 3 <= |line| <= 4 * EstimateTokens(line)
    ensures 4 * t >= |line| ==> t >= EstimateTokens(line)
  {
  }

  /** The summed estimate of lines `a..b-1`. */
  function CostBetween(lines: seq<string>, a: int, b: int): nat
    requires 0 <= a && b <= |lines|
    decreases b - a
  {
    if b <= a then 0 else CostBetween(lines, a, b - 1) + EstimateTokens(lines[b - 1])
  }

  /** The texts of the chunks, one after the other. */
  function ConcatChunks(cs: seq<Chunk>): string
  {
    if cs == [] then "" else ConcatChunks(cs[..|cs| - 1]) + cs[|cs| - 1].chunk
  }

  /** The loop's variables: `chunks`, `currentChunk`, `tokenCount`, `startLine`. */
  datatype ScanState = ScanState(chunks: seq<Chunk>, current: string, tokens: int, start: int)

  /** One iteration of the loop, on line `i`. */
  function Step(s: ScanState, line: string, i: int, maxTokens: int): ScanState
  {
    var estimated := EstimateTokens(line);
    var t := if s.tokens + estimated > maxTokens
             then ScanState(s.chunks + [Chunk(s.current, s.start, i - 1)], "", 0, i)
             else s;
    ScanState(t.chunks, t.current + line + "\n", t.tokens + estimated, t.start)
  }

  /** The loop's variables after the first `n` lines. */
  function ScanLines(lines: seq<string>, maxTokens: int, n: nat): ScanState
    requires n <= |lines|
  {
    if n == 0 then ScanState([], "", 0, 0)
    else Step(ScanLines(lines, maxTokens, n - 1), lines[n - 1], n - 1, maxTokens)
  }

  /** The final flush: the buffer is kept only if `trim()` leaves something. */
  function Finish(s: ScanState, lineCount: int): seq<Chunk>
  {
    if Trim(s.current) != "" then s.chunks + [Chunk(s.current, s.start, lineCount - 1)]
    else s.chunks
  }

  /** The chunks of a text already split into `lines`. */
  function ChunkLines(lines: seq<string>, maxTokens: int): seq<Chunk>
  {
    Finish(ScanLines(lines, maxTokens, |lines|), |lines|)
  }

  /** What `splitCodeSmart(code, maxTokens)` returns. */
  function SmartChunks(code: string, maxTokens: int): seq<Chunk>
  {
    ChunkLines(Split(code), maxTokens)
  }

  /** `splitCodeSmart`: one greedy pass over the lines. */
  method SplitCodeSmart(code: string, maxTokens: int) returns (chunks: seq<Chunk>)
    ensures chunks == SmartChunks(code, maxTokens)
  {
    var lines := Split(code);
    chunks := [];
    var currentChunk := "";
    var tokenCount := 0;
    var startLine := 0;
    for i := 0 to |lines|
      invariant ScanLines(lines, maxTokens, i) == ScanState(chunks, currentChunk, tokenCount, startLine)
    {
      var line := lines[i];
      var estimatedTokens := EstimateTokens(line);
      if tokenCount + estimatedTokens > maxTokens {
        chunks := chunks + [Chunk(currentChunk, startLine, i - 1)];
        currentChunk := "";
        tokenCount := 0;
        startLine := i;
      }
      currentChunk := currentChunk + line + "\n";
      tokenCount := tokenCount + estimatedTokens;
    }
    if Trim(currentChunk) != "" {
      chunks := chunks + [Chunk(currentChunk, startLine, |lines| - 1)];
    }
  }

  // ---------------------------------------------------------------------
  // The loop invariant
  // ---------------------------------------------------------------------

  /** The chunk's line range lies within `lines`. */
  predicate InRange(lines: seq<string>, c: Chunk)
  {
    0 <= c.startLine <= c.endLine + 1 <= |lines|
  }

  /** The text of the lines a chunk's range names. */
  function RangeText(lines: seq<string>, c: Chunk): string
    requires InRange(lines, c)
  {
    LinesBetween(lines, c.startLine, c.endLine + 1)
  }

  /** The summed estimate of the lines a chunk's range names. */
  function RangeCost(lines: seq<string>, c: Chunk): nat
    requires InRange(lines, c)
  {
    CostBetween(lines, c.startLine, c.endLine + 1)
  }

  /** Ranges follow one another from line 0 up to (not including) line `next`. */
  ghost predicate Tiled(cs: seq<Chunk>, next: int)
  {
    && (cs == [] ==> next == 0)
    && (cs != [] ==> cs[0].startLine == 0 && cs[|cs| - 1].endLine + 1 == next)
    && forall j, k :: 0 <= j < k < |cs| && k == j + 1 ==> cs[j].endLine + 1 == cs[k].startLine
  }

  /** A chunk closed inside the loop, before line `endLine + 1` that did not fit. */
  ghost predicate Flushed(lines: seq<string>, maxTokens: int, c: Chunk)
  {
    && 0 <= c.startLine <= c.endLine + 1 < |lines|
    && c.chunk == RangeText(lines, c)
    && (c.startLine < c.endLine ==> RangeCost(lines, c) <= maxTokens)
    && RangeCost(lines, c) + EstimateTokens(lines[c.endLine + 1]) > maxTokens
  }

  /** The buffer after `n` lines: lines `start..n-1`, their estimate, within budget once it holds two lines. */
  ghost predicate BufferInv(lines: seq<string>, maxTokens: int, n: nat, s: ScanState)
  {
    && n <= |lines|
    && 0 <= s.start <= n
    && (n > 0 ==> s.start < n)
    && s.current == LinesBetween(lines, s.start, n)
    && s.tokens == CostBetween(lines, s.start, n)
    && (s.start + 1 < n ==> s.tokens <= maxTokens)
  }

  /** The closed chunks after `n` lines: they tile lines `0..start-1`, each was flushed, only the first may be empty. */
  ghost predicate ChunksInv(lines: seq<string>, maxTokens: int, n: nat, s: ScanState)
  {
    && Tiled(s.chunks, s.start)
    && (forall k :: 0 <= k < |s.chunks| ==> Flushed(lines, maxTokens, s.chunks[k]))
    && (forall k :: 0 < k < |s.chunks| ==> s.chunks[k].startLine <= s.chunks[k].endLine)
    && (n == 0 ==> s.chunks == [])
    && (0 < n <= |lines| && EstimateTokens(lines[0]) > maxTokens ==>
          s.chunks != [] && s.chunks[0] == Chunk("", 0, -1))
  }

  /** The closed chunks spell out lines `0..start-1`. */
  ghost predicate TextInv(lines: seq<string>, s: ScanState)
  {
    0 <= s.start <= |lines| && ConcatChunks(s.chunks) == LinesBetween(lines, 0, s.start)
  }

  /** What holds of the loop's variables after `n` lines. */
  ghost predicate ScanInv(lines: seq<string>, maxTokens: int, n: nat, s: ScanState)
  {
    BufferInv(lines, maxTokens, n, s) && ChunksInv(lines, maxTokens, n, s) && TextInv(lines, s)
  }

  /** Appending a chunk that starts where the tiling stopped extends the tiling. */
  lemma TiledAppend(cs: seq<Chunk>, c: Chunk)
    requires Tiled(cs, c.startLine)
    ensures Tiled(cs + [c], c.endLine + 1)
  {
    var cs' := cs + [c];
    forall j, k | 0 <= j < k < |cs'| && k == j + 1
      ensures cs'[j].endLine + 1 == cs'[k].startLine
    {
      if k < |cs| {
        assert cs'[j] == cs[j] && cs'[k] == cs[k];
      }
    }
  }

  /** Appending a flushed chunk keeps every chunk flushed. */
  lemma FlushedAppend(lines: seq<string>, maxTokens: int, cs: seq<Chunk>, c: Chunk)
    requires forall k :: 0 <= k < |cs| ==> Flushed(lines, maxTokens, cs[k])
    requires Flushed(lines, maxTokens, c)
    ensures forall k :: 0 <= k < |cs + [c]| ==> Flushed(lines, maxTokens, (cs + [c])[k])
  {
    forall k | 0 <= k < |cs + [c]|
      ensures Flushed(lines, maxTokens, (cs + [c])[k])
    {
      if k < |cs| {
        assert (cs + [c])[k] == cs[k];
      }
    }
  }

  /** Appending a chunk with at least one line keeps every chunk but the first non-empty. */
  lemma NonEmptyAppend(cs: seq<Chunk>, c: Chunk)
    requires forall k :: 0 < k < |cs| ==> cs[k].startLine <= cs[k].endLine
    requires cs != [] ==> c.startLine <= c.endLine
    ensures forall k :: 0 < k < |cs + [c]| ==> (cs + [c])[k].startLine <= (cs + [c])[k].endLine
  {
    forall k | 0 < k < |cs + [c]|
      ensures (cs + [c])[k].startLine <= (cs + [c])[k].endLine
    {
      if k < |cs| {
        assert (cs + [c])[k] == cs[k];
      }
    }
  }

  /** Closing the buffer before line `n - 1` leaves a buffer of that line alone. */
  lemma FlushBuffer(lines: seq<string>, maxTokens: int, n: nat, s: ScanState)
    requires 0 < n <= |lines| && BufferInv(lines, maxTokens, n - 1, s)
    requires s.tokens + EstimateTokens(lines[n - 1]) > maxTokens
    ensures BufferInv(lines, maxTokens, n, Step(s, lines[n - 1], n - 1, maxTokens))
  {
    assert LinesBetween(lines, n - 1, n) == lines[n - 1] + "\n";
  }

  /** The chunk closed before line `n - 1` is a flushed one, and it extends the tiling. */
  lemma FlushChunks(lines: seq<string>, maxTokens: int, n: nat, s: ScanState)
    requires 0 < n <= |lines| && BufferInv(lines, maxTokens, n - 1, s) && ChunksInv(lines, maxTokens, n - 1, s)
    requires s.tokens + EstimateTokens(lines[n - 1]) > maxTokens
    ensures ChunksInv(lines, maxTokens, n, Step(s, lines[n - 1], n - 1, maxTokens))
  {
    var c := Chunk(s.current, s.start, n - 2);
    var cs := s.chunks + [c];
    assert Step(s, lines[n - 1], n - 1, maxTokens).chunks == cs;
    assert Flushed(lines, maxTokens, c);
    FlushedAppend(lines, maxTokens, s.chunks, c);
    TiledAppend(s.chunks, c);
    NonEmptyAppend(s.chunks, c);
    assert s.chunks != [] ==> cs[0] == s.chunks[0];
  }

  /** The chunk closed before line `n - 1` carries the text of the buffer. */
  lemma FlushText(lines: seq<string>, maxTokens: int, n: nat, s: ScanState)
    requires 0 < n <= |lines| && BufferInv(lines, maxTokens, n - 1, s) && TextInv(lines, s)
    requires s.tokens + EstimateTokens(lines[n - 1]) > maxTokens
    ensures TextInv(lines, Step(s, lines[n - 1], n - 1, maxTokens))
  {
    var cs := s.chunks + [Chunk(s.current, s.start, n - 2)];
    assert Step(s, lines[n - 1], n - 1, maxTokens).chunks == cs;
    assert cs[..|s.chunks|] == s.chunks;
    LinesBetweenSplit(lines, 0, s.start, n - 1);
  }

  /** An iteration that only appends line `n - 1` to the buffer keeps the invariant. */
  lemma AppendStep(lines: seq<string>, maxTokens: int, n: nat, s: ScanState)
    requires 0 < n <= |lines| && ScanInv(lines, maxTokens, n - 1, s)
    requires s.tokens + EstimateTokens(lines[n - 1]) <= maxTokens
    ensures ScanInv(lines, maxTokens, n, Step(s, lines[n - 1], n - 1, maxTokens))
  {
  }

  /** One iteration, on line `n - 1`, keeps the invariant. */
  lemma ScanStep(lines: seq<string>, maxTokens: int, n: nat)
    requires 0 < n <= |lines| && ScanInv(lines, maxTokens, n - 1, ScanLines(lines, maxTokens, n - 1))
    ensures ScanInv(lines, maxTokens, n, ScanLines(lines, maxTokens, n))
  {
    var s := ScanLines(lines, maxTokens, n - 1);
    assert ScanLines(lines, maxTokens, n) == Step(s, lines[n - 1], n - 1, maxTokens);
    if s.tokens + EstimateTokens(lines[n - 1]) > maxTokens {
      FlushBuffer(lines, maxTokens, n, s);
      FlushChunks(lines, maxTokens, n, s);
      FlushText(lines, maxTokens, n, s);
    } else {
      AppendStep(lines, maxTokens, n, s);
    }
  }

  /** Before the first line the invariant holds. */
  lemma ScanStart(lines: seq<string>, maxTokens: int)
    ensures ScanInv(lines, maxTokens, 0, ScanLines(lines, maxTokens, 0))
  {
    assert ScanLines(lines, maxTokens, 0) == ScanState([], "", 0, 0);
  }

  /** The invariant holds after every number of lines. */
  lemma {:induction false} ScanInvariant(lines: seq<string>, maxTokens: int, n: nat)
    requires n <= |lines|
    ensures ScanInv(lines, maxTokens, n, ScanLines(lines, maxTokens, n))
  {
    if n == 0 {
      ScanStart(lines, maxTokens);
    } else {
      ScanInvariant(lines, maxTokens, n - 1);
      ScanStep(lines, maxTokens, n);
    }
  }

  /** The number of lines the chunks cover, from line 0. */
  function Covered(cs: seq<Chunk>): int
  {
    if cs == [] then 0 else cs[|cs| - 1].endLine + 1
  }

  /** After the last line: the output is the closed chunks, with or without the buffer. */
  lemma FinalShape(lines: seq<string>, maxTokens: int)
    ensures var s := ScanLines(lines, maxTokens, |lines|);
            && (Trim(s.current) != "" ==>
                  ChunkLines(lines, maxTokens) == s.chunks + [Chunk(s.current, s.start, |lines| - 1)])
            && (Trim(s.current) == "" ==> ChunkLines(lines, maxTokens) == s.chunks)
  {
  }

  /** After the last line: every closed chunk is a flushed one. */
  lemma FinalFlushed(lines: seq<string>, maxTokens: int)
    ensures var s := ScanLines(lines, maxTokens, |lines|);
            forall k :: 0 <= k < |s.chunks| ==> Flushed(lines, maxTokens, s.chunks[k])
  {
    ScanInvariant(lines, maxTokens, |lines|);
  }

  /** After the last line: the buffer holds lines `start..` and their estimate. */
  lemma FinalBuffer(lines: seq<string>, maxTokens: int)
    ensures var s := ScanLines(lines, maxTokens, |lines|);
            && 0 <= s.start <= |lines|
            && (|lines| > 0 ==> s.start < |lines|)
            && s.current == LinesBetween(lines, s.start, |lines|)
            && s.tokens == CostBetween(lines, s.start, |lines|)
            && (s.start + 1 < |lines| ==> s.tokens <= maxTokens)
  {
    ScanInvariant(lines, maxTokens, |lines|);
  }

  /** After the last line: the closed chunks tile lines `0..start`, and spell out their text. */
  lemma FinalTiled(lines: seq<string>, maxTokens: int)
    ensures var s := ScanLines(lines, maxTokens, |lines|);
            && 0 <= s.start <= |lines|
            && Tiled(s.chunks, s.start)
            && (forall k :: 0 < k < |s.chunks| ==> s.chunks[k].startLine <= s.chunks[k].endLine)
            && (|lines| > 0 && EstimateTokens(lines[0]) > maxTokens ==>
                  s.chunks != [] && s.chunks[0] == Chunk("", 0, -1))
            && ConcatChunks(s.chunks) == LinesBetween(lines, 0, s.start)
  {
    ScanInvariant(lines, maxTokens, |lines|);
  }

  // ---------------------------------------------------------------------
  // What the chunks are
  // ---------------------------------------------------------------------

  /** Each chunk's text is the lines of its range, each followed by a newline. */
  lemma ChunkTextIsLines(lines: seq<string>, maxTokens: int)
    ensures var r := ChunkLines(lines, maxTokens);
            forall k :: 0 <= k < |r| ==> InRange(lines, r[k]) && r[k].chunk == RangeText(lines, r[k])
  {
    var s := ScanLines(lines, maxTokens, |lines|);
    var r := ChunkLines(lines, maxTokens);
    FinalShape(lines, maxTokens);
    FinalFlushed(lines, maxTokens);
    FinalBuffer(lines, maxTokens);
    forall k | 0 <= k < |r|
      ensures InRange(lines, r[k]) && r[k].chunk == RangeText(lines, r[k])
    {
      if k < |s.chunks| {
        assert r[k] == s.chunks[k];
        assert Flushed(lines, maxTokens, s.chunks[k]);
      }
    }
  }

  /** The output, closed chunks and final buffer alike, tiles the lines it covers. */
  lemma FinalTiledAll(lines: seq<string>, maxTokens: int)
    ensures Tiled(ChunkLines(lines, maxTokens), Covered(ChunkLines(lines, maxTokens)))
  {
    var s := ScanLines(lines, maxTokens, |lines|);
    FinalShape(lines, maxTokens);
    FinalTiled(lines, maxTokens);
    if ChunkLines(lines, maxTokens) != s.chunks {
      TiledAppend(s.chunks, Chunk(s.current, s.start, |lines| - 1));
    }
  }

  /** The ranges tile the lines: the first starts at line 0, each starts right after the previous. */
  lemma ChunksTile(lines: seq<string>, maxTokens: int)
    ensures var r := ChunkLines(lines, maxTokens);
            && (r != [] ==> r[0].startLine == 0)
            && forall k :: 0 <= k < |r| - 1 ==> r[k].endLine + 1 == r[k + 1].startLine
  {
    var r := ChunkLines(lines, maxTokens);
    FinalTiledAll(lines, maxTokens);
    forall k | 0 <= k < |r| - 1
      ensures r[k].endLine + 1 == r[k + 1].startLine
    {
      var j := k + 1;
      assert r[k].endLine + 1 == r[j].startLine;
    }
  }

  /** When the buffer passes the `trim()` test, the chunks reach the last line and spell out every line. */
  lemma CoverageKept(lines: seq<string>, maxTokens: int)
    requires Trim(ScanLines(lines, maxTokens, |lines|).current) != ""
    ensures var r := ChunkLines(lines, maxTokens);
            Covered(r) == |lines| && ConcatChunks(r) == LinesBetween(lines, 0, |lines|)
  {
    var s := ScanLines(lines, maxTokens, |lines|);
    var r := ChunkLines(lines, maxTokens);
    FinalShape(lines, maxTokens);
    FinalBuffer(lines, maxTokens);
    FinalTiled(lines, maxTokens);
    assert r[..|r| - 1] == s.chunks;
    LinesBetweenSplit(lines, 0, s.start, |lines|);
  }

  /** When the buffer fails the `trim()` test, it is dropped, and it is all whitespace. */
  lemma CoverageDropped(lines: seq<string>, maxTokens: int)
    requires |lines| >= 1
    requires Trim(ScanLines(lines, maxTokens, |lines|).current) == ""
    ensures var r := ChunkLines(lines, maxTokens);
            var e := Covered(r);
            && 0 <= e < |lines|
            && ConcatChunks(r) + LinesBetween(lines, e, |lines|) == LinesBetween(lines, 0, |lines|)
            && IsBlank(LinesBetween(lines, e, |lines|))
            && LinesBetween(lines, e, |lines|) != ""
  {
    var s := ScanLines(lines, maxTokens, |lines|);
    FinalShape(lines, maxTokens);
    FinalBuffer(lines, maxTokens);
    FinalTiled(lines, maxTokens);
    TrimEmptyIffBlank(s.current);
    LinesBetweenSplit(lines, 0, s.start, |lines|);
    LinesBetweenEmpty(lines, s.start, |lines|);
  }

  /**
   * The chunks spell out the lines up to a dropped remainder of whole lines
   * that is all whitespace. Nothing is dropped exactly when the final
   * buffer passed the `trim()` test, and then the last chunk ends at the
   * last line.
   */
  lemma CoverageOfLines(lines: seq<string>, maxTokens: int)
    requires |lines| >= 1
    ensures var r := ChunkLines(lines, maxTokens);
            var e := Covered(r);
            && 0 <= e <= |lines|
            && ConcatChunks(r) + LinesBetween(lines, e, |lines|) == LinesBetween(lines, 0, |lines|)
            && IsBlank(LinesBetween(lines, e, |lines|))
            && (ConcatChunks(r) == LinesBetween(lines, 0, |lines|) <==> e == |lines|)
            && (e == |lines| <==> Trim(ScanLines(lines, maxTokens, |lines|).current) != "")
  {
    var r := ChunkLines(lines, maxTokens);
    if Trim(ScanLines(lines, maxTokens, |lines|).current) != "" {
      CoverageKept(lines, maxTokens);
    } else {
      CoverageDropped(lines, maxTokens);
      var e := Covered(r);
      assert |ConcatChunks(r) + LinesBetween(lines, e, |lines|)|
          == |ConcatChunks(r)| + |LinesBetween(lines, e, |lines|)|;
    }
  }

  /**
   * `code + "\n"` is reproduced by the chunks followed by a dropped
   * remainder of whole lines that is all whitespace; nothing is dropped
   * exactly when the chunks reach the last line.
   */
  lemma Coverage(code: string, maxTokens: int)
    ensures var lines := Split(code);
            var r := SmartChunks(code, maxTokens);
            var e := Covered(r);
            && 0 <= e <= |lines|
            && ConcatChunks(r) + LinesBetween(lines, e, |lines|) == code + "\n"
            && IsBlank(LinesBetween(lines, e, |lines|))
            && (ConcatChunks(r) == code + "\n" <==> e == |lines|)
  {
    CoverageOfLines(Split(code), maxTokens);
    SplitLinesText(code);
  }

  /** A last line with visible content keeps the final buffer. */
  lemma LastLineKeepsBuffer(lines: seq<string>, maxTokens: int)
    requires |lines| >= 1 && !IsBlank(lines[|lines| - 1])
    ensures Trim(ScanLines(lines, maxTokens, |lines|).current) != ""
  {
    var n := |lines|;
    var s := ScanLines(lines, maxTokens, n);
    FinalBuffer(lines, maxTokens);
    var pre := LinesBetween(lines, s.start, n - 1);
    assert s.current == (pre + lines[n - 1]) + "\n";
    BlankConcat(pre, lines[n - 1]);
    BlankConcat(pre + lines[n - 1], "\n");
    TrimEmptyIffBlank(s.current);
  }

  /** When the text's last line has visible content, the chunks reproduce `code + "\n"` exactly. */
  lemma CoverageWhenLastLineHasContent(code: string, maxTokens: int)
    requires !IsBlank(Split(code)[|Split(code)| - 1])
    ensures ConcatChunks(SmartChunks(code, maxTokens)) == code + "\n"
  {
    LastLineKeepsBuffer(Split(code), maxTokens);
    CoverageKept(Split(code), maxTokens);
    SplitLinesText(code);
  }

  /**
   * A chunk of two or more lines stays within `maxTokens`; a chunk over
   * budget holds a single line, or is the first chunk, holds no line and
   * the budget is negative.
   */
  predicate WithinBudget(lines: seq<string>, maxTokens: int, c: Chunk, first: bool)
  {
    && InRange(lines, c)
    && (c.startLine < c.endLine ==> RangeCost(lines, c) <= maxTokens)
    && (RangeCost(lines, c) > maxTokens ==>
          c.startLine == c.endLine || (first && c.startLine == 0 && c.endLine == -1 && maxTokens < 0))
  }

  /** A chunk closed inside the loop keeps the budget. */
  lemma FlushedWithinBudget(lines: seq<string>, maxTokens: int, c: Chunk, first: bool)
    requires Flushed(lines, maxTokens, c)
    requires first ==> c.startLine == 0
    requires !first ==> c.startLine <= c.endLine
    ensures WithinBudget(lines, maxTokens, c, first)
  {
    assert CostBetween(lines, c.startLine, c.startLine) == 0;
  }

  /** The buffer emitted after the last line keeps the budget. */
  lemma BufferWithinBudget(lines: seq<string>, maxTokens: int, first: bool)
    requires Trim(ScanLines(lines, maxTokens, |lines|).current) != ""
    ensures var s := ScanLines(lines, maxTokens, |lines|);
            WithinBudget(lines, maxTokens, Chunk(s.current, s.start, |lines| - 1), first)
  {
    var s := ScanLines(lines, maxTokens, |lines|);
    FinalBuffer(lines, maxTokens);
    TrimEmptyIffBlank(s.current);
    LinesBetweenEmpty(lines, s.start, |lines|);
  }

  /** Budget: every chunk of the output keeps the budget, in the sense of `WithinBudget`. */
  lemma Budget(lines: seq<string>, maxTokens: int)
    ensures var r := ChunkLines(lines, maxTokens);
            forall k :: 0 <= k < |r| ==> WithinBudget(lines, maxTokens, r[k], k == 0)
  {
    var s := ScanLines(lines, maxTokens, |lines|);
    var r := ChunkLines(lines, maxTokens);
    FinalShape(lines, maxTokens);
    FinalFlushed(lines, maxTokens);
    FinalTiled(lines, maxTokens);
    forall k | 0 <= k < |r|
      ensures WithinBudget(lines, maxTokens, r[k], k == 0)
    {
      if k < |s.chunks| {
        assert r[k] == s.chunks[k];
        FlushedWithinBudget(lines, maxTokens, s.chunks[k], k == 0);
      } else {
        BufferWithinBudget(lines, maxTokens, k == 0);
      }
    }
  }

  /**
   * Greedy maximality: a chunk that is not the last one was closed only
   * because the next line's estimate would have pushed it over `maxTokens`.
   */
  lemma Greedy(lines: seq<string>, maxTokens: int)
    ensures var r := ChunkLines(lines, maxTokens);
            forall k :: 0 <= k < |r| - 1 ==>
              && InRange(lines, r[k])
              && r[k].endLine + 1 < |lines|
              && RangeCost(lines, r[k]) + EstimateTokens(lines[r[k].endLine + 1]) > maxTokens
  {
    var s := ScanLines(lines, maxTokens, |lines|);
    var r := ChunkLines(lines, maxTokens);
    FinalShape(lines, maxTokens);
    FinalFlushed(lines, maxTokens);
    forall k | 0 <= k < |r| - 1
      ensures InRange(lines, r[k]) && r[k].endLine + 1 < |lines|
      ensures RangeCost(lines, r[k]) + EstimateTokens(lines[r[k].endLine + 1]) > maxTokens
    {
      assert r[k] == s.chunks[k];
      assert Flushed(lines, maxTokens, s.chunks[k]);
    }
  }

  /** A chunk has empty text exactly when its range holds no line. */
  lemma EmptyTextIffNoLines(lines: seq<string>, maxTokens: int)
    ensures var r := ChunkLines(lines, maxTokens);
            forall k :: 0 <= k < |r| ==> (r[k].chunk == "" <==> r[k].startLine == r[k].endLine + 1)
  {
    var r := ChunkLines(lines, maxTokens);
    ChunkTextIsLines(lines, maxTokens);
    forall k | 0 <= k < |r|
      ensures r[k].chunk == "" <==> r[k].startLine == r[k].endLine + 1
    {
      LinesBetweenEmpty(lines, r[k].startLine, r[k].endLine + 1);
    }
  }

  /**
   * The empty chunk `("", 0, -1)` comes first, and exactly when line 0's
   * estimate alone exceeds `maxTokens`.
   */
  lemma EmptyChunk(lines: seq<string>, maxTokens: int)
    requires |lines| >= 1
    ensures var r := ChunkLines(lines, maxTokens);
            (r != [] && r[0].chunk == "") <==> EstimateTokens(lines[0]) > maxTokens
    ensures var r := ChunkLines(lines, maxTokens);
            r != [] && r[0].chunk == "" ==> r[0] == Chunk("", 0, -1)
  {
    var s := ScanLines(lines, maxTokens, |lines|);
    var r := ChunkLines(lines, maxTokens);
    FinalShape(lines, maxTokens);
    FinalFlushed(lines, maxTokens);
    FinalTiled(lines, maxTokens);
    EmptyTextIffNoLines(lines, maxTokens);
    if r != [] && r[0].chunk == "" {
      assert r[0] == s.chunks[0];
      assert Flushed(lines, maxTokens, s.chunks[0]);
    }
  }

  /** Every chunk after the first holds at least one line, so it has text. */
  lemma LaterChunksHaveText(lines: seq<string>, maxTokens: int)
    ensures var r := ChunkLines(lines, maxTokens);
            forall k :: 0 < k < |r| ==> r[k].startLine <= r[k].endLine && r[k].chunk != ""
  {
    var s := ScanLines(lines, maxTokens, |lines|);
    var r := ChunkLines(lines, maxTokens);
    FinalShape(lines, maxTokens);
    FinalTiled(lines, maxTokens);
    EmptyTextIffNoLines(lines, maxTokens);
    forall k | 0 < k < |r|
      ensures r[k].startLine <= r[k].endLine && r[k].chunk != ""
    {
      if k < |s.chunks| {
        assert r[k] == s.chunks[k];
      }
    }
  }

  // ---------------------------------------------------------------------
  // Worked inputs
  // ---------------------------------------------------------------------

  /** A text with a visible character at index `k` survives `trim()`. */
  lemma VisibleSurvivesTrim(s: string, k: nat)
    requires k < |s| && !IsWhitespace(s[k])
    ensures Trim(s) != ""
  {
    TrimEmptyIffBlank(s);
  }

  /**
   * Two newline-free lines of one token each under a budget of one: the
   * first is closed before the second, which is kept only if it survives `trim()`.
   */
  lemma TwoUnitLines(x: string, y: string)
    requires '\n' !in x && '\n' !in y
    requires EstimateTokens(x) == 1 && EstimateTokens(y) == 1
    ensures SmartChunks(x + "\n" + y, 1)
         == if Trim(y + "\n") != "" then [Chunk(x + "\n", 0, 0), Chunk(y + "\n", 1, 1)]
            else [Chunk(x + "\n", 0, 0)]
  {
    var lines := [x, y];
    SplitAtNewline(x, y);
    SplitNoNewline(y);
    assert Split(x + "\n" + y) == lines;
    assert ScanLines(lines, 1, 1) == ScanState([], x + "\n", 1, 0);
    assert ScanLines(lines, 1, 2) == ScanState([Chunk(x + "\n", 0, 0)], y + "\n", 1, 1);
  }

  /** Empty input: one empty line; an empty chunk is produced only under a negative budget. */
  lemma EmptyInput(maxTokens: int)
    ensures SmartChunks("", maxTokens) == if maxTokens < 0 then [Chunk("", 0, -1)] else []
  {
    var lines := [""];
    assert Split("") == lines;
    assert ScanLines(lines, maxTokens, 0) == ScanState([], "", 0, 0);
    TrimEmptyIffBlank("\n");
    if maxTokens < 0 {
      assert ScanLines(lines, maxTokens, 1) == ScanState([Chunk("", 0, -1)], "\n", 0, 0);
    } else {
      assert ScanLines(lines, maxTokens, 1) == ScanState([], "\n", 0, 0);
    }
  }

  /** Estimates only grow as more lines are counted. */
  lemma {:induction false} CostMonotone(lines: seq<string>, a: int, b: int, c: int)
    requires 0 <= a && b <= c <= |lines|
    ensures CostBetween(lines, a, b) <= CostBetween(lines, a, c)
    decreases c - b
  {
    if b < c {
      CostMonotone(lines, a, b, c - 1);
    }
  }

  /** While the whole text fits the budget, the loop never closes a chunk. */
  lemma {:induction false} ScanWithinBudget(lines: seq<string>, maxTokens: int, k: nat)
    requires k <= |lines| && CostBetween(lines, 0, |lines|) <= maxTokens
    ensures ScanLines(lines, maxTokens, k)
         == ScanState([], LinesBetween(lines, 0, k), CostBetween(lines, 0, k), 0)
  {
    if k > 0 {
      ScanWithinBudget(lines, maxTokens, k - 1);
      CostMonotone(lines, 0, k, |lines|);
    }
  }

  /** A text whose whole estimate fits the budget, and that is not all whitespace, is one chunk of all its lines. */
  lemma FitsInOneChunk(code: string, maxTokens: int)
    requires CostBetween(Split(code), 0, |Split(code)|) <= maxTokens
    requires !IsBlank(code)
    ensures SmartChunks(code, maxTokens) == [Chunk(code + "\n", 0, |Split(code)| - 1)]
  {
    var lines := Split(code);
    ScanWithinBudget(lines, maxTokens, |lines|);
    SplitLinesText(code);
    BlankConcat(code, "\n");
    TrimEmptyIffBlank(code + "\n");
  }

  /** A trailing newline adds an empty last line, so the chunk ends in two newlines and reaches line 2. */
  lemma TrailingNewline()
    ensures SmartChunks("a\nb\n", 800) == [Chunk("a\nb\n" + "\n", 0, 2)]
  {
    var lines := ["a", "b", ""];
    assert "a\nb\n" == "a" + "\n" + ("b" + "\n" + "");
    SplitAtNewline("b", "");
    SplitAtNewline("a", "b" + "\n" + "");
    assert Split("a\nb\n") == lines;
    assert CostBetween(lines, 0, 3) == 2;
    assert !IsWhitespace("a\nb\n"[0]);
    FitsInOneChunk("a\nb\n", 800);
  }

  /** A line that does not fit closes the buffer before it. */
  lemma TwoChunks()
    ensures SmartChunks("ab" + "\n" + "cd", 1) == [Chunk("ab" + "\n", 0, 0), Chunk("cd" + "\n", 1, 1)]
  {
    TwoUnitLines("ab", "cd");
    VisibleSurvivesTrim("cd" + "\n", 0);
  }

  /** Only the final buffer is tested with `trim()`: a blank chunk closed inside the loop is kept. */
  lemma BlankChunkInsideKept()
    ensures SmartChunks("    " + "\n" + "x", 1) == [Chunk("    " + "\n", 0, 0), Chunk("x" + "\n", 1, 1)]
    ensures Trim(SmartChunks("    " + "\n" + "x", 1)[0].chunk) == ""
  {
    TwoUnitLines("    ", "x");
    VisibleSurvivesTrim("x" + "\n", 0);
    TrimEmptyIffBlank("    " + "\n");
  }

  /** A blank final buffer is dropped, so the last chunk ends before the last line. */
  lemma BlankTailDropped()
    ensures SmartChunks("x" + "\n" + "   ", 1) == [Chunk("x" + "\n", 0, 0)]
  {
    TwoUnitLines("x", "   ");
    TrimEmptyIffBlank("   " + "\n");
  }
}
