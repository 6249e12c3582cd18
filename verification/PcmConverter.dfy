/** The streaming PCM rate and channel converter (src/audio/capture_windows.rs:248-329). */
module PcmConverter {
  type Pos = n: nat | 0 < n witness 1

  const U64_MAX: nat := 0xFFFF_FFFF_FFFF_FFFF

  datatype Format = Format(inChannels: Pos, inRate: Pos, outChannels: Pos, outRate: Pos)

  function SaturatingAdd(a: nat, b: nat): nat { if a + b <= U64_MAX then a + b else U64_MAX }
  function SaturatingMul(a: nat, b: nat): nat { if a * b <= U64_MAX then a * b else U64_MAX }

  /** The input frame that output frame `k` repeats or keeps: floor(k * inRate / outRate). */
  function Source(f: Format, k: nat): nat {
    k * f.inRate / f.outRate
  }

  /** How many output frames `n` input frames yield: ceil(n * outRate / inRate). */
  function Count(f: Format, n: nat): nat {
    (n * f.outRate + f.inRate - 1) / f.inRate
  }

  /** One output frame: the first two input channels, the left one standing in for a missing right one. */
  function FrameAt<T>(f: Format, input: seq<T>, toI16: T -> int, frame: int): seq<int> {
    var base := frame * f.inChannels;
    var left := if 0 <= base < |input| then toI16(input[base]) else 0;
    var right := if f.inChannels > 1 && 0 <= base + 1 < |input| then toI16(input[base + 1]) else left;
    if f.outChannels > 1 then [left, right] else [left]
  }

  /** Output frames `lo` up to `hi`, taken from `input` whose first frame is number `start` of the stream. */
  function Emit<T>(f: Format, input: seq<T>, toI16: T -> int, start: nat, lo: nat, hi: nat): seq<int> {
    if hi <= lo then []
    else Emit(f, input, toI16, start, lo, hi - 1) + FrameAt(f, input, toI16, Source(f, hi - 1) - start)
  }

  // ---------------------------------------------------------------- arithmetic of positions

  lemma DivBelow(a: nat, b: Pos, n: nat)
    ensures a / b < n <==> a < n * b
  {
    var q, r := a / b, a % b;
    assert a == q * b + r && r < b;
    if q < n {
      assert (q + 1) * b <= n * b;
    } else {
      assert n * b <= q * b;
    }
  }

  /** Output frame k draws on the first n input frames exactly when k is among the first Count(n). */
  lemma SourceBelow(f: Format, k: nat, n: nat)
    ensures Source(f, k) < n <==> k < Count(f, n)
  {
    DivBelow(k * f.inRate, f.outRate, n);
    var total := n * f.outRate;
    DivBelow(total + f.inRate - 1, f.inRate, k + 1);
    assert (k + 1) * f.inRate == k * f.inRate + f.inRate;
  }

  lemma CountMonotone(f: Format, m: nat, n: nat)
    requires m <= n
    ensures Count(f, m) <= Count(f, n)
  {
    if Count(f, n) < Count(f, m) {
      SourceBelow(f, Count(f, n), m);
      SourceBelow(f, Count(f, n), n);
    }
  }

  lemma CountZero(f: Format)
    ensures Count(f, 0) == 0
  {
    SourceBelow(f, 0, 0);
  }

  /** Count(n) is the ceiling: the least number of output frames that covers n input frames. */
  lemma CountIsCeiling(f: Format, n: nat)
    ensures n * f.outRate <= Count(f, n) * f.inRate < n * f.outRate + f.inRate
  {
    var a := n * f.outRate + f.inRate - 1;
    assert a == (a / f.inRate) * f.inRate + a % f.inRate;
  }

  lemma EqualRates(f: Format, k: nat)
    requires f.inRate == f.outRate
    ensures Source(f, k) == k && Count(f, k) == k
  {
    DivBelow(k * f.inRate, f.inRate, k);
    DivBelow(k * f.inRate, f.inRate, k + 1);
    assert (k + 1) * f.inRate == k * f.inRate + f.inRate;
    SourceBelow(f, k, k);
    if k > 0 {
      DivBelow((k - 1) * f.inRate, f.inRate, k);
      assert k * f.inRate == (k - 1) * f.inRate + f.inRate;
      SourceBelow(f, k - 1, k);
    }
  }

  lemma MulMonotone(a: nat, b: nat, c: Pos)
    requires a <= b
    ensures a <= a * c <= b * c
  {
    assert b * c == a * c + (b - a) * c;
  }

  /** Positions up to the last output frame do not saturate. */
  lemma PositionFits(f: Format, k: nat, end: nat)
    requires k <= Count(f, end) && end * f.outRate + f.inRate <= U64_MAX
    ensures k * f.inRate <= U64_MAX && k <= U64_MAX
  {
    CountIsCeiling(f, end);
    MulMonotone(k, Count(f, end), f.inRate);
  }

  /** While the loop runs the source frame lies in the current input: neither the test nor the clamp bites. */
  lemma InsideInput(f: Format, k: nat, start: nat, frames: nat)
    requires Count(f, start) <= k && Source(f, k) < start + frames
    ensures start <= Source(f, k) && Source(f, k) - start <= frames - 1 && k < Count(f, start + frames)
  {
    SourceBelow(f, k, start);
    SourceBelow(f, k, start + frames);
  }

  // ---------------------------------------------------------------- the converter

  class Converter {
    const f: Format
    var inputPosition: nat
    var nextOutput: nat

    constructor (f: Format)
      ensures this.f == f && inputPosition == 0 && Valid()
    {
      this.f := f;
      inputPosition, nextOutput := 0, 0;
      new;
      CountZero(f);
    }

    ghost predicate Valid()
      reads this
    {
      f.inRate != f.outRate ==> nextOutput == Count(f, inputPosition)
    }

    /** Nothing saturates: the positions reached fit in 64 bits. */
    predicate Fits(end: nat) {
      end * f.outRate + f.inRate <= U64_MAX && end <= U64_MAX
    }

    method SourcePosition(k: nat) returns (r: nat)
      ensures k * f.inRate <= U64_MAX ==> r == Source(f, k)
    {
      r := SaturatingMul(k, f.inRate) / f.outRate;
    }

    method PushFrame<T>(input: seq<T>, toI16: T -> int, frame: nat, out: seq<int>) returns (r: seq<int>)
      ensures r == out + FrameAt(f, input, toI16, frame)
    {
      var base := frame * f.inChannels;
      var left := if base < |input| then toI16(input[base]) else 0;
      var right := left;
      if f.inChannels > 1 && base + 1 < |input| {
        right := toI16(input[base + 1]);
      }
      r := out + [left];
      if f.outChannels > 1 {
        r := r + [right];
      }
    }

    /** One call of convert: exactly the output frames that its input frames complete. */
    method Convert<T>(input: seq<T>, toI16: T -> int) returns (out: seq<int>)
      requires Valid() && Fits(inputPosition + |input| / f.inChannels)
      modifies this
      ensures Valid() && inputPosition == old(inputPosition) + |input| / f.inChannels
      ensures out == Emit(f, input, toI16, old(inputPosition), Count(f, old(inputPosition)), Count(f, inputPosition))
    {
      var frames := |input| / f.inChannels;
      if frames == 0 {
        return [];
      }
      var start := inputPosition;
      if f.inRate == f.outRate {
        inputPosition := SaturatingAdd(inputPosition, frames);
        out := ConvertChannels(input, toI16, frames, start);
        return;
      }
      out := Resample(input, toI16, frames, SaturatingAdd(start, frames));
    }

    /** The loop of convert for different rates. */
    method Resample<T>(input: seq<T>, toI16: T -> int, frames: nat, end: nat) returns (out: seq<int>)
      requires nextOutput == Count(f, inputPosition) && end == inputPosition + frames && Fits(end)
      modifies this
      ensures inputPosition == end && nextOutput == Count(f, end)
      ensures out == Emit(f, input, toI16, old(inputPosition), Count(f, old(inputPosition)), Count(f, end))
    {
      var start := inputPosition;
      ghost var first, last := Count(f, start), Count(f, end);
      out := [];
      CountMonotone(f, start, end);
      PositionFits(f, nextOutput, end);
      var src := SourcePosition(nextOutput);
      while src < end
        invariant inputPosition == start && first <= nextOutput <= last
        invariant src == Source(f, nextOutput)
        invariant out == Emit(f, input, toI16, start, first, nextOutput)
        decreases last - nextOutput
      {
        InsideInput(f, nextOutput, start, frames);
        PositionFits(f, nextOutput + 1, end);
        if src >= start {
          var local := src - start;
          out := PushFrame(input, toI16, if local <= frames - 1 then local else frames - 1, out);
        }
        nextOutput := SaturatingAdd(nextOutput, 1);
        src := SourcePosition(nextOutput);
      }
      SourceBelow(f, nextOutput, end);
      inputPosition := end;
    }

    /** The equal-rate fast path is the same function. */
    method ConvertChannels<T>(input: seq<T>, toI16: T -> int, frames: nat, ghost start: nat) returns (out: seq<int>)
      requires f.inRate == f.outRate
      ensures out == Emit(f, input, toI16, start, Count(f, start), Count(f, start + frames))
    {
      out := [];
      EqualRates(f, start);
      EqualRates(f, start + frames);
      for frame := 0 to frames
        invariant out == Emit(f, input, toI16, start, start, start + frame)
      {
        EqualRates(f, start + frame);
        out := PushFrame(input, toI16, frame, out);
      }
    }
  }

  // ---------------------------------------------------------------- independence of chunking

  predicate WholeFrames<T>(f: Format, chunks: seq<seq<T>>) {
    forall i | 0 <= i < |chunks| :: |chunks[i]| % f.inChannels == 0
  }

  function Concat<T>(chunks: seq<seq<T>>): seq<T> {
    if chunks == [] then [] else Concat(chunks[..|chunks| - 1]) + chunks[|chunks| - 1]
  }

  function FramesIn<T>(f: Format, input: seq<T>): nat {
    |input| / f.inChannels
  }

  lemma FramesAdd<T>(f: Format, a: seq<T>, b: seq<T>)
    requires |a| % f.inChannels == 0 && |b| % f.inChannels == 0
    ensures FramesIn(f, a + b) == FramesIn(f, a) + FramesIn(f, b)
    ensures |a| == FramesIn(f, a) * f.inChannels && |b| == FramesIn(f, b) * f.inChannels
  {
    WholeSum(|a|, |b|, f.inChannels);
  }

  /** What successive calls of Converter.Convert return, concatenated. */
  function RunChunks<T>(f: Format, chunks: seq<seq<T>>, toI16: T -> int): seq<int> {
    if chunks == [] then []
    else
      var n := |chunks| - 1;
      var start := FramesIn(f, Concat(chunks[..n]));
      RunChunks(f, chunks[..n], toI16)
      + Emit(f, chunks[n], toI16, start, Count(f, start), Count(f, start + FramesIn(f, chunks[n])))
  }

  lemma {:induction false} EmitSplit<T>(f: Format, input: seq<T>, toI16: T -> int, start: nat, a: nat, b: nat, c: nat)
    requires a <= b <= c
    ensures Emit(f, input, toI16, start, a, c) ==
            Emit(f, input, toI16, start, a, b) + Emit(f, input, toI16, start, b, c)
    decreases c
  {
    if b < c {
      EmitSplit(f, input, toI16, start, a, b, c - 1);
    }
  }

  /** A frame of a whole-frame stream read through the chunk that holds it. */
  lemma FrameInChunk<T>(f: Format, before: seq<T>, chunk: seq<T>, after: seq<T>, toI16: T -> int, start: nat, k: nat)
    requires |before| == start * f.inChannels && start * f.inChannels <= k * f.inChannels
    requires k * f.inChannels + f.inChannels <= |before| + |chunk|
    ensures FrameAt(f, before + chunk + after, toI16, k) == FrameAt(f, chunk, toI16, k - start)
  {
    assert (k - start) * f.inChannels == k * f.inChannels - start * f.inChannels;
    var i := (k - start) * f.inChannels;
    assert (before + chunk + after)[|before| + i] == chunk[i];
    if f.inChannels > 1 {
      assert (before + chunk + after)[|before| + i + 1] == chunk[i + 1];
    }
  }

  lemma FrameBounds(f: Format, start: nat, frames: nat, k: nat)
    requires start <= k < start + frames
    ensures start * f.inChannels <= k * f.inChannels
    ensures k * f.inChannels + f.inChannels <= start * f.inChannels + frames * f.inChannels
  {
    MulMonotone(start, k, f.inChannels);
    MulMonotone(k + 1, start + frames, f.inChannels);
    assert (k + 1) * f.inChannels == k * f.inChannels + f.inChannels;
    assert (start + frames) * f.inChannels == start * f.inChannels + frames * f.inChannels;
  }

  /** The output frames completed by a chunk are the same whether read from the chunk or from the stream. */
  lemma {:induction false} EmitInChunk<T>(f: Format, before: seq<T>, chunk: seq<T>, after: seq<T>, toI16: T -> int,
                                          start: nat, frames: nat, lo: nat, hi: nat)
    requires |before| == start * f.inChannels && |chunk| == frames * f.inChannels
    requires Count(f, start) <= lo && hi <= Count(f, start + frames)
    ensures Emit(f, before + chunk + after, toI16, 0, lo, hi) == Emit(f, chunk, toI16, start, lo, hi)
    decreases hi
  {
    if lo < hi {
      EmitInChunk(f, before, chunk, after, toI16, start, frames, lo, hi - 1);
      SourceBelow(f, hi - 1, start);
      SourceBelow(f, hi - 1, start + frames);
      var k := Source(f, hi - 1);
      FrameBounds(f, start, frames, k);
      FrameInChunk(f, before, chunk, after, toI16, start, k);
    }
  }

  lemma {:induction false} ConcatWhole<T>(f: Format, chunks: seq<seq<T>>)
    requires WholeFrames(f, chunks)
    ensures |Concat(chunks)| % f.inChannels == 0
  {
    if chunks != [] {
      var n := |chunks| - 1;
      ConcatWhole(f, chunks[..n]);
      WholeSum(|Concat(chunks[..n])|, |chunks[n]|, f.inChannels);
    }
  }

  lemma WholeSum(a: nat, b: nat, c: Pos)
    requires a % c == 0 && b % c == 0
    ensures (a + b) % c == 0 && (a + b) / c == a / c + b / c
    ensures a == a / c * c && b == b / c * c
  {
    var x, y := a / c, b / c;
    assert a == x * c && b == y * c;
    assert a + b == (x + y) * c;
    DivBelow(a + b, c, x + y);
    DivBelow(a + b, c, x + y + 1);
    assert (x + y + 1) * c == (x + y) * c + c;
    assert (a + b) / c == x + y;
  }

  lemma AppendChunk<T>(f: Format, before: seq<T>, chunk: seq<T>, toI16: T -> int, start: nat, frames: nat)
    requires |before| == start * f.inChannels && |chunk| == frames * f.inChannels
    ensures Emit(f, before + chunk, toI16, 0, 0, Count(f, start + frames))
         == Emit(f, before, toI16, 0, 0, Count(f, start))
            + Emit(f, chunk, toI16, start, Count(f, start), Count(f, start + frames))
  {
    var first, last := Count(f, start), Count(f, start + frames);
    CountZero(f);
    CountMonotone(f, start, start + frames);
    EmitSplit(f, before + chunk, toI16, 0, 0, first, last);
    EmitInChunk(f, before, chunk, [], toI16, start, frames, first, last);
    EmitInChunk(f, [], before, chunk, toI16, 0, start, 0, first);
    assert before + chunk + [] == before + chunk && [] + before + chunk == before + chunk;
  }

  /** However a whole-frame stream is cut into calls, the outputs together are the stream's output: frame k is
      input frame floor(k * inRate / outRate), and there are exactly ceil(N * outRate / inRate) of them. */
  lemma {:induction false} ChunkingDoesNotMatter<T>(f: Format, chunks: seq<seq<T>>, toI16: T -> int)
    requires WholeFrames(f, chunks)
    ensures var all := Concat(chunks);
            RunChunks(f, chunks, toI16) == Emit(f, all, toI16, 0, 0, Count(f, FramesIn(f, all)))
  {
    if chunks == [] {
      CountZero(f);
    } else {
      var n := |chunks| - 1;
      var before, chunk := Concat(chunks[..n]), chunks[n];
      var start, frames := FramesIn(f, before), FramesIn(f, chunk);
      ChunkingDoesNotMatter(f, chunks[..n], toI16);
      ConcatWhole(f, chunks[..n]);
      FramesAdd(f, before, chunk);
      AppendChunk(f, before, chunk, toI16, start, frames);
    }
  }

  function Width(f: Format): Pos { if f.outChannels > 1 then 2 else 1 }

  lemma {:induction false} EmitLength<T>(f: Format, input: seq<T>, toI16: T -> int, start: nat, lo: nat, hi: nat)
    requires lo <= hi
    ensures |Emit(f, input, toI16, start, lo, hi)| == (hi - lo) * Width(f)
    decreases hi
  {
    if lo < hi {
      EmitLength(f, input, toI16, start, lo, hi - 1);
    }
  }

  /** Read sample by sample: output frame k of the stream is input frame Source(k). */
  lemma OutputFrame<T>(f: Format, input: seq<T>, toI16: T -> int, n: nat, k: nat)
    requires k < n
    ensures var out, at := Emit(f, input, toI16, 0, 0, n), k * Width(f);
            |out| == n * Width(f) && at + Width(f) <= |out|
            && out[at..at + Width(f)] == FrameAt(f, input, toI16, Source(f, k))
  {
    EmitSplit(f, input, toI16, 0, 0, k, n);
    EmitSplit(f, input, toI16, 0, k, k + 1, n);
    EmitLength(f, input, toI16, 0, 0, n);
    EmitLength(f, input, toI16, 0, 0, k);
    var frame := FrameAt(f, input, toI16, Source(f, k));
    assert Emit(f, input, toI16, 0, k, k + 1) == frame;
    Middle(Emit(f, input, toI16, 0, 0, k), frame, Emit(f, input, toI16, 0, k + 1, n));
  }

  /** In samples: for a whole-frame stream, output frame k begins with the first sample of input frame
      floor(k * inRate / outRate), followed, if there are two output channels, by that frame's second sample, or again
      by its first when the input has one channel. */
  lemma OutputSamples<T>(f: Format, input: seq<T>, toI16: T -> int, k: nat)
    requires |input| % f.inChannels == 0 && k < Count(f, FramesIn(f, input))
    ensures var out := Emit(f, input, toI16, 0, 0, Count(f, FramesIn(f, input)));
            var at := (k * f.inRate / f.outRate) * f.inChannels;
            && 0 <= at && at + f.inChannels <= |input|
            && (if f.outChannels == 1 then k < |out| && out[k] == toI16(input[at])
                else 2 * k + 1 < |out| && out[2 * k] == toI16(input[at])
                     && out[2 * k + 1] == toI16(input[if f.inChannels == 1 then at else at + 1]))
  {
    var frames := FramesIn(f, input);
    var src := Source(f, k);
    SourceBelow(f, k, frames);
    FrameFits(f, src, frames, |input|);
    OutputFrame(f, input, toI16, Count(f, frames), k);
    FrameSamples(f, input, toI16, src, src * f.inChannels);
    PairAt(Emit(f, input, toI16, 0, 0, Count(f, frames)), k, Width(f), FrameAt(f, input, toI16, src));
  }

  lemma FrameSamples<T>(f: Format, input: seq<T>, toI16: T -> int, frame: nat, at: nat)
    requires at == frame * f.inChannels && at + f.inChannels <= |input|
    ensures FrameAt(f, input, toI16, frame) ==
            if f.outChannels == 1 then [toI16(input[at])]
            else [toI16(input[at]), toI16(input[if f.inChannels == 1 then at else at + 1])]
  {
  }

  lemma PairAt(s: seq<int>, k: nat, w: nat, part: seq<int>)
    requires (w == 1 || w == 2) && k * w + w <= |s| && s[k * w..k * w + w] == part
    ensures if w == 1 then k < |s| && s[k] == part[0]
            else 2 * k + 1 < |s| && s[2 * k] == part[0] && s[2 * k + 1] == part[1]
  {
    var at := k * w;
    assert at == if w == 1 then k else 2 * k;
    assert s[at..at + w][0] == s[at];
    if w == 2 {
      assert s[at..at + w][1] == s[at + 1];
    }
  }

  lemma FrameFits(f: Format, src: nat, frames: nat, length: nat)
    requires src < frames && length % f.inChannels == 0 && frames == length / f.inChannels
    ensures src * f.inChannels + f.inChannels <= length
  {
    assert length == frames * f.inChannels;
    MulMonotone(src + 1, frames, f.inChannels);
    assert (src + 1) * f.inChannels == src * f.inChannels + f.inChannels;
  }

  lemma Middle<T>(a: seq<T>, b: seq<T>, c: seq<T>)
    ensures (a + (b + c))[|a|..|a| + |b|] == b
  {
  }

  lemma NextOutput<T>(f: Format, chunks: seq<seq<T>>, toI16: T -> int, i: nat)
    requires i < |chunks|
    ensures var start := FramesIn(f, Concat(chunks[..i]));
            RunChunks(f, chunks[..i + 1], toI16) == RunChunks(f, chunks[..i], toI16)
              + Emit(f, chunks[i], toI16, start, Count(f, start), Count(f, start + FramesIn(f, chunks[i])))
  {
    var whole := chunks[..i + 1];
    assert whole[..i] == chunks[..i] && whole[i] == chunks[i];
  }

  /** Where the chunk after the first `i` ends. */
  lemma NextEnd<T>(f: Format, chunks: seq<seq<T>>, i: nat)
    requires i < |chunks| && WholeFrames(f, chunks)
    ensures var end := FramesIn(f, Concat(chunks[..i + 1]));
            end == FramesIn(f, Concat(chunks[..i])) + FramesIn(f, chunks[i]) && end <= end * f.outRate
  {
    var whole := chunks[..i + 1];
    assert whole[..i] == chunks[..i];
    assert Concat(whole) == Concat(chunks[..i]) + chunks[i];
    ConcatWhole(f, chunks[..i]);
    FramesAdd(f, Concat(chunks[..i]), chunks[i]);
    var end := FramesIn(f, Concat(whole));
    MulMonotone(end, end, f.outRate);
  }

  /** After the first `i` chunks: the position and all the output so far. */
  ghost predicate Converted<T>(f: Format, chunks: seq<seq<T>>, toI16: T -> int, i: nat, position: nat, out: seq<int>) {
    && i <= |chunks|
    && position == FramesIn(f, Concat(chunks[..i])) && out == RunChunks(f, chunks[..i], toI16)
  }

  lemma ConvertedNext<T>(f: Format, chunks: seq<seq<T>>, toI16: T -> int, i: nat, position: nat, out: seq<int>)
    requires i < |chunks| && WholeFrames(f, chunks) && Converted(f, chunks, toI16, i, position, out)
    ensures var end := position + FramesIn(f, chunks[i]);
            && end == FramesIn(f, Concat(chunks[..i + 1])) && end <= end * f.outRate
            && Converted(f, chunks, toI16, i + 1, end,
                         out + Emit(f, chunks[i], toI16, position, Count(f, position), Count(f, end)))
  {
    NextOutput(f, chunks, toI16, i);
    NextEnd(f, chunks, i);
  }

  lemma ConvertedAll<T>(f: Format, chunks: seq<seq<T>>, toI16: T -> int, position: nat, out: seq<int>)
    requires WholeFrames(f, chunks) && Converted(f, chunks, toI16, |chunks|, position, out)
    ensures out == Emit(f, Concat(chunks), toI16, 0, 0, Count(f, FramesIn(f, Concat(chunks))))
  {
    assert chunks[..|chunks|] == chunks;
    ChunkingDoesNotMatter(f, chunks, toI16);
  }

  /** A fresh converter fed chunk by chunk returns the output of the whole stream. */
  method ConvertStream<T>(f: Format, chunks: seq<seq<T>>, toI16: T -> int) returns (out: seq<int>)
    requires WholeFrames(f, chunks)
    requires forall i | 0 <= i <= |chunks| :: FramesIn(f, Concat(chunks[..i])) * f.outRate + f.inRate <= U64_MAX
    ensures out == Emit(f, Concat(chunks), toI16, 0, 0, Count(f, FramesIn(f, Concat(chunks))))
  {
    var converter := new Converter(f);
    out := [];
    for i := 0 to |chunks|
      invariant converter.Valid() && converter.f == f && fresh(converter)
      invariant Converted(f, chunks, toI16, i, converter.inputPosition, out)
    {
      ConvertedNext(f, chunks, toI16, i, converter.inputPosition, out);
      var part := converter.Convert(chunks[i], toI16);
      out := out + part;
    }
    ConvertedAll(f, chunks, toI16, converter.inputPosition, out);
  }
}
