/**
  The telemetry ingest loop: frames are parsed, passed through a typed channel, checked for rising
  sequence numbers and handed to a checksum component in batches. Counters are 64-bit words.
*/
module Telemetry {
  import opened Prelude
  import opened TelemetryFrames

  const BATCH_FRAMES: nat := 128

  // The outside world: whether the n-th use of the channel works, and what the n-th checksum call returns
  // for the given bytes. A channel that works gives back the frame just sent.
  datatype Environment = Environment(
    opens: bool,
    sends: nat -> bool,
    receives: nat -> bool,
    checksum: (nat, seq<byte>) -> Option<nat>)

  // overflow: whether an addition to the signed value total has left the range of 64 bits.
  datatype Totals = Totals(
    frames: nat, batches: nat, checksumTotal: nat, valueTotal: int, overflow: bool,
    firstTimestamp: nat, lastTimestamp: nat, gaps: nat)

  predicate InInt64(v: int) { -0x8000_0000_0000_0000 <= v < 0x8000_0000_0000_0000 }

  function Add64(a: nat, b: nat): (r: nat)
    ensures r < WORD64
  {
    (a + b) % WORD64
  }

  function Sub64(a: nat, b: nat): (r: nat)
    requires a < WORD64 && b < WORD64
    ensures r < WORD64
  {
    (a + WORD64 - b) % WORD64
  }

  // Nothing outside fails.
  ghost predicate Cooperates(env: Environment) {
    && env.opens && (forall k: nat :: env.sends(k) && env.receives(k))
    && forall k: nat, bytes: seq<byte> :: env.checksum(k, bytes).Some?
  }

  // ----- What the bytes say -----

  function Chunk(data: seq<byte>, k: nat): seq<byte>
    requires FRAME_SIZE * k + FRAME_SIZE <= |data|
  {
    data[FRAME_SIZE * k..FRAME_SIZE * k + FRAME_SIZE]
  }

  predicate Parses(data: seq<byte>, k: nat)
    requires FRAME_SIZE * k + FRAME_SIZE <= |data|
  {
    Parsed(Chunk(data, k)).Some?
  }

  function FrameAt(data: seq<byte>, k: nat): Frame
    requires FRAME_SIZE * k + FRAME_SIZE <= |data| && Parses(data, k)
  {
    Parsed(Chunk(data, k)).value
  }

  // The first n frames are well-formed and their sequence numbers rise.
  ghost predicate Rising(data: seq<byte>, n: nat)
    requires FRAME_SIZE * n <= |data|
  {
    && (forall k: nat :: k < n ==> Parses(data, k))
    && forall k: nat :: 0 < k < n ==> FrameAt(data, k - 1).sequence < FrameAt(data, k).sequence
  }

  lemma FrameIsWellTyped(data: seq<byte>, k: nat)
    requires FRAME_SIZE * k + FRAME_SIZE <= |data| && Parses(data, k)
    ensures WellTyped(FrameAt(data, k))
  {
    hide Parsed;
    ParsedIsWellTyped(Chunk(data, k));
  }

  function ValueSum(data: seq<byte>, n: nat): int
    requires FRAME_SIZE * n <= |data| && forall k: nat :: k < n ==> Parses(data, k)
  {
    if n == 0 then 0 else ValueSum(data, n - 1) + FrameAt(data, n - 1).value
  }

  // Some partial sum of the first n values does not fit in 64 bits.
  predicate Overflows(data: seq<byte>, n: nat)
    requires FRAME_SIZE * n <= |data| && forall k: nat :: k < n ==> Parses(data, k)
  {
    n > 0 && (Overflows(data, n - 1) || !InInt64(ValueSum(data, n)))
  }

  // How many sequence numbers the first n frames skip.
  function Skipped(data: seq<byte>, n: nat): int
    requires FRAME_SIZE * n <= |data| && forall k: nat :: k < n ==> Parses(data, k)
  {
    if n == 0 then 0 else FrameAt(data, n - 1).sequence - FrameAt(data, 0).sequence + 1 - n
  }

  // Rising numbers leave no negative gap, so the gap count fits in a word.
  lemma {:induction false} SkippedIsAWord(data: seq<byte>, n: nat)
    requires FRAME_SIZE * n <= |data| && Rising(data, n)
    ensures 0 <= Skipped(data, n) < WORD64
  {
    hide Parses, Parsed, FrameAt;
    if n > 0 {
      SkippedIsAWord(data, n - 1);
      FrameIsWellTyped(data, n - 1);
      FrameIsWellTyped(data, 0);
    }
  }

  // ----- Batches -----

  function Concat(batches: seq<seq<byte>>): seq<byte> {
    if batches == [] then [] else Concat(batches[..|batches| - 1]) + batches[|batches| - 1]
  }

  function ChecksumSum(env: Environment, batches: seq<seq<byte>>): nat {
    if batches == [] then 0
    else
      var last := |batches| - 1;
      var value := env.checksum(last, batches[last]);
      Add64(ChecksumSum(env, batches[..last]), if value.Some? then value.value else 0)
  }

  lemma BatchAppend(env: Environment, batches: seq<seq<byte>>, batch: seq<byte>)
    ensures Concat(batches + [batch]) == Concat(batches) + batch
    ensures env.checksum(|batches|, batch).Some? ==>
      ChecksumSum(env, batches + [batch]) == Add64(ChecksumSum(env, batches), env.checksum(|batches|, batch).value)
  {
    assert (batches + [batch])[..|batches|] == batches;
  }

  function CeilingOfBatches(n: nat): nat { (n + BATCH_FRAMES - 1) / BATCH_FRAMES }

  // ----- The loop -----

  // Totals after the first n frames, with these batches checked so far.
  ghost predicate Accounts(env: Environment, data: seq<byte>, n: nat, batches: seq<seq<byte>>, t: Totals)
    requires FRAME_SIZE * n <= |data|
  {
    && Rising(data, n)
    && t.frames == n && t.batches == |batches|
    && t.gaps == Skipped(data, n)
    && t.valueTotal == ValueSum(data, n) && t.overflow == Overflows(data, n)
    && t.checksumTotal == ChecksumSum(env, batches)
    && (n > 0 ==>
      t.firstTimestamp == FrameAt(data, 0).timestamp && t.lastTimestamp == FrameAt(data, n - 1).timestamp)
  }

  // The batches are full and, with the frames still waiting, they are the first n frames.
  ghost predicate Batched(data: seq<byte>, n: nat, batches: seq<seq<byte>>, batch: seq<byte>)
    requires FRAME_SIZE * n <= |data|
  {
    && Concat(batches) + batch == data[..FRAME_SIZE * n]
    && |batches| == n / BATCH_FRAMES && |batch| == FRAME_SIZE * (n % BATCH_FRAMES)
    && forall i :: 0 <= i < |batches| ==> |batches[i]| == FRAME_SIZE * BATCH_FRAMES
  }

  datatype Rejection = Truncated | ChannelFailed | BadFrame | Regression | ChecksumFailed

  // One more frame in the batch, or one more batch.
  lemma BatchFrame(data: seq<byte>, n: nat, batches: seq<seq<byte>>, batch: seq<byte>)
    requires FRAME_SIZE * n + FRAME_SIZE <= |data| && Batched(data, n, batches, batch)
    ensures var more := batch + Chunk(data, n);
      if (n + 1) % BATCH_FRAMES == 0 then Batched(data, n + 1, batches + [more], [])
      else Batched(data, n + 1, batches, more)
  {
    var more := batch + Chunk(data, n);
    assert data[..FRAME_SIZE * (n + 1)] == data[..FRAME_SIZE * n] + Chunk(data, n);
    assert Concat(batches) + more == data[..FRAME_SIZE * (n + 1)];
    assert (batches + [more])[..|batches|] == batches;
    assert Concat(batches + [more]) + [] == Concat(batches) + more;
    NextFrame(n);
  }

  lemma NextFrame(n: nat)
    ensures (n + 1) % BATCH_FRAMES == 0 <==> n % BATCH_FRAMES + 1 == BATCH_FRAMES
    ensures (n + 1) % BATCH_FRAMES != 0 ==>
      (n + 1) / BATCH_FRAMES == n / BATCH_FRAMES && (n + 1) % BATCH_FRAMES == n % BATCH_FRAMES + 1
    ensures (n + 1) % BATCH_FRAMES == 0 ==> (n + 1) / BATCH_FRAMES == n / BATCH_FRAMES + 1
  {
  }

  // The counters after one frame more.
  function Counted(t: Totals, f: Frame, prior: nat, havePrior: bool): Totals
    requires f.sequence < WORD64 && prior < WORD64
  {
    Totals(Inc64(t.frames), t.batches, t.checksumTotal,
           t.valueTotal + f.value, t.overflow || !InInt64(t.valueTotal + f.value),
           if t.frames == 0 then f.timestamp else t.firstTimestamp, f.timestamp,
           if havePrior && f.sequence != Add64(prior, 1)
           then Add64(t.gaps, Sub64(Sub64(f.sequence, prior), 1)) else t.gaps)
  }

  // No subtraction or addition of the gap count wraps around.
  lemma GapIsExact(gaps: nat, prior: nat, sequence: nat)
    requires prior < sequence < WORD64 && gaps + (sequence - prior - 1) < WORD64
    ensures sequence == Add64(prior, 1) <==> sequence == prior + 1
    ensures Add64(gaps, Sub64(Sub64(sequence, prior), 1)) == gaps + (sequence - prior - 1)
  {
  }

  lemma CountFrame(env: Environment, data: seq<byte>, n: nat, batches: seq<seq<byte>>, t: Totals, prior: nat)
    requires FRAME_SIZE * n + FRAME_SIZE <= |data| < WORD64 && Parses(data, n)
    requires Accounts(env, data, n, batches, t)
    requires n > 0 ==> prior == FrameAt(data, n - 1).sequence < FrameAt(data, n).sequence
    requires prior < WORD64
    ensures FrameAt(data, n).sequence < WORD64
    ensures Accounts(env, data, n + 1, batches, Counted(t, FrameAt(data, n), prior, n > 0))
  {
    hide Parses, Parsed, FrameAt, Add64, Sub64;
    FrameIsWellTyped(data, n);
    assert Rising(data, n + 1);
    SkippedIsAWord(data, n + 1);
    if n > 0 {
      GapIsExact(t.gaps, prior, FrameAt(data, n).sequence);
    }
  }

  lemma CountBatch(env: Environment, data: seq<byte>, n: nat, batches: seq<seq<byte>>, t: Totals, batch: seq<byte>)
    requires FRAME_SIZE * n <= |data| < WORD64 && Accounts(env, data, n, batches, t)
    requires |batches| <= n && env.checksum(|batches|, batch).Some?
    ensures Accounts(env, data, n, batches + [batch],
      t.(checksumTotal := Add64(t.checksumTotal, env.checksum(|batches|, batch).value),
         batches := Inc64(t.batches)))
  {
    hide Rising, Skipped, ValueSum, FrameAt, Add64;
    BatchAppend(env, batches, batch);
  }

  lemma AccountsSay(env: Environment, data: seq<byte>, n: nat, batches: seq<seq<byte>>, t: Totals)
    requires FRAME_SIZE * n <= |data| && Accounts(env, data, n, batches, t)
    ensures t.frames == n && t.batches == |batches| && Rising(data, n)
    ensures n <= WORD32 ==> !t.overflow
  {
    if n <= WORD32 {
      ValueTotalFits(data, n);
    }
  }

  lemma BatchesSay(data: seq<byte>, n: nat, batches: seq<seq<byte>>, batch: seq<byte>)
    requires FRAME_SIZE * n == |data| && Batched(data, n, batches, batch)
    ensures |batches| <= n && (batch == [] <==> n % BATCH_FRAMES == 0)
    ensures batch == [] ==> Covered(data, batches)
    ensures batch != [] ==> Covered(data, batches + [batch])
  {
    assert data[..FRAME_SIZE * n] == data;
    if batch == [] {
      assert Concat(batches) + [] == Concat(batches);
    } else {
      assert (batches + [batch])[..|batches|] == batches;
    }
  }

  // The batches make up the input, all full but perhaps the last, as few as possible.
  ghost predicate Covered(data: seq<byte>, batches: seq<seq<byte>>) {
    && Concat(batches) == data
    && |batches| == CeilingOfBatches(|data| / FRAME_SIZE)
    && (forall i :: 0 <= i < |batches| - 1 ==> |batches[i]| == FRAME_SIZE * BATCH_FRAMES)
    && (forall i :: 0 <= i < |batches| ==> 0 < |batches[i]| <= FRAME_SIZE * BATCH_FRAMES)
  }

  // An accepted input consists of whole frames with rising sequence numbers, and the totals and batches
  // are its own. A rejection names its cause.
  method ProcessFrames(env: Environment, data: seq<byte>)
    returns (r: Option<Rejection>, t: Totals, batches: seq<seq<byte>>)
    requires |data| < WORD64
    ensures r.None? ==> |data| % FRAME_SIZE == 0 && Accounts(env, data, |data| / FRAME_SIZE, batches, t)
    ensures r.None? ==> Covered(data, batches)
    ensures Cooperates(env) ==> (r.None? <==> |data| % FRAME_SIZE == 0 && Rising(data, |data| / FRAME_SIZE))
    ensures |data| <= FRAME_SIZE * WORD32 ==> !t.overflow
    ensures r == Some(Truncated) <==> |data| % FRAME_SIZE != 0
    ensures r == Some(BadFrame) || r == Some(Regression) ==>
      |data| % FRAME_SIZE == 0 && !Rising(data, |data| / FRAME_SIZE)
    ensures r == Some(BadFrame) ==> exists n :: FailsAt(data, n) && !Parses(data, n)
    ensures r == Some(Regression) ==> exists n :: FailsAt(data, n) && Parses(data, n)
    ensures r == Some(ChannelFailed) || r == Some(ChecksumFailed) ==> !Cooperates(env)
  {
    hide Parsed, Rising, Accounts, Batched, Covered, FailsAt;
    t, batches := Totals(0, 0, 0, 0, false, 0, 0, 0), [];
    if |data| % FRAME_SIZE != 0 {
      return Some(Truncated), t, batches;
    }
    if !env.opens {
      return Some(ChannelFailed), t, batches;
    }
    var batch: seq<byte> := [];
    var priorSequence: nat, havePrior := 0, false;
    ghost var n := 0;
    var offset := 0;
    NothingYet(env, data);
    while offset < |data|
      invariant offset == FRAME_SIZE * n <= |data|
      invariant Accounts(env, data, n, batches, t)
      invariant Batched(data, n, batches, batch)
      invariant (havePrior <==> n > 0) && priorSequence < WORD64
      invariant n > 0 ==> Parses(data, n - 1) && priorSequence == FrameAt(data, n - 1).sequence
    {
      AccountsSay(env, data, n, batches, t);
      assert data[offset..offset + FRAME_SIZE] == Chunk(data, n);
      var parsed := ParseFrame(data[offset..offset + FRAME_SIZE]);
      if parsed.None? {
        NotRising(data, n);
        return Some(BadFrame), t, batches;
      }
      if !env.sends(t.frames) || !env.receives(t.frames) {
        return Some(ChannelFailed), t, batches;
      }
      var frame := parsed.value;
      assert Parses(data, n) && FrameAt(data, n) == frame;
      if havePrior && frame.sequence <= priorSequence {
        NotRising(data, n);
        return Some(Regression), t, batches;
      }
      CountFrame(env, data, n, batches, t, priorSequence);
      ghost var counted := Counted(t, frame, priorSequence, havePrior);
      if havePrior && frame.sequence != Add64(priorSequence, 1) {
        t := t.(gaps := Add64(t.gaps, Sub64(Sub64(frame.sequence, priorSequence), 1)));
      }
      priorSequence, havePrior := frame.sequence, true;
      if t.frames == 0 {
        t := t.(firstTimestamp := frame.timestamp);
      }
      t := t.(lastTimestamp := frame.timestamp);
      t := t.(valueTotal := t.valueTotal + frame.value);
      t := t.(overflow := t.overflow || !InInt64(t.valueTotal));
      t := t.(frames := Inc64(t.frames));
      assert t == counted;
      BatchFrame(data, n, batches, batch);
      batch := batch + data[offset..offset + FRAME_SIZE];
      n := n + 1;
      AccountsSay(env, data, n, batches, t);
      if t.frames % BATCH_FRAMES == 0 {
        var value := env.checksum(t.batches, batch);
        if value.None? {
          return Some(ChecksumFailed), t, batches;
        }
        FullBatches(data, n, batches, batch);
        CountBatch(env, data, n, batches, t, batch);
        t := t.(checksumTotal := Add64(t.checksumTotal, value.value));
        t := t.(batches := Inc64(t.batches));
        batches, batch := batches + [batch], [];
      }
      offset := offset + FRAME_SIZE;
    }
    AccountsSay(env, data, n, batches, t);
    BatchesSay(data, n, batches, batch);
    if batch != [] {
      AccountsSay(env, data, n, batches, t);
      var value := env.checksum(t.batches, batch);
      if value.None? {
        return Some(ChecksumFailed), t, batches;
      }
      CountBatch(env, data, n, batches, t, batch);
      t := t.(checksumTotal := Add64(t.checksumTotal, value.value));
      t := t.(batches := Inc64(t.batches));
      batches := batches + [batch];
    }
    return None, t, batches;
  }

  lemma NothingYet(env: Environment, data: seq<byte>)
    ensures Accounts(env, data, 0, [], Totals(0, 0, 0, 0, false, 0, 0, 0)) && Batched(data, 0, [], [])
  {
  }

  lemma FullBatches(data: seq<byte>, n: nat, batches: seq<seq<byte>>, batch: seq<byte>)
    requires FRAME_SIZE * n <= |data| && Batched(data, n, batches + [batch], [])
    ensures |batches| <= n
  {
    assert |batches + [batch]| == n / BATCH_FRAMES;
  }

  // Frame n is the first that does not parse or does not rise.
  ghost predicate FailsAt(data: seq<byte>, n: nat) {
    FRAME_SIZE * n + FRAME_SIZE <= |data| && Rising(data, n) && !Rising(data, n + 1)
  }

  lemma NotRising(data: seq<byte>, n: nat)
    requires FRAME_SIZE * n + FRAME_SIZE <= |data| && Rising(data, n)
    requires Parses(data, n) ==> n > 0 && FrameAt(data, n).sequence <= FrameAt(data, n - 1).sequence
    ensures FailsAt(data, n) && !Rising(data, |data| / FRAME_SIZE)
  {
    hide Parsed;
  }

  // ----- What the totals mean -----

  // The integers after low up to high.
  ghost function Range(low: int, high: int): (r: set<int>)
    ensures forall x :: x in r <==> low < x <= high
    ensures low <= high ==> |r| == high - low
    decreases high - low
  {
    if low < high then Range(low, high - 1) + {high} else {}
  }

  ghost predicate NoFrameHas(data: seq<byte>, n: nat, x: int)
    requires FRAME_SIZE * n <= |data| && Rising(data, n)
  {
    forall k: nat :: k < n ==> FrameAt(data, k).sequence != x
  }

  // The sequence numbers between the first and the last of n frames that no frame has.
  ghost function Missing(data: seq<byte>, n: nat): set<int>
    requires 0 < n && FRAME_SIZE * n <= |data| && Rising(data, n)
  {
    set x | x in Range(FrameAt(data, 0).sequence, FrameAt(data, n - 1).sequence) && NoFrameHas(data, n, x)
  }

  lemma {:induction false} SequencesRise(data: seq<byte>, n: nat, j: nat, k: nat)
    requires FRAME_SIZE * n <= |data| && Rising(data, n) && j <= k < n
    ensures FrameAt(data, j).sequence <= FrameAt(data, k).sequence
    ensures j < k ==> FrameAt(data, j).sequence < FrameAt(data, k).sequence
    decreases k
  {
    hide Parses, Parsed, FrameAt;
    if j < k {
      SequencesRise(data, n, j, k - 1);
    }
  }

  // One frame more misses what was missing and the numbers it jumps over.
  lemma MissingNext(data: seq<byte>, n: nat, x: int)
    requires 1 < n && FRAME_SIZE * n <= |data| && Rising(data, n)
    ensures var prior, last := FrameAt(data, n - 2).sequence, FrameAt(data, n - 1).sequence;
      && (x in Missing(data, n) <==> x in Missing(data, n - 1) || prior < x < last)
      && (x in Missing(data, n - 1) ==> x <= prior)
  {
    hide Parses, Parsed, FrameAt;
    var prior := FrameAt(data, n - 2).sequence;
    SequencesRise(data, n, 0, n - 2);
    if x > prior {
      forall k: nat | k < n - 1 ensures FrameAt(data, k).sequence < x {
        SequencesRise(data, n, k, n - 2);
      }
    }
    assert NoFrameHas(data, n, x) <==> NoFrameHas(data, n - 1, x) && x != FrameAt(data, n - 1).sequence;
  }

  // The gap count is the number of sequence numbers that never arrived.
  lemma {:induction false} GapsCountMissingNumbers(data: seq<byte>, n: nat)
    requires 0 < n && FRAME_SIZE * n <= |data| && Rising(data, n)
    ensures |Missing(data, n)| == Skipped(data, n)
  {
    hide Parses, Parsed, FrameAt, Range;
    if n == 1 {
      assert Missing(data, 1) == {};
    } else {
      GapsCountMissingNumbers(data, n - 1);
      SequencesRise(data, n, n - 2, n - 1);
      var prior, last := FrameAt(data, n - 2).sequence, FrameAt(data, n - 1).sequence;
      var before, between := Missing(data, n - 1), Range(prior, last - 1);
      forall x
        ensures x in Missing(data, n) <==> x in before || x in between
        ensures x in before ==> x !in between
      {
        MissingNext(data, n, x);
      }
      hide Missing, Rising;
      assert Missing(data, n) == before + between && before !! between;
    }
  }

  // On at most 2^32 frames the signed 64-bit value total cannot overflow, whatever the values are.
  lemma {:induction false} ValueTotalFits(data: seq<byte>, n: nat)
    requires FRAME_SIZE * n <= |data| && n <= WORD32 && forall k: nat :: k < n ==> Parses(data, k)
    ensures -0x8000_0000 * n <= ValueSum(data, n) <= 0x7FFF_FFFF * n
    ensures InInt64(ValueSum(data, n)) && !Overflows(data, n)
  {
    hide Parsed, Parses, FrameAt;
    if n > 0 {
      ValueTotalFits(data, n - 1);
      FrameIsWellTyped(data, n - 1);
    }
  }

  // n frames with rising numbers and the least value.
  function LowestFrames(n: nat): (r: seq<byte>)
    requires n <= WORD64
    ensures |r| == FRAME_SIZE * n
  {
    if n == 0 then [] else LowestFrames(n - 1) + FrameBytes(LowestFrame(n - 1))
  }

  function LowestFrame(k: nat): (f: Frame)
    requires k < WORD64
    ensures WellTyped(f)
  {
    Frame(0, 0, -0x8000_0000, k)
  }

  lemma {:induction false} LowestFrameAt(n: nat, k: nat)
    requires k < n <= WORD64
    ensures Chunk(LowestFrames(n), k) == FrameBytes(LowestFrame(k))
  {
    hide FrameBytes;
    if k < n - 1 {
      LowestFrameAt(n - 1, k);
      assert Chunk(LowestFrames(n), k) == Chunk(LowestFrames(n - 1), k);
    }
  }

  lemma LowestFramesRise(n: nat)
    requires n <= WORD64
    ensures Rising(LowestFrames(n), n)
    ensures forall k: nat :: k < n ==> FrameAt(LowestFrames(n), k) == LowestFrame(k)
  {
    hide Parsed, FrameBytes, LowestFrames;
    forall k: nat | k < n
      ensures Parses(LowestFrames(n), k) && FrameAt(LowestFrames(n), k) == LowestFrame(k)
    {
      LowestFrameAt(n, k);
      RenderedIsParsed(LowestFrame(k));
    }
  }

  lemma {:induction false} LowestSum(n: nat, k: nat)
    requires k <= n <= WORD64 && Rising(LowestFrames(n), n)
    requires forall j: nat :: j < n ==> FrameAt(LowestFrames(n), j) == LowestFrame(j)
    ensures ValueSum(LowestFrames(n), k) == -0x8000_0000 * k
  {
    hide Parsed, FrameAt, LowestFrames;
    if k > 0 {
      LowestSum(n, k - 1);
    }
  }

  // The bound is sharp: one frame more than 2^32 can make the total overflow.
  lemma OneFrameMoreCanOverflow() returns (data: seq<byte>)
    ensures |data| == FRAME_SIZE * (WORD32 + 1) && Rising(data, WORD32 + 1) && Overflows(data, WORD32 + 1)
  {
    data := LowestFrames(WORD32 + 1);
    LowestFramesRise(WORD32 + 1);
    LowestSum(WORD32 + 1, WORD32 + 1);
    hide LowestFrames, FrameAt, Parsed;
  }
}
