/** The audio worklet `PCMProcessor`: it converts each float frame of channel 0
    to 16-bit PCM and posts fixed-size chunks to the main thread. Float samples
    are modelled as reals. */
module PcmProcessor {
  import opened Wrappers

  /** Samples per posted chunk: three seconds at 48 kHz. */
  const BUFFER_SIZE: nat := 48000 * 3

  /** The 16-bit PCM full-scale value, 0x7fff. */
  const PCM_SCALE: int := 0x7fff

  type Chunk = seq<int>

  function Min(a: real, b: real): real { if a <= b then a else b }
  function Max(a: real, b: real): real { if a >= b then a else b }

  /** `Math.max(-1, Math.min(1, x))`. */
  function Clamp(x: real): (c: real)
    ensures -1.0 <= c <= 1.0
    ensures -1.0 <= x <= 1.0 ==> c == x
    ensures 1.0 <= x ==> c == 1.0
    ensures x <= -1.0 ==> c == -1.0
  {
    Max(-1.0, Min(1.0, x))
  }

  /** Truncation toward zero: the integer part of `x`. */
  function Truncate(x: real): (n: int)
    ensures 0.0 <= x ==> 0 <= n && n as real <= x < n as real + 1.0
    ensures x < 0.0 ==> n <= 0 && n as real - 1.0 < x <= n as real
  {
    if x >= 0.0 then x.Floor else -((-x).Floor)
  }

  /** The conversion an `Int16Array` store applies (ECMAScript ToInt16):
      truncate toward zero, then wrap modulo 2^16 into the signed range. */
  function ToInt16(x: real): (r: int)
    ensures -32768 <= r <= 32767
    ensures (r - Truncate(x)) % 65536 == 0
    ensures -32768 <= Truncate(x) <= 32767 ==> r == Truncate(x)
  {
    var m := Truncate(x) % 65536;
    if m >= 32768 then m - 65536 else m
  }

  /** One sample of the conversion loop: clamp, scale by 0x7fff, store in an
      `Int16Array` element. Clamping keeps the product inside 16 bits, so the
      store never wraps. */
  function ConvertSample(x: real): (s: int)
    ensures -PCM_SCALE <= s <= PCM_SCALE
    ensures 1.0 <= x ==> s == PCM_SCALE
    ensures x <= -1.0 ==> s == -PCM_SCALE
    ensures x == 0.0 ==> s == 0
    ensures s == Truncate(Clamp(x) * PCM_SCALE as real)
  {
    ToInt16(Clamp(x) * PCM_SCALE as real)
  }

  lemma TruncateMonotone(a: real, b: real)
    requires a <= b
    ensures Truncate(a) <= Truncate(b)
  {
    if 0.0 <= a {
      assert a.Floor as real <= a <= b < b.Floor as real + 1.0;
    } else if b < 0.0 {
      assert (-b).Floor as real <= -b <= -a < (-a).Floor as real + 1.0;
    }
  }

  /** The conversion never reverses the order of two samples. */
  lemma ConvertMonotone(x: real, y: real)
    requires x <= y
    ensures ConvertSample(x) <= ConvertSample(y)
  {
    assert Clamp(x) <= Clamp(y);
    TruncateMonotone(Clamp(x) * PCM_SCALE as real, Clamp(y) * PCM_SCALE as real);
  }

  /** The conversion is odd: negating a sample negates its PCM value. */
  lemma ConvertOdd(x: real)
    ensures ConvertSample(-x) == -ConvertSample(x)
  {
    var a := Clamp(x) * PCM_SCALE as real;
    assert Clamp(-x) * PCM_SCALE as real == -a;
    if a > 0.0 {
      assert Truncate(-a) == -(a.Floor);
    } else if a < 0.0 {
      assert Truncate(a) == -((-a).Floor);
    }
  }

  /** The whole frame converted, sample by sample. */
  function Convert(frame: seq<real>): (pcm: Chunk)
    ensures |pcm| == |frame|
    ensures forall i :: 0 <= i < |pcm| ==> -PCM_SCALE <= pcm[i] <= PCM_SCALE
  {
    seq(|frame|, i requires 0 <= i < |frame| => ConvertSample(frame[i]))
  }

  /** The `for` loop of `process()` that fills a new `Int16Array`. */
  method ConvertFrame(frame: seq<real>) returns (pcm: Chunk)
    ensures pcm == Convert(frame)
    ensures |pcm| == |frame|
    ensures forall i :: 0 <= i < |frame| ==> pcm[i] == ConvertSample(frame[i])
    ensures forall i :: 0 <= i < |frame| ==> -PCM_SCALE <= pcm[i] <= PCM_SCALE
  {
    var out := new int[|frame|];
    var i := 0;
    while i < |frame|
      invariant 0 <= i <= |frame|
      invariant forall k :: 0 <= k < i ==> out[k] == ConvertSample(frame[k])
    {
      out[i] := ConvertSample(frame[i]);
      i := i + 1;
    }
    pcm := out[..];
  }

  /** The processor's state: the samples converted but not yet posted. */
  datatype Processor = Processor(buffer: Chunk)

  /** The constructor starts with an empty buffer. */
  const INITIAL: Processor := Processor([])

  /** What one `process()` call does: the new state, the chunk it posted to the
      main thread (at most one), and the keep-alive flag it returns. */
  datatype Outcome = Outcome(next: Processor, posted: Option<Chunk>, keepAlive: bool)

  /** `inputs[0][0]` when both the first input and its channel 0 exist. */
  function Channel0(inputs: seq<seq<seq<real>>>): Option<seq<real>>
  {
    if |inputs| > 0 && |inputs[0]| > 0 then Some(inputs[0][0]) else None
  }

  /** `process(inputs)`: append the converted channel-0 frame; once the buffer
      holds at least `BUFFER_SIZE` samples, post exactly the first
      `BUFFER_SIZE` of them and keep the rest. */
  function Process(p: Processor, inputs: seq<seq<seq<real>>>): (o: Outcome)
    ensures o.keepAlive
    ensures Channel0(inputs).None? ==> o.next == p && o.posted.None?
    ensures Channel0(inputs).Some? ==>
              o.posted.GetOr([]) + o.next.buffer == p.buffer + Convert(Channel0(inputs).value)
    ensures o.posted.Some? ==> |o.posted.value| == BUFFER_SIZE
    ensures Channel0(inputs).Some? ==>
              (o.posted.Some? <==> |p.buffer| + |Channel0(inputs).value| >= BUFFER_SIZE)
  {
    match Channel0(inputs)
    case None => Outcome(p, None, true)
    case Some(frame) =>
      var buffer := p.buffer + Convert(frame);
      if |buffer| >= BUFFER_SIZE then
        assert buffer[..BUFFER_SIZE] + buffer[BUFFER_SIZE..] == buffer;
        Outcome(Processor(buffer[BUFFER_SIZE..]), Some(buffer[..BUFFER_SIZE]), true)
      else
        Outcome(Processor(buffer), None, true)
  }

  /** A buffer below the threshold stays below it after any frame of at most
      `BUFFER_SIZE` samples. */
  lemma ProcessKeepsBufferShort(p: Processor, inputs: seq<seq<seq<real>>>)
    requires |p.buffer| < BUFFER_SIZE
    requires Channel0(inputs).Some? ==> |Channel0(inputs).value| <= BUFFER_SIZE
    ensures |Process(p, inputs).next.buffer| < BUFFER_SIZE
  {
  }

  /** The state and the posted chunks after feeding `frames`, one per
      `process()` call, each on channel 0 of the only input. */
  function Run(p: Processor, frames: seq<seq<real>>): (r: (Processor, seq<Chunk>))
    ensures |r.1| <= |frames|
    ensures forall i :: 0 <= i < |r.1| ==> |r.1[i]| == BUFFER_SIZE
    decreases |frames|
  {
    if |frames| == 0 then (p, [])
    else
      var (q, chunks) := Run(p, frames[..|frames| - 1]);
      var o := Process(q, [[frames[|frames| - 1]]]);
      (o.next, chunks + PostedList(o))
  }

  /** All the chunks, in order, as one sample sequence. */
  function Flatten(chunks: seq<Chunk>): Chunk
    decreases |chunks|
  {
    if |chunks| == 0 then [] else Flatten(chunks[..|chunks| - 1]) + chunks[|chunks| - 1]
  }

  /** All the frames, converted, as one sample sequence. */
  function ConvertAll(frames: seq<seq<real>>): Chunk
    decreases |frames|
  {
    if |frames| == 0 then [] else ConvertAll(frames[..|frames| - 1]) + Convert(frames[|frames| - 1])
  }

  lemma FlattenAppend(chunks: seq<Chunk>, c: Chunk)
    ensures Flatten(chunks + [c]) == Flatten(chunks) + c
  {
    assert (chunks + [c])[..|chunks|] == chunks;
  }

  /** One call's posted chunk, as a list of zero or one chunks. */
  function PostedList(o: Outcome): seq<Chunk>
  {
    if o.posted.Some? then [o.posted.value] else []
  }

  lemma StepConserves(q: Processor, chunks: seq<Chunk>, frame: seq<real>)
    ensures Flatten(chunks + PostedList(Process(q, [[frame]]))) + Process(q, [[frame]]).next.buffer
            == (Flatten(chunks) + q.buffer) + Convert(frame)
  {
    var o := Process(q, [[frame]]);
    assert Channel0([[frame]]) == Some(frame);
    assert conserved: o.posted.GetOr([]) + o.next.buffer == q.buffer + Convert(frame);
    if o.posted.Some? {
      var c := o.posted.value;
      assert PostedList(o) == [c];
      FlattenAppend(chunks, c);
      assert Flatten(chunks + [c]) + o.next.buffer == Flatten(chunks) + (c + o.next.buffer);
    } else {
      assert PostedList(o) == [];
      assert chunks + [] == chunks;
      assert o.posted.GetOr([]) == [];
    }
  }

  /** No sample is lost, duplicated or reordered: the posted chunks followed by
      the buffer are the old buffer followed by every converted frame. */
  lemma {:induction false} RunConserves(p: Processor, frames: seq<seq<real>>)
    ensures Flatten(Run(p, frames).1) + Run(p, frames).0.buffer == p.buffer + ConvertAll(frames)
    decreases |frames|
  {
    if |frames| > 0 {
      var init := frames[..|frames| - 1];
      var last := frames[|frames| - 1];
      RunConserves(p, init);
      var r := Run(p, init);
      var o := Process(r.0, [[last]]);
      assert Run(p, frames) == (o.next, r.1 + PostedList(o));
      StepConserves(r.0, r.1, last);
      assert ConvertAll(frames) == ConvertAll(init) + Convert(last);
      assert Flatten(r.1 + PostedList(o)) + o.next.buffer == (p.buffer + ConvertAll(init)) + Convert(last);
    }
  }

  /** Every posted chunk is exactly `BUFFER_SIZE` samples long, and starting
      from the empty buffer with frames of at most `BUFFER_SIZE` samples, the
      buffer never reaches the threshold between calls. */
  lemma {:induction false} RunChunksAndBound(frames: seq<seq<real>>)
    requires forall i :: 0 <= i < |frames| ==> |frames[i]| <= BUFFER_SIZE
    ensures forall i :: 0 <= i < |Run(INITIAL, frames).1| ==> |Run(INITIAL, frames).1[i]| == BUFFER_SIZE
    ensures |Run(INITIAL, frames).0.buffer| < BUFFER_SIZE
    decreases |frames|
  {
    if |frames| > 0 {
      var init := frames[..|frames| - 1];
      var last := frames[|frames| - 1];
      RunChunksAndBound(init);
      var (q, chunks) := Run(INITIAL, init);
      assert Channel0([[last]]) == Some(last);
      ProcessKeepsBufferShort(q, [[last]]);
    }
  }
}
