/**
 * The reference definition of what the stdout thread delivers: the complete
 * frames of the stream (Framing), frame `k` routed as trigger `k mod N`'s.
 * The thread stops at the first frame that the stream does not hold
 * completely.
 */
module RoundRobin {
  import opened Config
  import opened Runner
  import opened Framing

  /** One frame handed on: the trigger position it was read for, and the send. */
  datatype Delivery = Delivery(triggerIndex: nat, dispatch: Dispatch)

  /** The scratch-buffer size of each trigger, in trigger order. */
  function Sizes(triggers: seq<Trigger>): (r: seq<nat>)
    requires forall i :: 0 <= i < |triggers| ==> FrameFits(triggers[i].crop)
    ensures |r| == |triggers|
  {
    if |triggers| == 0 then []
    else Sizes(triggers[..|triggers| - 1]) + [BufferSize(triggers[|triggers| - 1].crop)]
  }

  /** What the thread delivers for frame `k`, whose bytes are `image`. */
  function Deliver(config: HypetriggerConfig, getRunner: string -> QueueId, k: nat, image: seq<bv8>): Delivery
    requires |config.triggers| > 0
  {
    var i := Slot(k, |config.triggers|);
    Delivery(i, OnFfmpegStdout(config, config.triggers[i], image, getRunner))
  }

  /** Routes `frames`, the first of them being frame `k`, one after the other. */
  function Route(config: HypetriggerConfig, getRunner: string -> QueueId, k: nat,
                 frames: seq<seq<bv8>>): (r: seq<Delivery>)
    requires |config.triggers| > 0
    ensures |r| == |frames|
    decreases |frames|
  {
    if |frames| == 0 then []
    else [Deliver(config, getRunner, k, frames[0])] + Route(config, getRunner, k + 1, frames[1..])
  }

  /** Everything delivered from frame `k` on, until a frame does not fit. */
  function DemuxFrom(config: HypetriggerConfig, getRunner: string -> QueueId,
                     stream: seq<bv8>, k: nat): seq<Delivery>
    requires DemuxReady(config.triggers)
  {
    SizesPositive(config.triggers);
    Route(config, getRunner, k, FramesFrom(Sizes(config.triggers), stream, k))
  }

  /** Everything the stdout thread delivers for the whole stream. */
  function Demux(config: HypetriggerConfig, getRunner: string -> QueueId, stream: seq<bv8>): seq<Delivery>
    requires DemuxReady(config.triggers)
  {
    DemuxFrom(config, getRunner, stream, 0)
  }

  /** The deliveries of the first `n` frames, all of which the stream holds. */
  function Delivered(config: HypetriggerConfig, getRunner: string -> QueueId,
                     stream: seq<bv8>, n: nat): seq<Delivery>
    requires DemuxReady(config.triggers)
    requires Offset(Sizes(config.triggers), n) <= |stream|
  {
    Route(config, getRunner, 0, FramesTo(Sizes(config.triggers), stream, n))
  }

  /** Entry `i` of Sizes is trigger `i`'s buffer size. */
  lemma {:induction false} SizesAt(triggers: seq<Trigger>, i: nat)
    requires forall j :: 0 <= j < |triggers| ==> FrameFits(triggers[j].crop)
    requires i < |triggers|
    ensures Sizes(triggers)[i] == BufferSize(triggers[i].crop)
    decreases |triggers|
  {
    var init := triggers[..|triggers| - 1];
    if i < |init| {
      SizesAt(init, i);
      assert init[i] == triggers[i];
    }
  }

  lemma SizesPositive(triggers: seq<Trigger>)
    requires DemuxReady(triggers)
    ensures |Sizes(triggers)| > 0 && Positive(Sizes(triggers))
  {
    forall i | 0 <= i < |triggers|
      ensures Sizes(triggers)[i] > 0
    {
      SizesAt(triggers, i);
    }
  }

  /** The `j`-th routed frame is frame `k + j`, routed as trigger `(k + j) mod N`'s. */
  lemma {:induction false} RouteAt(config: HypetriggerConfig, getRunner: string -> QueueId, k: nat,
                                   frames: seq<seq<bv8>>, j: nat)
    requires |config.triggers| > 0 && j < |frames|
    ensures Route(config, getRunner, k, frames)[j] == Deliver(config, getRunner, k + j, frames[j])
    decreases j
  {
    if j > 0 {
      RouteAt(config, getRunner, k + 1, frames[1..], j - 1);
      assert k + 1 + (j - 1) == k + j;
    }
  }

  /** Routing two runs of frames one after the other is routing them together. */
  lemma {:induction false} RouteAppend(config: HypetriggerConfig, getRunner: string -> QueueId, k: nat,
                                       a: seq<seq<bv8>>, b: seq<seq<bv8>>)
    requires |config.triggers| > 0
    ensures Route(config, getRunner, k, a + b) ==
            Route(config, getRunner, k, a) + Route(config, getRunner, k + |a|, b)
    decreases |a|
  {
    if |a| == 0 {
      assert a + b == b;
    } else {
      assert (a + b)[1..] == a[1..] + b;
      RouteAppend(config, getRunner, k + 1, a[1..], b);
      assert k + 1 + |a[1..]| == k + |a|;
    }
  }

  /** More frames only add deliveries. */
  lemma RoutePrefix(config: HypetriggerConfig, getRunner: string -> QueueId, k: nat,
                    a: seq<seq<bv8>>, b: seq<seq<bv8>>)
    requires |config.triggers| > 0 && a <= b
    ensures Route(config, getRunner, k, a) <= Route(config, getRunner, k, b)
  {
    assert b == a + b[|a|..];
    RouteAppend(config, getRunner, k, a, b[|a|..]);
  }

  /**
   * Where a reader of `stream` stands after handing on the first `k` frames:
   * at the start of frame `k`, or at the end of a stream too short for it,
   * with `log` the reference deliveries of those frames.
   */
  predicate Consumed(config: HypetriggerConfig, getRunner: string -> QueueId,
                     stream: seq<bv8>, pos: nat, k: nat, log: seq<Delivery>)
    requires DemuxReady(config.triggers)
  {
    var sizes := Sizes(config.triggers);
    && Offset(sizes, k) <= |stream|
    && (pos == Offset(sizes, k) || (pos == |stream| && |stream| < Offset(sizes, k + 1)))
    && log == Delivered(config, getRunner, stream, k)
  }

  /**
   * Reading frame `k` (its trigger's size, `len` bytes) from such a reader:
   * the read succeeds exactly when frame `k` is complete; then it covers
   * exactly frame `k`, and handing that frame on moves the reader to frame
   * `k + 1`. A short read drains the stream and leaves the reader at frame `k`.
   */
  lemma ConsumeFrame(config: HypetriggerConfig, getRunner: string -> QueueId,
                     stream: seq<bv8>, pos: nat, k: nat, log: seq<Delivery>, len: nat)
    requires DemuxReady(config.triggers)
    requires Consumed(config, getRunner, stream, pos, k, log)
    requires len == Sizes(config.triggers)[Slot(k, |config.triggers|)]
    ensures len > 0
    ensures pos + len <= |stream| <==> Offset(Sizes(config.triggers), k + 1) <= |stream|
    ensures pos + len <= |stream| ==>
              pos == Offset(Sizes(config.triggers), k) && pos + len == Offset(Sizes(config.triggers), k + 1)
    ensures pos + len <= |stream| ==>
              Consumed(config, getRunner, stream, pos + len, k + 1,
                       log + [Deliver(config, getRunner, k, FrameBytes(Sizes(config.triggers), stream, k))])
    ensures |stream| < pos + len ==> Consumed(config, getRunner, stream, |stream|, k, log)
  {
    var sizes := Sizes(config.triggers);
    SizesPositive(config.triggers);
    ReadFrame(sizes, len, k, pos, |stream|);
    if pos + len <= |stream| {
      var frame := FrameBytes(sizes, stream, k);
      RouteAppend(config, getRunner, 0, FramesTo(sizes, stream, k), [frame]);
      assert Route(config, getRunner, k, [frame]) == [Deliver(config, getRunner, k, frame)];
    }
  }

  /**
   * Once the first `c` frames are complete and frame `c` is not, what was
   * delivered up to any earlier frame `k` plus what the reference delivers
   * from `k` on is exactly the first `c` frames' deliveries.
   */
  lemma DeliveredThenDemux(config: HypetriggerConfig, getRunner: string -> QueueId,
                           stream: seq<bv8>, k: nat, c: nat)
    requires DemuxReady(config.triggers)
    requires k <= c
    requires Offset(Sizes(config.triggers), c) <= |stream| < Offset(Sizes(config.triggers), c + 1)
    ensures Offset(Sizes(config.triggers), k) <= |stream|
    ensures Delivered(config, getRunner, stream, c) ==
            Delivered(config, getRunner, stream, k) + DemuxFrom(config, getRunner, stream, k)
  {
    var sizes := Sizes(config.triggers);
    SizesPositive(config.triggers);
    FramesSplit(sizes, stream, k, c);
    RouteAppend(config, getRunner, 0, FramesTo(sizes, stream, k), FramesFrom(sizes, stream, k));
  }

  /** The reference delivery of a stream is its first `c` frames, `c` being the count of complete frames. */
  lemma DemuxIsDelivered(config: HypetriggerConfig, getRunner: string -> QueueId, stream: seq<bv8>, c: nat)
    requires DemuxReady(config.triggers)
    requires Offset(Sizes(config.triggers), c) <= |stream| < Offset(Sizes(config.triggers), c + 1)
    ensures Demux(config, getRunner, stream) == Delivered(config, getRunner, stream, c)
  {
    DeliveredThenDemux(config, getRunner, stream, 0, c);
    assert Delivered(config, getRunner, stream, 0) == [];
  }

  /**
   * Round-robin slicing and routing: the `k`-th delivery belongs to trigger
   * `k mod N`, carries exactly the stream bytes from the end of frame `k - 1`
   * to the start of frame `k + 1`, as many as that trigger's buffer holds,
   * together with the input
   * path and the trigger, and goes to the queue of that trigger's runner type.
   */
  lemma DemuxSlicing(config: HypetriggerConfig, getRunner: string -> QueueId, stream: seq<bv8>, k: nat)
    requires DemuxReady(config.triggers)
    requires k < |Demux(config, getRunner, stream)|
    ensures var i := k % |config.triggers|; Sizes(config.triggers)[i] == BufferSize(config.triggers[i].crop)
    ensures var d := Demux(config, getRunner, stream)[k];
            var sizes := Sizes(config.triggers);
            var t := config.triggers[k % |config.triggers|];
            Offset(sizes, k + 1) <= |stream| &&
            d.triggerIndex == k % |config.triggers| &&
            d.dispatch.queue == getRunner(t.runnerType) &&
            d.dispatch.command.payload.inputId == config.inputPath &&
            d.dispatch.command.payload.trigger == t &&
            d.dispatch.command.payload.image == stream[Offset(sizes, k)..Offset(sizes, k + 1)] &&
            |d.dispatch.command.payload.image| == BufferSize(t.crop)
  {
    var sizes := Sizes(config.triggers);
    SizesPositive(config.triggers);
    FramesFromAt(sizes, stream, 0, k);
    RouteAt(config, getRunner, 0, Frames(sizes, stream), k);
    SlotIsMod(k, |config.triggers|);
    SizesAt(config.triggers, k % |config.triggers|);
  }

  /**
   * No partial frames: `c` frames are delivered exactly when frames `0 .. c-1`
   * fit in the stream and frame `c` does not.
   */
  lemma DemuxCount(config: HypetriggerConfig, getRunner: string -> QueueId, stream: seq<bv8>, c: nat)
    requires DemuxReady(config.triggers)
    ensures var sizes := Sizes(config.triggers);
            |Demux(config, getRunner, stream)| == c <==>
              Offset(sizes, c) <= |stream| < Offset(sizes, c + 1)
  {
    SizesPositive(config.triggers);
    FramesCount(Sizes(config.triggers), stream, c);
  }

  /**
   * Frames are final as soon as their bytes have arrived: a longer stream only
   * appends deliveries.
   */
  lemma DemuxPrefix(config: HypetriggerConfig, getRunner: string -> QueueId,
                    stream: seq<bv8>, more: seq<bv8>)
    requires DemuxReady(config.triggers)
    requires stream <= more
    ensures Demux(config, getRunner, stream) <= Demux(config, getRunner, more)
  {
    var sizes := Sizes(config.triggers);
    SizesPositive(config.triggers);
    FramesFromPrefix(sizes, stream, more, 0);
    RoutePrefix(config, getRunner, 0, Frames(sizes, stream), Frames(sizes, more));
  }

  /** A stream of `rounds` complete rounds yields exactly `rounds` frames per trigger. */
  lemma RoundsCount(config: HypetriggerConfig, getRunner: string -> QueueId, stream: seq<bv8>, rounds: nat)
    requires DemuxReady(config.triggers)
    requires |stream| == rounds * Sum(Sizes(config.triggers))
    ensures |Demux(config, getRunner, stream)| == rounds * |config.triggers|
  {
    SizesPositive(config.triggers);
    FramesRounds(Sizes(config.triggers), stream, rounds);
  }

  /**
   * The frame of trigger `i` in round `r` is the slice that starts `r` rounds
   * plus the sizes of triggers `0 .. i-1` into the stream.
   */
  lemma RoundFrame(config: HypetriggerConfig, getRunner: string -> QueueId, stream: seq<bv8>, r: nat, i: nat)
    requires DemuxReady(config.triggers)
    requires i < |config.triggers|
    requires r * |config.triggers| + i < |Demux(config, getRunner, stream)|
    ensures var sizes := Sizes(config.triggers);
            var d := Demux(config, getRunner, stream)[r * |config.triggers| + i];
            var start := r * Sum(sizes) + Sum(sizes[..i]);
            d.triggerIndex == i &&
            start + sizes[i] <= |stream| &&
            d.dispatch.command.payload.image == stream[start..start + sizes[i]]
  {
    var sizes := Sizes(config.triggers);
    RoundStart(sizes, r, i);
    FrameAt(config, getRunner, stream, r * |config.triggers| + i, i, r * Sum(sizes) + Sum(sizes[..i]));
  }

  lemma FrameAt(config: HypetriggerConfig, getRunner: string -> QueueId, stream: seq<bv8>,
                k: nat, i: nat, start: nat)
    requires DemuxReady(config.triggers)
    requires k < |Demux(config, getRunner, stream)|
    requires i < |config.triggers| && k % |config.triggers| == i
    requires Offset(Sizes(config.triggers), k) == start
    ensures var sizes := Sizes(config.triggers);
            var d := Demux(config, getRunner, stream)[k];
            d.triggerIndex == i &&
            start + sizes[i] <= |stream| &&
            d.dispatch.command.payload.image == stream[start..start + sizes[i]]
  {
    DemuxSlicing(config, getRunner, stream, k);
    SlotIsMod(k, |config.triggers|);
    assert Offset(Sizes(config.triggers), k + 1) == start + Sizes(config.triggers)[i];
  }

  /**
   * A stream of `rounds` complete rounds: every trigger gets a frame in every
   * round, trigger `i`'s frame of round `r` being delivery `r * N + i`
   * (whose bytes RoundFrame gives).
   */
  lemma CompleteRounds(config: HypetriggerConfig, getRunner: string -> QueueId, stream: seq<bv8>,
                       rounds: nat, r: nat, i: nat)
    requires DemuxReady(config.triggers)
    requires |stream| == rounds * Sum(Sizes(config.triggers))
    requires r < rounds && i < |config.triggers|
    ensures r * |config.triggers| + i < |Demux(config, getRunner, stream)|
  {
    RoundsCount(config, getRunner, stream, rounds);
    IndexInRounds(r, rounds, |config.triggers|, i);
  }
}
