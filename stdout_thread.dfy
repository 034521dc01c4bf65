/**
 * The body of the stdout thread (`spawn_ffmpeg_stdout_thread`): one scratch
 * buffer per trigger, a frame counter, and a loop that reads exactly one
 * frame into buffer `frame mod N`, copies it, routes the copy and moves on,
 * until a read comes up short. The decoder's stdout is a reader over a fixed
 * byte sequence; every routed frame is appended to a log.
 */
module StdoutThread {
  import opened Config
  import opened Runner
  import opened Framing
  import opened RoundRobin

  /** The read end of the decoder's stdout pipe: the bytes it will ever yield and how many are consumed. */
  class ChildStdout {
    const data: seq<bv8>
    var pos: nat

    constructor (data: seq<bv8>)
      ensures this.data == data && pos == 0
    {
      this.data := data;
      pos := 0;
    }

    /**
     * `read_exact`: fills `buf` completely and succeeds when enough bytes are
     * left; otherwise consumes the rest of the stream, leaves it at the front
     * of `buf` and fails.
     */
    method ReadExact(buf: array<bv8>) returns (ok: bool)
      requires pos <= |data|
      modifies this, buf
      ensures ok <==> old(pos) + buf.Length <= |data|
      ensures ok ==> pos == old(pos) + buf.Length && buf[..] == data[old(pos)..pos]
      ensures !ok ==> pos == |data| &&
                      buf[..|data| - old(pos)] == data[old(pos)..] &&
                      buf[|data| - old(pos)..] == old(buf[..])[|data| - old(pos)..]
    {
      var n := if |data| - pos < buf.Length then |data| - pos else buf.Length;
      forall j | 0 <= j < n {
        buf[j] := data[pos + j];
      }
      ok := n == buf.Length;
      pos := pos + n;
    }
  }

  class StdoutDemuxer {
    const config: HypetriggerConfig
    const getRunner: string -> QueueId
    const stdout: ChildStdout
    /** The scratch-buffer size of each trigger. */
    const sizes: seq<nat>
    /** One scratch buffer per trigger, overwritten by every read for that trigger. */
    const buffers: seq<array<bv8>>
    var curFrame: nat
    /** The frames routed so far, in order. */
    var delivered: seq<Delivery>

    /**
     * The fixed part of the thread's state: a servable trigger list, and one
     * buffer per trigger of that trigger's size.
     */
    ghost predicate Shape() {
      && DemuxReady(config.triggers)
      && sizes == Sizes(config.triggers)
      && |buffers| == |sizes|
      && (forall i :: 0 <= i < |buffers| ==> buffers[i].Length == sizes[i])
    }

    /**
     * The thread's invariant: exactly the frames before `curFrame` consumed
     * and routed as the reference says (or, after a short read, the stream
     * drained).
     */
    ghost predicate Valid()
      reads this, stdout
    {
      && Shape()
      && Consumed(config, getRunner, stdout.data, stdout.pos, curFrame, delivered)
    }

    /** Allocates one zeroed scratch buffer of `width * height * 3` bytes per trigger, in trigger order. */
    constructor (config: HypetriggerConfig, stdout: ChildStdout, getRunner: string -> QueueId)
      requires DemuxReady(config.triggers)
      requires stdout.pos == 0
      ensures Valid()
      ensures this.config == config && this.stdout == stdout && this.getRunner == getRunner
      ensures curFrame == 0 && delivered == []
      ensures |buffers| == |config.triggers|
      ensures forall i, j :: 0 <= i < j < |buffers| ==> buffers[i] != buffers[j]
      ensures forall i :: 0 <= i < |buffers| ==>
                fresh(buffers[i]) &&
                buffers[i].Length == config.triggers[i].crop.width as int * config.triggers[i].crop.height as int * 3 &&
                forall j :: 0 <= j < buffers[i].Length ==> buffers[i][j] == 0
    {
      var bufs: seq<array<bv8>> := [];
      for i := 0 to |config.triggers|
        invariant |bufs| == i
        invariant forall j :: 0 <= j < i ==>
                    fresh(bufs[j]) && bufs[j].Length == Sizes(config.triggers)[j] &&
                    bufs[j].Length == config.triggers[j].crop.width as int * config.triggers[j].crop.height as int * 3 &&
                    forall x :: 0 <= x < bufs[j].Length ==> bufs[j][x] == 0
        invariant forall j, l :: 0 <= j < l < i ==> bufs[j] != bufs[l]
      {
        var crop := config.triggers[i].crop;
        BufferSizeInU32(crop);
        SizesAt(config.triggers, i);
        var size := (crop.width * crop.height * CHANNELS) as nat;
        var b := new bv8[size](_ => 0);
        bufs := bufs + [b];
      }
      this.config := config;
      this.getRunner := getRunner;
      this.stdout := stdout;
      this.sizes := Sizes(config.triggers);
      this.buffers := bufs;
      curFrame := 0;
      delivered := [];
    }

    /**
     * One iteration: read frame `curFrame` into the buffer of trigger
     * `curFrame mod N`; on success route a copy of it and count it.
     */
    method Step() returns (ok: bool)
      requires Valid()
      modifies this, stdout, buffers[curFrame % |buffers|]
      ensures Valid()
      ensures ok <==> Offset(sizes, old(curFrame) + 1) <= |stdout.data|
      ensures ok ==> curFrame == old(curFrame) + 1 &&
                     delivered == old(delivered) +
                       [Deliver(config, getRunner, old(curFrame), FrameBytes(sizes, stdout.data, old(curFrame)))]
      ensures ok ==> buffers[old(curFrame) % |buffers|][..] ==
                     delivered[old(curFrame)].dispatch.command.payload.image
      ensures ok ==> old(stdout.pos) < stdout.pos
      ensures !ok ==> curFrame == old(curFrame) && delivered == old(delivered) && stdout.pos == |stdout.data|
    {
      var i := curFrame % |buffers|;
      SlotIsMod(curFrame, |buffers|);
      var buf := buffers[i];
      ConsumeFrame(config, getRunner, stdout.data, stdout.pos, curFrame, delivered, buf.Length);
      ok := stdout.ReadExact(buf);
      if ok {
        var image := buf[..];
        assert image == FrameBytes(sizes, stdout.data, curFrame);
        var dispatch := OnFfmpegStdout(config, config.triggers[i], image, getRunner);
        delivered, curFrame := delivered + [Delivery(i, dispatch)], curFrame + 1;
      }
    }

    /**
     * The read loop: runs until the first short read, by which point every
     * complete frame in the stream has been routed, in order, and none other.
     * Frames routed before the call are left as they were.
     */
    method Run()
      requires Valid()
      modifies this, stdout, buffers
      ensures Valid()
      ensures delivered == old(delivered) + DemuxFrom(config, getRunner, stdout.data, old(curFrame))
      ensures stdout.pos == |stdout.data|
    {
      ghost var start := curFrame;
      var ok := true;
      while ok
        invariant Valid()
        invariant start <= curFrame
        invariant !ok ==> stdout.pos == |stdout.data| && |stdout.data| < Offset(sizes, curFrame + 1)
        decreases ok, |stdout.data| - stdout.pos
      {
        ok := Step();
      }
      DeliveredThenDemux(config, getRunner, stdout.data, start, curFrame);
    }
  }

  /**
   * The stdout thread as a whole: allocate the buffers, read the stream to its
   * end, and return the frames routed, which are exactly the reference ones.
   */
  method SpawnStdoutThread(config: HypetriggerConfig, stdout: seq<bv8>, getRunner: string -> QueueId)
    returns (delivered: seq<Delivery>)
    requires DemuxReady(config.triggers)
    ensures delivered == Demux(config, getRunner, stdout)
  {
    var pipe := new ChildStdout(stdout);
    var demuxer := new StdoutDemuxer(config, pipe, getRunner);
    demuxer.Run();
    delivered := demuxer.delivered;
  }
}
