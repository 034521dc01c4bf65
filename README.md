# Hypetrigger's decoder glue, modelled in Dafny

Hypetrigger watches a video through an external decoder process (ffmpeg) and
runs detectors ("triggers") on cropped regions of sampled frames. The glue in
`lib-rust/src/ffmpeg.rs` does four things, and this project models each:

- **Filter graph and arguments** (module `FilterGraph`). The glue samples the
  input at a configured rate and splits it into one branch per trigger. It crops
  branch `i` with trigger `i`'s crop fractions and names the result `[out i]`. It
  then maps `[out0]` … `[out{N-1}]`, in trigger order, to raw RGB24 frames on
  stdout. `BuildFilterComplex` and `BuildArgs` grow a string and an argument list
  step by step, as the source does. They are proved equal to the reference
  functions `Graph` and `CommandArgs`, and the lemmas below prove the structure
  of those functions. The main property is port ordering: the `i`-th `-map`
  argument names the port of the crop stage of trigger `i` and of no other.
- **Stdout demultiplexer** (modules `Framing`, `RoundRobin`, `StdoutThread`).
  The stdout thread keeps one scratch buffer per trigger of
  `width * height * 3` bytes and a frame counter. It repeatedly reads exactly
  one buffer's worth into buffer `frame mod N`, copies it and hands the copy on,
  and it stops at the first short read. `Framing` describes the layout of the
  byte stream: frame offsets, frame slices and frame counts. `RoundRobin` gives
  the reference delivery of a whole stream and proves its properties. These are
  round-robin order, exact slicing, no partial frames, complete rounds and
  prefix stability. `StdoutThread` models the thread itself as a class. It has
  the scratch buffers as arrays, a reader over the stream and a log of
  deliveries. The class is proved to deliver exactly the reference.
- **Routing** (module `Runner`). `OnFfmpegStdout` builds the `ProcessImage`
  command. The command carries the input path, the frame and the trigger, and
  goes to the queue that `get_runner` returns for the trigger's runner type.
- **Stdin pump** (module `StdinThread`). Every `Stop` command received is
  written to the decoder's stdin as the single byte `q`. Nothing else is ever
  written there.

`Text` holds the string helpers the proofs need: decimal formatting of an
index (`format!("{}", i)`), joining, splitting and counting. `Config` holds the
configuration records and the u32 buffer-size arithmetic.

Three behaviours of the code shape the model:

- With no triggers the stdout loop computes `cur_frame % 0`, which panics in
  Rust. It does not exit quietly. The demultiplexer therefore requires at least
  one trigger (`DemuxReady`). The filter-graph builder has no such requirement.
  With no triggers it yields `[0:v]fps=R,split=0;`, and the model states that
  case.
- The code does not validate crop rectangles before spawning the process. The
  model has no construction error. Instead the demultiplexer requires what its
  arithmetic needs: positive width and height, and a `width * height * 3`
  product that fits in u32.
- On a short read, `ChildStdout.ReadExact` consumes the rest of the stream and
  leaves those bytes at the front of the buffer. Rust's `read_exact` only
  guarantees that the read fails. The loop stops on that failure and never
  looks at the buffer, so nothing depends on this choice.

## Model

| member | source | states |
|---|---|---|
| FilterGraph.BuildFilterComplex | lib-rust/src/ffmpeg.rs:65-88 | The string grown by the head push, the `[in i]` loop, the `;` and the crop loop (with a `;` after every stage but the last) is the reference graph `Graph(rate, triggers)`. |
| FilterGraph.BuildArgs | lib-rust/src/ffmpeg.rs:101-122 | The argument list built by the source's chained `arg` calls and the `-map` loop is the reference list `CommandArgs(config)`. |
| FilterGraph.HeadDeclaresBranches | lib-rust/src/ffmpeg.rs:65-69 | The split stage announces `N` in decimal, and the number can be read back. After the `[0:v]fps=R,split=` prefix it declares exactly `N` branch labels. After the announced count, label `[in i]` follows right after the labels of `0 .. i-1`, for every `i < N`. |
| FilterGraph.InLabelsPrefix | lib-rust/src/ffmpeg.rs:67-69 | The branch labels come in increasing order: `[in i]` follows right after `[in0]`…`[in{i-1}]` in the labels of any `N > i` branches. |
| FilterGraph.InLabelsShape | lib-rust/src/ffmpeg.rs:67-69 | The branch labels `[in0]`…`[in{N-1}]` contain no `;` and exactly `N` opening brackets. |
| FilterGraph.SegmentPorts | lib-rust/src/ffmpeg.rs:78-84 | The crop stage of trigger `i` reads branch `[in i]` (its text up to the first `]`) and writes port `[out i]` (its text from the last `[`). |
| FilterGraph.SegmentFree | lib-rust/src/ffmpeg.rs:78-84 | A crop stage contains no `;` when its four fractions contain none. |
| FilterGraph.StagesFree | lib-rust/src/ffmpeg.rs:65-88 | The graph is the split stage and then the crop stages, joined by `;`. No stage contains a `;`. |
| FilterGraph.GraphStages | lib-rust/src/ffmpeg.rs:70-87 | Split on `;`, the graph reads back as the split stage followed by the crop stages of the triggers in configuration order, with no trailing empty stage. It therefore has exactly `N` semicolons for `N >= 1`, and one for `N = 0`. |
| FilterGraph.CropLoopStep | lib-rust/src/ffmpeg.rs:78-87 | One crop-loop iteration appends the next stage, plus a `;` unless it is the last stage. This turns the join of the first `i` stages into the join of the first `i + 1`. |
| FilterGraph.OutLabelInjective | lib-rust/src/ffmpeg.rs:78-111 | Port labels `[out i]` and `[out j]` are equal exactly when `i == j`. |
| FilterGraph.MapArgsAt | lib-rust/src/ffmpeg.rs:109-111 | The `-map` loop puts `-map` at position `2i` and `[out i]` at `2i + 1`. |
| FilterGraph.MappedPort | lib-rust/src/ffmpeg.rs:101-111 | In the whole argument list, argument 5 is the graph, argument `6 + 2i` is `-map` and argument `7 + 2i` is `[out i]`. |
| FilterGraph.ArgsLayout | lib-rust/src/ffmpeg.rs:101-122 | The list has `15 + 2N` entries. It starts with `-hwaccel auto -i <input> -filter_complex <graph>` and ends with `-vsync drop -f rawvideo -pix_fmt rgb24 -an -y pipe:1`. |
| FilterGraph.PortOrdering | lib-rust/src/ffmpeg.rs:65-122 | Port ordering. Crop stage `j` of the graph argument is built from trigger `j`'s own crop and reads branch `j`. The port it writes is the one named by the `i`-th `-map` argument exactly when `i == j`. |
| Config.BufferSize | lib-rust/src/ffmpeg.rs:198-201 | A fitting crop's buffer size is positive and below 2^32. |
| Config.BufferSizeInU32 | lib-rust/src/ffmpeg.rs:198-201 | Under `FrameFits`, the u32 product `width * height * CHANNELS` does not wrap and equals `BufferSize`, which is `width * height * 3`. |
| Config.MulIsProduct | lib-rust/src/ffmpeg.rs:201 | The recursive product used in the size bound is the arithmetic product. |
| Runner.OnFfmpegStdout | lib-rust/src/ffmpeg.rs:257-275 | The send goes to the queue that `get_runner` returns for the trigger's runner type. It is a `ProcessImage` command whose payload carries the configured input path, exactly the frame's bytes and the trigger. |
| StdoutThread.StdoutDemuxer.constructor | lib-rust/src/ffmpeg.rs:196-213 | The constructor allocates one fresh, zero-filled, distinct buffer per trigger, in trigger order, of length `width * height * 3`. The counter starts at 0, the log is empty and the thread invariant holds. |
| StdoutThread.ChildStdout.ReadExact | lib-rust/src/ffmpeg.rs:215-217 | The read succeeds exactly when the stream still holds a full buffer. It then fills the buffer with the next bytes and advances by the buffer's length. Otherwise it drains the stream. |
| StdoutThread.StdoutDemuxer.Step | lib-rust/src/ffmpeg.rs:215-230 | One loop iteration reads into buffer `cur_frame mod N`. It succeeds exactly when frame `cur_frame` is complete. It then appends the reference delivery of that frame's bytes to the log, and that delivery equals the buffer's contents. It increments the counter and keeps the invariant. On failure the counter and the log are unchanged and the stream is drained. |
| StdoutThread.StdoutDemuxer.Run | lib-rust/src/ffmpeg.rs:213-231 | The loop runs to the first short read. It appends exactly the reference deliveries from the current frame on, leaves earlier deliveries as they were and drains the stream. |
| StdoutThread.SpawnStdoutThread | lib-rust/src/ffmpeg.rs:196-231 | The thread body (allocation, then the loop) delivers exactly `Demux(config, getRunner, stream)`. |
| Framing.Slot | lib-rust/src/ffmpeg.rs:216 | The buffer index of a frame is below the number of triggers. |
| Framing.SlotIsMod | lib-rust/src/ffmpeg.rs:216-219 | The recursive buffer index equals `cur_frame % num_triggers`. |
| Framing.ReadFrame | lib-rust/src/ffmpeg.rs:215-217 | A reader at the start of frame `k` gets a full buffer exactly when frame `k` is complete. The bytes it then covers are the offsets of frames `k` and `k + 1`. |
| Framing.FrameCountUnique | lib-rust/src/ffmpeg.rs:215-231 | The number of complete frames in a stream of a given length is unique. |
| Framing.FramesCount | lib-rust/src/ffmpeg.rs:215-231 | The loop takes exactly `c` frames when frames `0 .. c-1` fit and frame `c` does not. |
| Framing.FramesFromPrefix | lib-rust/src/ffmpeg.rs:215-231 | A longer stream yields the same frames and possibly more. |
| Framing.FramesSplit | lib-rust/src/ffmpeg.rs:215-231 | The frames before `k` followed by the frames from `k` on are all the frames. |
| Framing.RoundStart | lib-rust/src/ffmpeg.rs:216-219 | Frame `r * N + i` starts `r` rounds plus the sizes of triggers `0 .. i-1` into the stream, and it uses buffer `i`. |
| Framing.FramesRounds | lib-rust/src/ffmpeg.rs:215-231 | A stream of whole rounds yields `N` frames per round. |
| RoundRobin.SizesAt | lib-rust/src/ffmpeg.rs:196-210 | Scratch size `i` is trigger `i`'s `width * height * 3`. |
| RoundRobin.SizesPositive | lib-rust/src/ffmpeg.rs:196-210 | There is at least one buffer size, and every one is positive, so each read makes progress. |
| RoundRobin.RouteAt | lib-rust/src/ffmpeg.rs:219-228 | The `j`-th routed frame is frame `k + j`, handed on as trigger `(k + j) mod N`'s. |
| RoundRobin.RouteAppend | lib-rust/src/ffmpeg.rs:219-228 | Routing two runs of frames one after the other is the same as routing them together. |
| RoundRobin.RoutePrefix | lib-rust/src/ffmpeg.rs:219-228 | Routing more frames only appends deliveries. |
| RoundRobin.ConsumeFrame | lib-rust/src/ffmpeg.rs:215-230 | From a reader standing at frame `k` with the first `k` deliveries logged, reading frame `k`'s buffer succeeds exactly when frame `k` is complete. Logging its delivery then stands the reader at frame `k + 1`. A short read leaves the reader drained at frame `k`. |
| RoundRobin.DeliveredThenDemux | lib-rust/src/ffmpeg.rs:213-231 | The deliveries up to frame `k`, followed by the reference deliveries from `k` on, are the deliveries of all complete frames. |
| RoundRobin.DemuxIsDelivered | lib-rust/src/ffmpeg.rs:213-231 | The reference delivery of a stream is the delivery of its first `c` frames, where `c` is the number of complete frames. |
| RoundRobin.DemuxSlicing | lib-rust/src/ffmpeg.rs:213-276 | Round-robin slicing and routing. Delivery `k` belongs to trigger `k mod N`. Its image is exactly the stream bytes between the offsets of frames `k` and `k + 1`, which is `width * height * 3` of that trigger. It carries the input path and that trigger, and it goes to `get_runner` of the trigger's runner type. |
| RoundRobin.DemuxCount | lib-rust/src/ffmpeg.rs:215-218 | No partial frames. Exactly `c` frames are delivered if and only if frames `0 .. c-1` fit in the stream and frame `c` does not. |
| RoundRobin.DemuxPrefix | lib-rust/src/ffmpeg.rs:215-231 | Deliveries are final once their bytes have arrived: a longer stream only appends deliveries. |
| RoundRobin.RoundsCount | lib-rust/src/ffmpeg.rs:215-231 | A stream of `r` whole rounds yields `r * N` deliveries. |
| RoundRobin.RoundFrame | lib-rust/src/ffmpeg.rs:216-221 | Trigger `i`'s frame of round `r` (delivery `r * N + i`) is the slice starting at `r * Sum(sizes) + Sum(sizes[..i])` with trigger `i`'s size. |
| RoundRobin.FrameAt | lib-rust/src/ffmpeg.rs:216-221 | A delivery whose frame starts at a known offset carries the slice of its trigger's size from that offset. |
| RoundRobin.CompleteRounds | lib-rust/src/ffmpeg.rs:215-231 | In a stream of whole rounds, every trigger gets a frame in every round, at position `r * N + i`. |
| StdinThread.StdinBytesQuit | lib-rust/src/ffmpeg.rs:286-290 | The commands are encoded as one byte each, and every byte is `q`. |
| StdinThread.StdinBytesAppend | lib-rust/src/ffmpeg.rs:286-290 | Commands received later only append bytes after those already written. |
| StdinThread.ChildStdin.WriteAll | lib-rust/src/ffmpeg.rs:289 | `write_all` appends its bytes to what the pipe holds. |
| StdinThread.SpawnStdinThread | lib-rust/src/ffmpeg.rs:286-292 | The pump loop appends exactly the encoding of the received commands, in order, to the stdin pipe. |
| StdinThread.StdinPipe | lib-rust/src/ffmpeg.rs:286-292 | A fresh pipe, after the channel is drained, holds one byte per command, each of them `q`, and nothing else. |
| Text.ParseNatToString | lib-rust/src/ffmpeg.rs:66-68 | Decimal formatting of an index can be parsed back to the index. |
| Text.NatToStringInjective | lib-rust/src/ffmpeg.rs:68-80 | Distinct indices format to distinct decimal strings. |
| Text.SplitJoin | lib-rust/src/ffmpeg.rs:70-87 | Splitting a `;`-joined list of stages that contain no `;` gives back the stages. |
| Text.CountSplit | lib-rust/src/ffmpeg.rs:70-87 | A string splits into one more piece than it has separators. |

The dispatched frame is isolated from the scratch buffer. Each delivery
carries a value copy of the buffer (`buf[..]`), and `Run` promises that the log
entries from before the call are unchanged. Later overwrites of a buffer
therefore cannot alter frames already handed on.

## Left out

- Process spawning (`Command::spawn`, the stdio setup, the creation flags) and the lookup of the decoder's path next to the executable are not modelled. They are operating-system I/O.
- Thread creation, `JoinHandle`s and `Arc` reference counting are not modelled. The stdout stream is a fixed byte sequence read through `ChildStdout`. The send to the runner's channel is an entry appended to the log. The stdin channel is the sequence of commands it will ever deliver.
- The `.expect` panics on a failed send and on a failed stdin write are not modelled: sends and writes always succeed.
- An I/O error other than end of stream on the decoder's stdout is not distinguished from a short read. Either way the loop stops.
- Float formatting: the sampling rate and the four crop fractions (`percent / 100.0`) are opaque strings. The structural lemmas about the graph (`GraphStages`, `StagesFree`, `PortOrdering`) require that these strings contain no `;`, which Rust's formatting of a float never produces.
- The debug `println!` output, including the echoed debug command (which differs from the real arguments), and the `debug_*` logging flags are not modelled.
- The stderr thread and `on_ffmpeg_stderr` are not modelled. They only print lines.
- `Trigger`, `WorkerThread` and `RunnerCommand` are defined elsewhere in the repository and are not part of this model. A trigger is a record with an id, a crop, a runner type and a debug flag. `get_runner` is a function from a runner type to a queue identity.
- StdoutThread.SpawnStdoutThread: requires at least one trigger. The source panics on `cur_frame % 0` with no triggers, and that panic is not modelled.
- StdoutThread.SpawnStdoutThread: requires every crop to have a positive width and height, because resolved pixel sizes of a crop are positive. A zero-size buffer is therefore not modelled. In the source, `read_exact` into an empty buffer succeeds without reading anything. If every buffer has size zero, the loop never ends. If only some do, the source delivers an empty frame for those triggers in every round.
- StdoutThread.SpawnStdoutThread: requires `width * height * 3` to fit in u32. With an overflowing product the source allocates a wrapped size (release build) or panics (debug build). Neither behaviour is modelled.
- The stdout thread's callback parameter `on_ffmpeg_stdout: OnFfmpegStdout` (lines 189 and 223 of `lib-rust/src/ffmpeg.rs`) is fixed to `Runner.OnFfmpegStdout` by `RoundRobin.Deliver`. Other callbacks a caller could pass are not modelled.
- The frame counter is unbounded. A `usize` counter overflowing after 2^64 frames is not modelled.
