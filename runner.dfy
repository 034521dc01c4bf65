/**
 * Routing of one decoded frame (`on_ffmpeg_stdout`): the frame goes to the
 * worker that the caller-supplied resolver returns for the trigger's runner
 * type, as a `ProcessImage` command. Worker queues are modelled by their
 * identity; the send itself is the record the demultiplexer logs.
 */
module Runner {
  import opened Config

  /** The identity of a worker thread's command queue. */
  type QueueId = nat

  datatype ProcessImagePayload = ProcessImagePayload(inputId: string, image: seq<bv8>, trigger: Trigger)

  datatype RunnerCommand = ProcessImage(payload: ProcessImagePayload)

  /** A command sent on a worker queue. */
  datatype Dispatch = Dispatch(queue: QueueId, command: RunnerCommand)

  /**
   * The send that `on_ffmpeg_stdout` performs for one frame: on the queue of
   * the worker for the trigger's runner type, a `ProcessImage` command that
   * carries the configured input path, the frame's bytes and the trigger.
   */
  function OnFfmpegStdout(config: HypetriggerConfig, trigger: Trigger, image: seq<bv8>,
                          getRunner: string -> QueueId): (d: Dispatch)
    ensures d.queue == getRunner(trigger.runnerType)
    ensures d.command.ProcessImage?
    ensures d.command.payload.inputId == config.inputPath
    ensures d.command.payload.image == image
    ensures d.command.payload.trigger == trigger
  {
    Dispatch(getRunner(trigger.runnerType),
             ProcessImage(ProcessImagePayload(config.inputPath, image, trigger)))
  }
}
