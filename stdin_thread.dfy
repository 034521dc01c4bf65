/**
 * The body of the stdin thread (`spawn_ffmpeg_stdin_thread`): it receives
 * commands until the channel closes and turns each `Stop` into the single
 * byte `q` on the decoder's stdin, the decoder's interactive quit key. The
 * channel is the sequence of commands it will ever deliver.
 */
module StdinThread {

  /** The commands the stdin thread understands. */
  datatype FfmpegStdinCommand = Stop

  /** ASCII `q`. */
  const QuitByte: bv8 := 0x71

  /** The bytes written for one command. */
  function Encode(command: FfmpegStdinCommand): seq<bv8> {
    match command
    case Stop => [QuitByte]
  }

  /** The bytes written for a run of commands, in order. */
  function StdinBytes(commands: seq<FfmpegStdinCommand>): seq<bv8> {
    if |commands| == 0 then []
    else StdinBytes(commands[..|commands| - 1]) + Encode(commands[|commands| - 1])
  }

  /** Exactly one byte per command, and that byte is always `q`. */
  lemma {:induction false} StdinBytesQuit(commands: seq<FfmpegStdinCommand>)
    ensures |StdinBytes(commands)| == |commands|
    ensures forall i :: 0 <= i < |commands| ==> StdinBytes(commands)[i] == QuitByte
    decreases |commands|
  {
    if |commands| > 0 {
      StdinBytesQuit(commands[..|commands| - 1]);
    }
  }

  /** Commands received later only append bytes after those already written. */
  lemma {:induction false} StdinBytesAppend(a: seq<FfmpegStdinCommand>, b: seq<FfmpegStdinCommand>)
    ensures StdinBytes(a + b) == StdinBytes(a) + StdinBytes(b)
    decreases |b|
  {
    if |b| == 0 {
      assert a + b == a;
    } else {
      var init := b[..|b| - 1];
      assert (a + b)[..|a + b| - 1] == a + init;
      StdinBytesAppend(a, init);
    }
  }

  /** The write end of the decoder's stdin pipe: everything written to it so far. */
  class ChildStdin {
    var written: seq<bv8>

    constructor ()
      ensures written == []
    {
      written := [];
    }

    /** `write_all`: appends all of `bytes`. */
    method WriteAll(bytes: seq<bv8>)
      modifies this
      ensures written == old(written) + bytes
    {
      written := written + bytes;
    }
  }

  /**
   * The thread's loop: for every command received, in order, write its bytes;
   * stop when the channel has nothing more to deliver.
   */
  method SpawnStdinThread(stdin: ChildStdin, received: seq<FfmpegStdinCommand>)
    modifies stdin
    ensures stdin.written == old(stdin.written) + StdinBytes(received)
  {
    var i := 0;
    while i < |received|
      invariant 0 <= i <= |received|
      invariant stdin.written == old(stdin.written) + StdinBytes(received[..i])
    {
      var command := received[i];
      match command {
        case Stop => stdin.WriteAll([QuitByte]);
      }
      assert received[..i + 1] == received[..i] + [command];
      StdinBytesAppend(received[..i], [command]);
      assert StdinBytes([command]) == [] + Encode(command);
      i := i + 1;
    }
    assert received[..i] == received;
  }

  /** What a fresh pipe holds after the thread has drained the channel. */
  method StdinPipe(received: seq<FfmpegStdinCommand>) returns (written: seq<bv8>)
    ensures |written| == |received|
    ensures forall i :: 0 <= i < |written| ==> written[i] == QuitByte
  {
    var stdin := new ChildStdin();
    SpawnStdinThread(stdin, received);
    written := stdin.written;
    StdinBytesQuit(received);
  }
}
