/**
 * Playback of one file: `play_audio_with_pyaudio` (TTS/tts_player.py:145-284)
 * and its caller `play_audio` (TTS/tts_player.py:286-325).
 *
 * Each operation is given twice: a function that says what the call returns
 * and which events it sends to the output stream, and a method that performs
 * the call on a `Sink` and is proved to do exactly that.
 *
 * What the operating system reports (existence, sizes, the file's bytes) is
 * passed in as observed values; the audio device is a `Device` value that says
 * whether opening a stream succeeds and which write, if any, raises; the
 * loudness correction is the parameter `condition`.
 */
module Player {
  import opened Wrappers
  import opened LittleEndian
  import opened WavPayload
  import opened Readiness
  import opened AudioSink

  /** The fixed stream parameters of the TTS engine's output. */
  const Channels := 1
  const FrameRate := 32000

  /** What `play_audio_with_pyaudio` observes of the file: existence, size, then its bytes. */
  datatype FileView = FileView(present: bool, size: int, contents: seq<Byte>)

  /**
   * The output device: whether `p.open(...)` succeeds, and the index of the
   * chunk whose `stream.write` raises, if any.
   */
  datatype Device = Device(available: bool, writeFault: Option<nat>)

  /** The value a playback call returns and the events it sends to the stream. */
  datatype Playback = Playback(ok: bool, events: seq<SinkEvent>)

  /** What `play_audio` observes: existence, up to two readiness probes, then the size. */
  datatype AudioFile = AudioFile(
    present: bool,
    firstProbe: Probe,
    secondProbe: Probe,
    size: int,
    player: FileView)

  /**
   * The loudness correction never changes the payload's length: quiet audio
   * is rescaled sample by sample and turned back into 16-bit samples, and
   * anything else passes through unchanged (TTS/tts_player.py:217-243).
   */
  ghost predicate KeepsSampleCount(condition: seq<Byte> -> seq<Byte>)
  {
    forall b :: |condition(b)| == |b|
  }

  /** Open a stream, write the payload chunk by chunk, then stop, close and release it. */
  function StreamPlayback(payload: seq<Byte>, writeFault: Option<nat>): Playback
  {
    var chunks := Chunks(payload);
    var open := [Opened(Channels, SampleWidth, FrameRate)];
    if writeFault.Some? && writeFault.value < |chunks| then
      Playback(false, open + WriteEvents(chunks[..writeFault.value]))
    else
      Playback(true, open + WriteEvents(chunks) + [Stopped, Closed, Terminated])
  }

  /** `play_audio_with_pyaudio`: every exception is a `false` result. */
  function PlayWithPyAudio(file: FileView, device: Device, condition: seq<Byte> -> seq<Byte>): Playback
  {
    if !file.present then Playback(false, [])
    else if file.size <= HeaderSize then Playback(false, [])
    else
      match Extract(file.contents)
      case Err(_) => Playback(false, [])
      case Ok(pcm) =>
        if !device.available then Playback(false, [])
        else StreamPlayback(condition(pcm), device.writeFault)
  }

  /** `play_audio`: existence, the readiness gate and the header-size check, then playback. */
  function PlayAudio(file: AudioFile, device: Device, condition: seq<Byte> -> seq<Byte>): Playback
  {
    if !file.present then Playback(false, [])
    else if !ReadinessGate(file.firstProbe, file.secondProbe).ready then Playback(false, [])
    else if file.size <= HeaderSize then Playback(false, [])
    else PlayWithPyAudio(file.player, device, condition)
  }

  /** The write loop: `for i in range(0, len(payload), 1024): stream.write(payload[i:i+1024])`. */
  method StreamPayload(sink: Sink, payload: seq<Byte>, writeFault: Option<nat>) returns (ok: bool)
    modifies sink
    ensures ok == StreamPlayback(payload, writeFault).ok
    ensures sink.trace == old(sink.trace) + StreamPlayback(payload, writeFault).events
  {
    sink.Open(Channels, SampleWidth, FrameRate);
    ghost var chunks := Chunks(payload);
    var i := 0;
    var written := 0;
    while i < |payload|
      invariant i == written * ChunkSize
      invariant written <= |chunks|
      invariant writeFault.None? || written <= writeFault.value
      invariant sink.trace == old(sink.trace) + [Opened(Channels, SampleWidth, FrameRate)] + WriteEvents(chunks[..written])
    {
      ChunkIndexInRange(payload, written);
      if writeFault == Some(written) {
        return false;
      }
      ChunkAt(payload, written);
      var chunk := payload[i..Min(i + ChunkSize, |payload|)];
      sink.Write(chunk);
      assert chunks[..written + 1] == chunks[..written] + [chunk];
      i := i + ChunkSize;
      written := written + 1;
    }
    ChunkIndexInRange(payload, written);
    assert chunks[..written] == chunks;
    sink.Stop();
    sink.Close();
    sink.Terminate();
    ok := true;
  }

  method PlayWithSink(sink: Sink, file: FileView, device: Device, condition: seq<Byte> -> seq<Byte>)
    returns (ok: bool)
    modifies sink
    ensures ok == PlayWithPyAudio(file, device, condition).ok
    ensures sink.trace == old(sink.trace) + PlayWithPyAudio(file, device, condition).events
  {
    if !file.present || file.size <= HeaderSize {
      return false;
    }
    var extracted := Extract(file.contents);
    if extracted.Err? || !device.available {
      return false;
    }
    ok := StreamPayload(sink, condition(extracted.value), device.writeFault);
  }

  method PlayAudioOn(sink: Sink, file: AudioFile, device: Device, condition: seq<Byte> -> seq<Byte>)
    returns (ok: bool)
    modifies sink
    ensures ok == PlayAudio(file, device, condition).ok
    ensures sink.trace == old(sink.trace) + PlayAudio(file, device, condition).events
  {
    if !file.present {
      return false;
    }
    var gate := ReadinessGate(file.firstProbe, file.secondProbe);
    if !gate.ready || file.size <= HeaderSize {
      return false;
    }
    ok := PlayWithSink(sink, file.player, device, condition);
  }

  // ---------------------------------------------------------------------------
  // Properties of the stream

  /**
   * A successful stream receives exactly the payload, in chunks, between the
   * open and the stop/close/release; a failed one has received a prefix of
   * whole chunks and is never stopped or closed.
   */
  lemma StreamDelivers(payload: seq<Byte>, writeFault: Option<nat>)
    ensures var r := StreamPlayback(payload, writeFault);
      && |r.events| >= 1
      && r.events[0] == Opened(Channels, SampleWidth, FrameRate)
      && (r.ok ==> Written(r.events) == payload
                   && |r.events| == |Chunks(payload)| + 4
                   && r.events[|r.events| - 3..] == [Stopped, Closed, Terminated])
      && (!r.ok ==> exists j :: 0 <= j < |Chunks(payload)| && j * ChunkSize < |payload|
                                  && Written(r.events) == payload[..j * ChunkSize])
      && (!r.ok ==> Stopped !in r.events && Closed !in r.events && Terminated !in r.events)
  {
    var r := StreamPlayback(payload, writeFault);
    var chunks := Chunks(payload);
    var open := [Opened(Channels, SampleWidth, FrameRate)];
    assert Written(open) == [];
    if r.ok {
      WrittenAppend(open, WriteEvents(chunks));
      WrittenAppend(open + WriteEvents(chunks), [Stopped, Closed, Terminated]);
      WrittenAllChunks(payload);
      assert Written([Stopped, Closed, Terminated]) == [];
    } else {
      var j := writeFault.value;
      WrittenAppend(open, WriteEvents(chunks[..j]));
      WrittenChunkPrefix(payload, j);
      ChunkIndexInRange(payload, j);
      assert Written(r.events) == payload[..j * ChunkSize];
    }
  }

  /** No write follows a stop, close or release, and every write carries 1 to 1024 bytes. */
  lemma StreamEventOrder(payload: seq<Byte>, writeFault: Option<nat>)
    ensures var events := StreamPlayback(payload, writeFault).events;
      && (forall i, j :: 0 <= i < j < |events| && events[j].Wrote? ==>
            !events[i].Stopped? && !events[i].Closed? && !events[i].Terminated?)
      && (forall i :: 0 <= i < |events| && events[i].Wrote? ==> 0 < |events[i].chunk| <= ChunkSize)
  {
    ChunkSizes(payload);
  }

  // ---------------------------------------------------------------------------
  // Properties of `play_audio_with_pyaudio`

  /**
   * Playback succeeds exactly when the file exists, is larger than a header,
   * yields a payload, the device opens and no write raises; then the device
   * received the conditioned payload and the stream was closed.
   */
  lemma PlayerSucceeds(file: FileView, device: Device, condition: seq<Byte> -> seq<Byte>)
    ensures var r := PlayWithPyAudio(file, device, condition);
      r.ok <==>
        && file.present && file.size > HeaderSize
        && Extract(file.contents).Ok? && device.available
        && (device.writeFault.None?
            || device.writeFault.value >= |Chunks(condition(Extract(file.contents).value))|)
    ensures var r := PlayWithPyAudio(file, device, condition);
      r.ok ==> Written(r.events) == condition(Extract(file.contents).value) && Closed in r.events
    ensures var r := PlayWithPyAudio(file, device, condition);
      r.ok && KeepsSampleCount(condition) ==>
        && |Written(r.events)| == |Extract(file.contents).value|
        && |Written(r.events)| % SampleWidth == 0
        && exists i :: 0 <= i < |r.events| && r.events[i].Wrote?
  {
    var r := PlayWithPyAudio(file, device, condition);
    if r.ok {
      var conditioned := condition(Extract(file.contents).value);
      StreamDelivers(conditioned, device.writeFault);
      assert r.events[|r.events| - 2] == Closed;
      if KeepsSampleCount(condition) {
        assert |conditioned| == |Extract(file.contents).value| > 0;
        assert Chunks(conditioned) != [];
        assert r.events[1] == Wrote(Chunks(conditioned)[0]);
      }
    }
  }

  /** A missing file, a header-sized file, or an empty or odd-length payload never opens the device. */
  lemma RejectedFileNeverReachesSink(file: FileView, device: Device, condition: seq<Byte> -> seq<Byte>)
    requires !file.present || file.size <= HeaderSize || Extract(file.contents).Err?
    ensures PlayWithPyAudio(file, device, condition) == Playback(false, [])
  {
  }

  /** A failed playback never stops or closes the stream: a raised exception skips the close. */
  lemma PlayerFailureNeverCloses(file: FileView, device: Device, condition: seq<Byte> -> seq<Byte>)
    ensures var r := PlayWithPyAudio(file, device, condition);
      !r.ok ==> Stopped !in r.events && Closed !in r.events && Terminated !in r.events
  {
  }

  // ---------------------------------------------------------------------------
  // Properties of `play_audio`

  /**
   * `play_audio` returns false without touching the device when the file is
   * missing, when both readiness probes fail, or when the size is at most a
   * header; otherwise it returns what `play_audio_with_pyaudio` returns.
   */
  lemma PlayAudioGates(file: AudioFile, device: Device, condition: seq<Byte> -> seq<Byte>)
    ensures !file.present ==> PlayAudio(file, device, condition) == Playback(false, [])
    ensures !IsFullyWritten(file.firstProbe, MinAudioSize) && !IsFullyWritten(file.secondProbe, MinAudioSize)
      ==> PlayAudio(file, device, condition) == Playback(false, [])
    ensures file.size <= HeaderSize ==> PlayAudio(file, device, condition) == Playback(false, [])
    ensures file.present
      && (IsFullyWritten(file.firstProbe, MinAudioSize) || IsFullyWritten(file.secondProbe, MinAudioSize))
      && file.size > HeaderSize
      ==> PlayAudio(file, device, condition) == PlayWithPyAudio(file.player, device, condition)
  {
  }

  /**
   * End to end: a successful `play_audio` played a non-empty, whole-sample
   * payload, all of it, and closed the stream. When the bytes read agree with
   * the observed size, that payload is everything after the 44-byte header.
   */
  lemma PlayAudioSuccess(file: AudioFile, device: Device, condition: seq<Byte> -> seq<Byte>)
    requires PlayAudio(file, device, condition).ok
    ensures ReadinessGate(file.firstProbe, file.secondProbe).ready
    ensures file.size > HeaderSize && file.player.size > HeaderSize
    ensures Extract(file.player.contents).Ok?
    ensures var pcm := Extract(file.player.contents).value;
      && |pcm| > 0 && |pcm| % SampleWidth == 0
      && Written(PlayAudio(file, device, condition).events) == condition(pcm)
      && Closed in PlayAudio(file, device, condition).events
      && (|file.player.contents| == file.player.size ==> pcm == file.player.contents[HeaderSize..])
    ensures var pcm := Extract(file.player.contents).value;
      var events := PlayAudio(file, device, condition).events;
      KeepsSampleCount(condition) ==>
        && |Written(events)| == |pcm|
        && |Written(events)| % SampleWidth == 0
        && exists i :: 0 <= i < |events| && events[i].Wrote?
  {
    PlayerSucceeds(file.player, device, condition);
    ExtractCharacterization(file.player.contents);
  }

  /** A file holding only a 44-byte header is never played, so the watcher keeps retrying it. */
  lemma HeaderOnlyFileNeverPlayed(file: AudioFile, device: Device, condition: seq<Byte> -> seq<Byte>)
    requires file.size == HeaderSize
    ensures !PlayAudio(file, device, condition).ok
  {
  }
}
