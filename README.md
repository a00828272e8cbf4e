# TTS player: a Dafny model

This project models the core of `TTS/tts_player.py`, a player for the WAV files
that a GPT-SoVITS text-to-speech process drops into a cache directory. The model
covers four parts of it:

- **The readiness heuristic.** `is_file_fully_written` and the one-retry gate in
  `play_audio` decide whether a file has finished being written.
- **PCM payload extraction.** The primary path skips a 44-byte RIFF/WAVE header.
  The fallback path scans for the first `data` chunk and decodes its
  little-endian 32-bit length. Empty payloads and odd-length payloads are rejected.
- **The output stream.** The payload goes to the device in 1024-byte writes,
  then the stream is stopped, closed and released. The stream is a `Sink`
  object that records a trace of events.
- **The directory watcher.** Each poll computes the `.wav` entries not yet
  processed and dispatches them. Only names that played are remembered, and the
  remembered set is trimmed to 50 names once it holds more than 100.

Values the operating system would report are parameters: existence flags, file
sizes, the file's bytes and directory listings. The audio device is a `Device`
value. It says whether opening a stream succeeds and which write, if any,
raises. The loudness correction is a function parameter `condition`.

Modules: `Wrappers` (Option, Result), `LittleEndian` (bytes, `<I` decoding),
`WavPayload`, `Readiness`, `AudioSink`, `Player` (`play_audio_with_pyaudio` and
`play_audio`), `Watcher` (`monitor_audio_files`).

The model follows the code in four places where a reader might expect something else:

- One might expect extraction to reject every buffer shorter than 45 bytes.
  It does not. A short non-empty buffer of whole samples is its own payload (`ShortBufferIsItsOwnPayload`), and a
  header-only buffer extracts to the header itself (`ExtractAfterHeader`). Only
  the file-size checks keep such files from being played.
- One might expect the `data`-chunk fallback to rescue buffers with no payload
  after the header. It never changes the result. The primary payload is
  empty only when the whole buffer is empty, and an empty buffer holds no tag
  (`FallbackNeverApplies`). The fallback is still modelled and specified on
  its own.
- One might expect the stream to be released on every path. It is not
  released on the failure path. An exception during a write
  skips stop, close and terminate (`PlayerFailureNeverCloses`).
- One might expect the trim to keep the 50 most recent names. It keeps an
  arbitrary 50, because it
  slices `list(set)`.

## Model

| member | source | states |
|---|---|---|
| `LittleEndian.Decode` | TTS/tts_player.py:199 | a little-endian byte string of length k decodes to a value below 256^k |
| `LittleEndian.Encode` | TTS/tts_player.py:199 | encoding to k bytes yields exactly k bytes (the partner of `Decode`) |
| `LittleEndian.DecodeU32` | TTS/tts_player.py:199 | `struct.unpack('<I', ...)` of 4 bytes is below 2^32 |
| `LittleEndian.DecodeEncode` | TTS/tts_player.py:199 | decoding the k-byte encoding of any n < 256^k gives back n |
| `LittleEndian.EncodeDecode` | TTS/tts_player.py:199 | re-encoding a decoded byte string gives back the same bytes |
| `LittleEndian.U32RoundTrip` | TTS/tts_player.py:199 | 4-byte `<I` decoding and encoding are inverse bijections between 4-byte strings and values below 2^32 |
| `WavPayload.FindFrom` | TTS/tts_player.py:196 | like `bytes.find`: the result is the lowest offset where the tag occurs, or None exactly when it occurs nowhere |
| `WavPayload.PrimaryPayloadShape` | TTS/tts_player.py:187-188 | above 44 bytes the payload is `data[44..]` of length len-44; otherwise it is the whole buffer, so it is empty only for the empty buffer |
| `WavPayload.FallbackPayloadShape` | TTS/tts_player.py:191-204 | a fallback payload begins 8 bytes after the first `data` tag, needs a byte there, and has length min(L, len-p-8) for the decoded length L |
| `WavPayload.FallbackFindsChunk` | TTS/tts_player.py:195-204 | prefix + `data` + LE32(L) + tail, with no earlier tag, yields the first min(L, len(tail)) bytes of the tail |
| `WavPayload.FallbackNeverApplies` | TTS/tts_player.py:188-204 | whenever the fallback is consulted it finds nothing, so the payload stays the primary one |
| `WavPayload.ExtractCharacterization` | TTS/tts_player.py:187-213 | extraction succeeds iff the buffer is non-empty and its primary payload has even length, and then returns that payload; empty gives NoAudioData, odd gives OddLength |
| `WavPayload.ExtractedIsWholeSamples` | TTS/tts_player.py:206-213 | an extracted payload is non-empty and a whole number of 16-bit samples |
| `WavPayload.ExtractAfterHeader` | TTS/tts_player.py:187-213 | a 44-byte header plus an even non-empty block extracts to that block; an odd block is refused; a header alone extracts to itself |
| `WavPayload.ShortBufferIsItsOwnPayload` | TTS/tts_player.py:187-213 | every non-empty buffer of at most 44 bytes extracts to itself when its length is even, and fails with OddLength otherwise |
| `Readiness.ReadinessGate` | TTS/tts_player.py:296-303 | the gate is passed iff the first or the second probe is ready; it takes 1 probe iff the first succeeds, else 2 |
| `Readiness.ReadinessCases` | TTS/tts_player.py:117-143 | a missing path or a first size below `min_size` is not ready; otherwise ready iff the two later samples are equal |
| `Readiness.FirstSizeOnlyGatesMinimum` | TTS/tts_player.py:132-143 | changing the first size, while it stays at or above the minimum, does not change the answer |
| `Readiness.ReadyDoesNotBoundLaterSize` | TTS/tts_player.py:132-143 | once the first size reaches the minimum, any two equal later samples are judged ready, even samples below the minimum |
| `Readiness.GateIgnoresSecondAfterSuccess` | TTS/tts_player.py:297-303 | once the first probe is ready the second probe has no influence |
| `AudioSink.Sink.constructor` | TTS/tts_player.py:249-250 | a new output stream has received no event |
| `AudioSink.Sink.Open` | TTS/tts_player.py:259-265 | opening appends one `Opened(channels, width, rate)` event |
| `AudioSink.Sink.Write` | TTS/tts_player.py:273 | a write appends one event carrying the chunk |
| `AudioSink.Sink.Stop` | TTS/tts_player.py:276 | stopping appends one `Stopped` event |
| `AudioSink.Sink.Close` | TTS/tts_player.py:277 | closing appends one `Closed` event |
| `AudioSink.Sink.Terminate` | TTS/tts_player.py:278 | releasing the audio library appends one `Terminated` event |
| `AudioSink.FlattenChunks` | TTS/tts_player.py:270-273 | the 1024-byte chunks concatenate back to the payload |
| `AudioSink.ChunkCount` | TTS/tts_player.py:271 | there are ceil(len/1024) chunks |
| `AudioSink.ChunkAt` | TTS/tts_player.py:271-272 | chunk k is `payload[k*1024 .. min((k+1)*1024, len)]` and starts inside the payload |
| `AudioSink.ChunkSizes` | TTS/tts_player.py:270-272 | every chunk has 1 to 1024 bytes and all but the last have exactly 1024 |
| `AudioSink.ChunkIndexInRange` | TTS/tts_player.py:271 | chunk k exists iff its offset k*1024 is below the payload length |
| `AudioSink.WrittenAppend` | TTS/tts_player.py:273 | the bytes written by two traces in sequence are the concatenation of the bytes each wrote |
| `AudioSink.WrittenWriteEvents` | TTS/tts_player.py:271-273 | one write per piece delivers the concatenation of the pieces |
| `AudioSink.WrittenChunkPrefix` | TTS/tts_player.py:271-273 | writing the first j chunks delivers the first min(j*1024, len) payload bytes |
| `AudioSink.WrittenAllChunks` | TTS/tts_player.py:270-273 | writing every chunk delivers exactly the payload |
| `Player.StreamPayload` | TTS/tts_player.py:259-281 | the loop opens the stream, writes the chunks in order and stops/closes/terminates, or stops at the raising write; trace and result match `StreamPlayback` |
| `Player.PlayWithSink` | TTS/tts_player.py:145-284 | result and trace equal `PlayWithPyAudio`: missing file, size <= 44, failed extraction or no device return false with no event |
| `Player.PlayAudioOn` | TTS/tts_player.py:286-325 | result and trace equal `PlayAudio`: existence, the two-probe gate and size > 44 come before playback |
| `Player.StreamDelivers` | TTS/tts_player.py:259-281 | a successful stream receives exactly the payload and ends with stop, close, terminate; a failed one has received only whole leading chunks and is never stopped or closed |
| `Player.StreamEventOrder` | TTS/tts_player.py:270-278 | no write follows a stop, close or terminate, and every write has 1 to 1024 bytes |
| `Player.PlayerSucceeds` | TTS/tts_player.py:156-284 | playback succeeds iff the file exists, is larger than 44 bytes, extracts, the device opens and no write raises; then the device got the whole conditioned payload and the stream was closed; for a loudness step that keeps the length, that is as many bytes as the extracted payload, a whole number of samples, in at least one write |
| `Player.RejectedFileNeverReachesSink` | TTS/tts_player.py:159-213 | a missing file, a size <= 44, or an empty or odd-length payload returns false and sends no event |
| `Player.PlayerFailureNeverCloses` | TTS/tts_player.py:271-284 | a failed playback never stops, closes or terminates the stream |
| `Player.PlayAudioGates` | TTS/tts_player.py:291-318 | false with no event for a missing file, two failed probes or a size <= 44; otherwise the result of `play_audio_with_pyaudio` |
| `Player.PlayAudioSuccess` | TTS/tts_player.py:286-318 | after success the gate passed, both sizes exceed 44, the payload is non-empty and even, all of it was written and the stream closed; when the bytes match the size, the payload is everything after the header; for a loudness step that keeps the length, the device received exactly as many bytes as the payload, a whole number of samples, in at least one write |
| `Player.HeaderOnlyFileNeverPlayed` | TTS/tts_player.py:305-312 | a file of exactly 44 bytes is never played |
| `Watcher.TrimProcessed` | TTS/tts_player.py:379-382 | above 100 names, the result is some 50 of them; otherwise the set is unchanged |
| `Watcher.Dispatch` | TTS/tts_player.py:356-377 | each unprocessed `.wav` entry is tried exactly once, and exactly the ones that played are added |
| `Watcher.DirectoryWatcher.constructor` | TTS/tts_player.py:340-342 | the watcher starts with no processed names and a file count of 0 |
| `Watcher.DirectoryWatcher.Poll` | TTS/tts_player.py:346-385 | one poll: the file count becomes the number of distinct entries; the unprocessed `.wav` entries are dispatched; successes are added; the trim is applied; at most 100 names remain, all of them played |
| `Watcher.DirectoryWatcher.Run` | TTS/tts_player.py:346-392 | over any run of polls the set stays at most 100 names, all played; every name newly played was a `.wav` entry of some scan that reported it played; the file count is that of the last listing |
| `Watcher.WavSuffixIsCaseSensitive` | TTS/tts_player.py:357-358 | a name passes exactly when it is some stem followed by `.wav`; no stem followed by `.WAV` passes |
| `Watcher.PollBookkeeping` | TTS/tts_player.py:356-382 | dispatched names were unprocessed `.wav` entries; a name that failed stays eligible; every remembered name was remembered before or just played |

## Left out

- Module set-up (TTS/tts_player.py:11-113): logging handlers, creation of the log directory, the search for another cache directory, the write probe and the banner. This is process-level I/O.
- Loudness correction (TTS/tts_player.py:211-243): the RMS with `np.square` wrapping on int16, the 0.001 threshold, the gain of at most 1000 and the clipping. This is floating-point numpy code, so it is the parameter `condition`, and what the device receives is stated in terms of `condition(payload)`. The one property of it the model uses is `KeepsSampleCount`: the step never changes the payload's length. The playback lemmas state their length and whole-sample conclusions under that property.
- The duration printout (TTS/tts_player.py:245-247) and the unused `volume` argument.
- The device queries (TTS/tts_player.py:249-257). A failing `pyaudio.PyAudio()` or `p.open(...)` is `Device.available == false`.
- Player.StreamPayload: exceptions raised by `stop_stream`, `close` or `terminate` are not modelled; only `open` and `write` can fail.
- Sleeps, `os.path.exists`, `os.path.getsize`, file reading and `os.listdir` are replaced by the observed values passed in.
- Watcher.DirectoryWatcher.Poll: the result of `play_audio` for each name is an oracle `playback: string -> bool`, not a call to `Player.PlayAudioOn`. It therefore gives one answer per name within a poll, which matches the source because each name is dispatched at most once per poll.
- The cache-directory check at the start of `monitor_audio_files` (TTS/tts_player.py:334-338), the `KeyboardInterrupt` and generic exception handlers of the loop (TTS/tts_player.py:387-392), and the `while True` loop's infinity. `Run` covers any finite run of polls.
- `main` and the `__main__` block (TTS/tts_player.py:396-444): the single-instance port bind and the library import checks. These are sockets and process exit.
