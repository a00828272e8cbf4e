/**
 * The audio output stream as a trace of events, and the 1024-byte chunking of
 * the write loop in `play_audio_with_pyaudio` (TTS/tts_player.py:259-278).
 */
module AudioSink {
  import opened LittleEndian

  /** Bytes per `stream.write` call. */
  const ChunkSize := 1024

  datatype SinkEvent =
    | Opened(channels: int, sampleWidth: int, frameRate: int)
    | Wrote(chunk: seq<Byte>)
    | Stopped
    | Closed
    | Terminated

  /** The pieces `payload[i:i+1024]` for `i` in `range(0, len(payload), 1024)`. */
  function Chunks(payload: seq<Byte>): seq<seq<Byte>>
    decreases |payload|
  {
    if payload == [] then []
    else if |payload| <= ChunkSize then [payload]
    else [payload[..ChunkSize]] + Chunks(payload[ChunkSize..])
  }

  /** The concatenation of `pieces`, in order. */
  function Flatten(pieces: seq<seq<Byte>>): seq<Byte>
  {
    if pieces == [] then [] else pieces[0] + Flatten(pieces[1..])
  }

  /** One write event per piece, in order. */
  function WriteEvents(pieces: seq<seq<Byte>>): (events: seq<SinkEvent>)
    ensures |events| == |pieces|
    ensures forall i :: 0 <= i < |pieces| ==> events[i] == Wrote(pieces[i])
  {
    seq(|pieces|, i requires 0 <= i < |pieces| => Wrote(pieces[i]))
  }

  /** The bytes that reached the device: the chunks of the write events, in order. */
  function Written(events: seq<SinkEvent>): seq<Byte>
  {
    if events == [] then []
    else (if events[0].Wrote? then events[0].chunk else []) + Written(events[1..])
  }

  /** An output stream, seen through the events it has received. */
  class Sink {
    var trace: seq<SinkEvent>

    constructor ()
      ensures trace == []
    {
      trace := [];
    }

    method Open(channels: int, sampleWidth: int, frameRate: int)
      modifies this
      ensures trace == old(trace) + [Opened(channels, sampleWidth, frameRate)]
    {
      trace := trace + [Opened(channels, sampleWidth, frameRate)];
    }

    method Write(chunk: seq<Byte>)
      modifies this
      ensures trace == old(trace) + [Wrote(chunk)]
    {
      trace := trace + [Wrote(chunk)];
    }

    method Stop()
      modifies this
      ensures trace == old(trace) + [Stopped]
    {
      trace := trace + [Stopped];
    }

    method Close()
      modifies this
      ensures trace == old(trace) + [Closed]
    {
      trace := trace + [Closed];
    }

    method Terminate()
      modifies this
      ensures trace == old(trace) + [Terminated]
    {
      trace := trace + [Terminated];
    }
  }

  // ---------------------------------------------------------------------------
  // Properties of the chunking

  /** Concatenating the chunks gives back the payload. */
  lemma {:induction false} FlattenChunks(payload: seq<Byte>)
    ensures Flatten(Chunks(payload)) == payload
    decreases |payload|
  {
    if |payload| > ChunkSize {
      FlattenChunks(payload[ChunkSize..]);
      assert payload[..ChunkSize] + payload[ChunkSize..] == payload;
    } else if payload != [] {
      assert Flatten(Chunks(payload)) == payload + [];
    }
  }

  /** There are `ceil(len / 1024)` chunks. */
  lemma {:induction false} ChunkCount(payload: seq<Byte>)
    ensures |Chunks(payload)| == (|payload| + ChunkSize - 1) / ChunkSize
    decreases |payload|
  {
    if |payload| > ChunkSize {
      ChunkCount(payload[ChunkSize..]);
    }
  }

  /** Chunk `k` starts at offset `k * 1024` and ends 1024 bytes later or at the end of the payload. */
  lemma {:induction false} ChunkAt(payload: seq<Byte>, k: nat)
    requires k < |Chunks(payload)|
    ensures k * ChunkSize < |payload|
    ensures Chunks(payload)[k] == payload[k * ChunkSize..if (k + 1) * ChunkSize <= |payload| then (k + 1) * ChunkSize else |payload|]
    decreases |payload|
  {
    if |payload| > ChunkSize && k > 0 {
      var rest := payload[ChunkSize..];
      ChunkAt(rest, k - 1);
      assert rest[(k - 1) * ChunkSize..] == payload[k * ChunkSize..];
    }
  }

  /** Every chunk is non-empty and at most 1024 bytes; all but the last are exactly 1024. */
  lemma {:induction false} ChunkSizes(payload: seq<Byte>)
    ensures forall k :: 0 <= k < |Chunks(payload)| ==>
      0 < |Chunks(payload)[k]| <= ChunkSize
      && (k < |Chunks(payload)| - 1 ==> |Chunks(payload)[k]| == ChunkSize)
    decreases |payload|
  {
    if |payload| > ChunkSize {
      ChunkSizes(payload[ChunkSize..]);
    }
  }

  /** A chunk index is in range exactly when its offset is inside the payload. */
  lemma ChunkIndexInRange(payload: seq<Byte>, k: nat)
    ensures k < |Chunks(payload)| <==> k * ChunkSize < |payload|
  {
    ChunkCount(payload);
  }

  // ---------------------------------------------------------------------------
  // Properties of the trace

  lemma {:induction false} WrittenAppend(a: seq<SinkEvent>, b: seq<SinkEvent>)
    ensures Written(a + b) == Written(a) + Written(b)
  {
    if a != [] {
      assert (a + b)[1..] == a[1..] + b;
      WrittenAppend(a[1..], b);
    } else {
      assert a + b == b;
    }
  }

  /** The bytes written by one event per piece are the pieces' concatenation. */
  lemma {:induction false} WrittenWriteEvents(pieces: seq<seq<Byte>>)
    ensures Written(WriteEvents(pieces)) == Flatten(pieces)
  {
    if pieces != [] {
      assert WriteEvents(pieces)[1..] == WriteEvents(pieces[1..]);
      WrittenWriteEvents(pieces[1..]);
    }
  }

  /** Writing the first `j` chunks delivers the first `j * 1024` bytes (or all of them). */
  lemma {:induction false} WrittenChunkPrefix(payload: seq<Byte>, j: nat)
    requires j <= |Chunks(payload)|
    ensures Written(WriteEvents(Chunks(payload)[..j]))
         == payload[..if j * ChunkSize <= |payload| then j * ChunkSize else |payload|]
    decreases |payload|
  {
    var cs := Chunks(payload);
    WrittenWriteEvents(cs[..j]);
    if j == 0 {
    } else if |payload| <= ChunkSize {
      assert cs[..j] == [payload];
      assert Flatten([payload]) == payload + [];
    } else {
      var rest := payload[ChunkSize..];
      assert cs[..j] == [payload[..ChunkSize]] + Chunks(rest)[..j - 1];
      assert Flatten(cs[..j]) == payload[..ChunkSize] + Flatten(Chunks(rest)[..j - 1]);
      WrittenChunkPrefix(rest, j - 1);
      WrittenWriteEvents(Chunks(rest)[..j - 1]);
      var m := if (j - 1) * ChunkSize <= |rest| then (j - 1) * ChunkSize else |rest|;
      assert payload[..ChunkSize] + rest[..m] == payload[..ChunkSize + m];
    }
  }

  /** Writing every chunk delivers exactly the payload. */
  lemma WrittenAllChunks(payload: seq<Byte>)
    ensures Written(WriteEvents(Chunks(payload))) == payload
  {
    WrittenWriteEvents(Chunks(payload));
    FlattenChunks(payload);
  }
}
