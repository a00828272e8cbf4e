/**
 * Extraction of the PCM payload from the bytes of a WAV file
 * (`play_audio_with_pyaudio`, TTS/tts_player.py:169-213).
 *
 * The primary path skips a canonical 44-byte RIFF/WAVE header. The fallback
 * path looks for the first `data` chunk tag, decodes the little-endian 32-bit
 * chunk length that follows it and slices the payload, clamped to the end of
 * the buffer. Empty payloads and payloads of odd byte length (which
 * `np.frombuffer(..., dtype=np.int16)` refuses) are errors.
 */
module WavPayload {
  import opened Wrappers
  import opened LittleEndian

  /** Size of the canonical RIFF/WAVE header the primary path skips. */
  const HeaderSize := 44

  /** Width in bytes of one 16-bit PCM sample. */
  const SampleWidth := 2

  /** The ASCII bytes of the `data` chunk tag. */
  const DataTag: seq<Byte> := [0x64, 0x61, 0x74, 0x61]

  datatype ExtractError =
    | NoAudioData   // neither path produced a byte
    | OddLength     // the payload is not a whole number of 16-bit samples

  function Min(a: int, b: int): int { if a <= b then a else b }

  /** `tag` occurs in `data` starting at offset `q`. */
  predicate MatchesAt(data: seq<Byte>, tag: seq<Byte>, q: int)
  {
    0 <= q && q + |tag| <= |data| && data[q..q + |tag|] == tag
  }

  /** The lowest offset at or after `from` where `tag` occurs, as `bytes.find` returns it. */
  function FindFrom(data: seq<Byte>, tag: seq<Byte>, from: nat): (r: Option<nat>)
    ensures r.Some? ==> from <= r.value && MatchesAt(data, tag, r.value)
    ensures r.Some? ==> forall q :: from <= q < r.value ==> !MatchesAt(data, tag, q)
    ensures r.None? ==> forall q :: from <= q ==> !MatchesAt(data, tag, q)
    decreases |data| - from
  {
    if from + |tag| > |data| then None
    else if data[from..from + |tag|] == tag then Some(from)
    else FindFrom(data, tag, from + 1)
  }

  /** Everything after the header when the buffer is longer than a header, otherwise the whole buffer. */
  function PrimaryPayload(data: seq<Byte>): seq<Byte>
  {
    if |data| > HeaderSize then data[HeaderSize..] else data
  }

  /**
   * The payload of the first `data` chunk, or None when there is no tag or
   * no byte after the tag and its length field.
   */
  function FallbackPayload(data: seq<Byte>): Option<seq<Byte>>
  {
    match FindFrom(data, DataTag, 0)
    case None => None
    case Some(p) =>
      if p + 8 < |data| then
        var start := p + 8;
        var declared := DecodeU32(data[p + 4..p + 8]);
        Some(data[start..Min(start + declared, |data|)])
      else None
  }

  /** The bytes handed on as audio before the sample-width check. */
  function AudioBytes(data: seq<Byte>): seq<Byte>
  {
    var primary := PrimaryPayload(data);
    if |primary| == 0 then
      match FallbackPayload(data)
      case Some(found) => found
      case None => primary
    else primary
  }

  /** The PCM payload of a WAV buffer, or why there is none. */
  function Extract(data: seq<Byte>): Result<seq<Byte>, ExtractError>
  {
    var audio := AudioBytes(data);
    if |audio| == 0 then Err(NoAudioData)
    else if |audio| % SampleWidth != 0 then Err(OddLength)
    else Ok(audio)
  }

  // ---------------------------------------------------------------------------
  // Properties

  /** The primary path drops exactly the header when there is more than a header. */
  lemma PrimaryPayloadShape(data: seq<Byte>)
    ensures |data| > HeaderSize ==>
      PrimaryPayload(data) == data[HeaderSize..] && |PrimaryPayload(data)| == |data| - HeaderSize
    ensures |data| <= HeaderSize ==> PrimaryPayload(data) == data
    ensures PrimaryPayload(data) == [] <==> data == []
  {
  }

  /**
   * The fallback payload starts right after the first `data` tag and its
   * length field, and holds the declared number of bytes clamped to the
   * end of the buffer.
   */
  lemma FallbackPayloadShape(data: seq<Byte>)
    requires FallbackPayload(data).Some?
    ensures var p := FindFrom(data, DataTag, 0);
      && p.Some?
      && data[p.value..p.value + 4] == DataTag
      && (forall q :: 0 <= q < p.value ==> !MatchesAt(data, DataTag, q))
      && p.value + 8 < |data|
      && var declared := DecodeU32(data[p.value + 4..p.value + 8]);
         FallbackPayload(data).value == data[p.value + 8..Min(p.value + 8 + declared, |data|)]
         && |FallbackPayload(data).value| == Min(declared, |data| - p.value - 8)
  {
  }

  /**
   * A buffer made of bytes free of the tag, the tag, an encoded 32-bit length
   * and a tail yields the tail, cut to the declared length.
   */
  lemma FallbackFindsChunk(prefix: seq<Byte>, declared: nat, tail: seq<Byte>)
    requires declared < 0x1_0000_0000 && tail != []
    requires forall q :: 0 <= q < |prefix| ==> !MatchesAt(prefix + DataTag + Encode(declared, 4) + tail, DataTag, q)
    ensures FallbackPayload(prefix + DataTag + Encode(declared, 4) + tail)
         == Some(tail[..Min(declared, |tail|)])
  {
    var data := prefix + DataTag + Encode(declared, 4) + tail;
    var p := |prefix|;
    assert data[p..p + 4] == DataTag;
    assert MatchesAt(data, DataTag, p);
    var found := FindFrom(data, DataTag, 0);
    assert found == Some(p);
    assert data[p + 4..p + 8] == Encode(declared, 4);
    U32RoundTrip(declared, data[p + 4..p + 8]);
    assert DecodeU32(data[p + 4..p + 8]) == declared;
    assert p + 8 < |data|;
    var stop := Min(p + 8 + declared, |data|);
    assert stop - (p + 8) == Min(declared, |tail|);
    assert data[p + 8..stop] == tail[..Min(declared, |tail|)];
  }

  /**
   * The fallback is consulted only when the primary payload is empty, and
   * that happens only for the empty buffer, where no tag can be found: the
   * fallback never changes the outcome.
   */
  lemma FallbackNeverApplies(data: seq<Byte>)
    requires PrimaryPayload(data) == []
    ensures FallbackPayload(data) == None
    ensures AudioBytes(data) == PrimaryPayload(data)
  {
  }

  /**
   * Extraction succeeds exactly for a non-empty buffer whose primary payload
   * is a whole number of samples, and then yields that payload.
   */
  lemma ExtractCharacterization(data: seq<Byte>)
    ensures Extract(data).Ok? <==> data != [] && |PrimaryPayload(data)| % SampleWidth == 0
    ensures Extract(data).Ok? ==> Extract(data).value == PrimaryPayload(data)
    ensures data == [] ==> Extract(data) == Err(NoAudioData)
    ensures data != [] && |PrimaryPayload(data)| % SampleWidth != 0 ==> Extract(data) == Err(OddLength)
  {
  }

  /** Whatever extraction returns is non-empty and a whole number of 16-bit samples. */
  lemma ExtractedIsWholeSamples(data: seq<Byte>)
    requires Extract(data).Ok?
    ensures |Extract(data).value| > 0 && |Extract(data).value| % SampleWidth == 0
  {
  }

  /** A 44-byte header followed by an even, non-empty PCM block extracts to that block. */
  lemma ExtractAfterHeader(header: seq<Byte>, pcm: seq<Byte>)
    requires |header| == HeaderSize
    ensures pcm != [] && |pcm| % SampleWidth == 0 ==> Extract(header + pcm) == Ok(pcm)
    ensures pcm != [] && |pcm| % SampleWidth != 0 ==> Extract(header + pcm) == Err(OddLength)
    ensures pcm == [] ==> Extract(header + pcm) == Ok(header)
  {
    assert (header + pcm)[HeaderSize..] == pcm;
    if pcm == [] {
      assert header + pcm == header;
    }
  }

  /**
   * Extraction alone does not reject short buffers: a non-empty buffer of at
   * most a header's length is its own payload when it holds whole samples,
   * and an odd-length error otherwise. Only the caller's file-size check
   * keeps such files out.
   */
  lemma ShortBufferIsItsOwnPayload(data: seq<Byte>)
    requires 0 < |data| <= HeaderSize
    ensures |data| % SampleWidth == 0 ==> Extract(data) == Ok(data)
    ensures |data| % SampleWidth != 0 ==> Extract(data) == Err(OddLength)
  {
  }
}
