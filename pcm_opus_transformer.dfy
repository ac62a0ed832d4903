/** The inbound resegmenter: PCM chunks in, one encoder call per fixed-size
    PCM frame, encoder output pushed in the same order. The encoder is
    foreign: it is the function `encode` the transformer is built with. */
module PcmOpus {
  import opened Bytes
  import opened Reseg

  const DEFAULT_FRAME_SIZE: nat := 2880
  const DEFAULT_PCM_SIZE: nat := 11520

  /** An option left at zero (or absent) falls back to the default. */
  function OrDefault(option: nat, default: nat): (v: nat)
    ensures option == 0 ==> v == default
    ensures option != 0 ==> v == option
  {
    if option == 0 then default else option
  }

  /** What one `_transform` call hands to the encoder and what it leaves in
      the buffer, given the bytes already buffered and the chunk. Below one
      frame in total everything is buffered. Otherwise a partly filled buffer
      is topped up from the chunk and encoded at once, then frames are cut
      from the rest of the chunk, keeping the last full one back. */
  function TransformStep(pending: seq<byte>, chunk: seq<byte>, pcmSize: nat): (r: Segments)
    requires pcmSize > 0 && |pending| <= pcmSize
    // Every frame handed to the encoder is exactly pcmSize bytes, and the
    // buffer never holds more than one frame.
    ensures forall k :: 0 <= k < |r.frames| ==> |r.frames[k]| == pcmSize
    ensures |r.rest| <= pcmSize
  {
    var combined := pending + chunk;
    if |combined| < pcmSize then Segments([], combined)
    else if |pending| > 0 then
      var s := Cut(combined[pcmSize..], pcmSize);
      Segments([combined[..pcmSize]] + s.frames, s.rest)
    else Cut(chunk, pcmSize)
  }

  /** The frames handed to the encoder, then what stays buffered, are exactly
      the buffered bytes followed by the chunk. */
  lemma TransformStepConserves(pending: seq<byte>, chunk: seq<byte>, pcmSize: nat)
    requires pcmSize > 0 && |pending| <= pcmSize
    ensures var r := TransformStep(pending, chunk, pcmSize);
      Flatten(r.frames) + r.rest == pending + chunk
  {
    var combined := pending + chunk;
    if |combined| >= pcmSize {
      if |pending| > 0 {
        var s := Cut(combined[pcmSize..], pcmSize);
        CutExtends([combined[..pcmSize]], combined[pcmSize..], pcmSize);
        assert Flatten([combined[..pcmSize]]) == combined[..pcmSize];
        assert combined[..pcmSize] + combined[pcmSize..] == combined;
      } else {
        CutConserves(chunk, pcmSize);
      }
    }
  }

  /** Conservation across calls: frames already encoded, then this call's
      frames and what it buffers, are the old stream followed by the chunk. */
  lemma TransformStepExtends(emitted: seq<seq<byte>>, pending: seq<byte>, chunk: seq<byte>, pcmSize: nat)
    requires pcmSize > 0 && |pending| <= pcmSize
    ensures var r := TransformStep(pending, chunk, pcmSize);
      Flatten(emitted + r.frames) + r.rest == (Flatten(emitted) + pending) + chunk
  {
    var r := TransformStep(pending, chunk, pcmSize);
    TransformStepConserves(pending, chunk, pcmSize);
    FlattenAppend(emitted, r.frames);
    AppendAssoc(Flatten(emitted), Flatten(r.frames), r.rest);
    AppendAssoc(Flatten(emitted), pending, chunk);
  }

  /** A partly filled buffer completed by the chunk is encoded first, as the
      buffered bytes followed by the chunk's first pcmSize - |pending| bytes. */
  lemma TopUpEncodedFirst(pending: seq<byte>, chunk: seq<byte>, pcmSize: nat)
    requires pcmSize > 0 && 0 < |pending| <= pcmSize && |pending| + |chunk| >= pcmSize
    ensures var r := TransformStep(pending, chunk, pcmSize);
      |r.frames| > 0 && r.frames[0] == pending + chunk[..pcmSize - |pending|]
  {
    var combined := pending + chunk;
    assert combined[..pcmSize] == pending + chunk[..pcmSize - |pending|];
  }

  /** The two ways an exact frame can arrive: completing a partly filled
      buffer encodes it immediately; arriving whole into an empty buffer
      leaves it buffered (index == pcmSize) for the next call or flush. */
  lemma ExactFrameCases(pending: seq<byte>, chunk: seq<byte>, pcmSize: nat)
    requires pcmSize > 0 && |pending| <= pcmSize && |pending| + |chunk| == pcmSize
    ensures |pending| > 0 ==> TransformStep(pending, chunk, pcmSize) == Segments([pending + chunk], [])
    ensures |pending| == 0 ==> TransformStep(pending, chunk, pcmSize) == Segments([], chunk)
  {
    var combined := pending + chunk;
    if |pending| > 0 {
      assert combined[..pcmSize] == combined;
      assert combined[pcmSize..] == [];
    }
  }

  class PCMOpusTransformer {
    const frameSize: nat
    const pcmSize: nat
    const encode: (seq<byte>, nat) -> seq<byte>
    /** Whether the encoder object has a `delete` method. */
    const encoderHasDelete: bool
    /** The preallocated frame buffer and its fill level `buf._index`. */
    const buf: array<byte>
    var index: nat
    /** The PCM frames handed to the encoder, and the outputs pushed, in order. */
    var calls: seq<seq<byte>>
    var out: seq<seq<byte>>
    var encoderDeleted: bool
    /** Every byte given to Transform, with the zero padding Flush added. */
    ghost var stream: seq<byte>

    function Buffered(): seq<byte>
      reads this, buf
      requires index <= buf.Length
    {
      buf[..index]
    }

    /** Each output is the encoding of the frame at the same position. */
    ghost predicate OutputsMatch()
      reads this
    {
      |out| == |calls| &&
      forall k :: 0 <= k < |calls| ==> |calls[k]| == pcmSize && out[k] == encode(calls[k], frameSize)
    }

    ghost predicate Valid()
      reads this, buf
    {
      pcmSize > 0 && buf.Length == pcmSize && index <= pcmSize &&
      OutputsMatch() &&
      Flatten(calls) + buf[..index] == stream
    }

    constructor (encode: (seq<byte>, nat) -> seq<byte>, encoderHasDelete: bool, frameSizeOption: nat, pcmSizeOption: nat)
      ensures Valid() && fresh(buf)
      ensures frameSize == OrDefault(frameSizeOption, DEFAULT_FRAME_SIZE)
      ensures pcmSize == OrDefault(pcmSizeOption, DEFAULT_PCM_SIZE)
      ensures this.encode == encode && this.encoderHasDelete == encoderHasDelete
      ensures index == 0 && calls == [] && out == [] && stream == [] && !encoderDeleted
    {
      this.encode := encode;
      this.encoderHasDelete := encoderHasDelete;
      frameSize := OrDefault(frameSizeOption, DEFAULT_FRAME_SIZE);
      pcmSize := OrDefault(pcmSizeOption, DEFAULT_PCM_SIZE);
      buf := new byte[OrDefault(pcmSizeOption, DEFAULT_PCM_SIZE)];
      index := 0;
      calls := [];
      out := [];
      encoderDeleted := false;
      stream := [];
    }

    /** `_destroy`: release the encoder if it can be released. */
    method Destroy()
      modifies this`encoderDeleted
      ensures encoderDeleted == (old(encoderDeleted) || encoderHasDelete)
    {
      if encoderHasDelete {
        encoderDeleted := true;
      }
    }

    /** Encode one pcmSize frame with the configured frame size and emit the packet. */
    method PushEncoded(pcm: seq<byte>)
      requires OutputsMatch() && |pcm| == pcmSize
      modifies this`calls, this`out
      ensures OutputsMatch()
      ensures calls == old(calls) + [pcm] && out == old(out) + [encode(pcm, frameSize)]
    {
      calls := calls + [pcm];
      out := out + [encode(pcm, frameSize)];
    }

    /** `_flush`: a non-empty buffer is zero-filled to pcmSize, encoded, and emptied. */
    method Flush()
      requires Valid()
      modifies this`index, this`calls, this`out, this`stream, buf
      ensures Valid() && encoderDeleted == old(encoderDeleted)
      ensures old(index) == 0 ==>
        calls == old(calls) && out == old(out) && index == 0 && stream == old(stream) && buf[..] == old(buf[..])
      ensures old(index) > 0 ==>
        var frame := old(Buffered()) + Zeros(pcmSize - old(index));
        calls == old(calls) + [frame] && buf[..] == frame && index == 0 &&
        stream == old(stream) + Zeros(pcmSize - old(index))
    {
      if index > 0 {
        ghost var pending := buf[..index];
        ghost var flat := Flatten(calls);
        Fill(buf, 0, index, pcmSize);
        assert buf[..] == pending + Zeros(pcmSize - index);
        PushEncoded(buf[..]);
        stream := stream + Zeros(pcmSize - index);
        index := 0;
        FlattenAppend(old(calls), [buf[..]]);
        AppendAssoc(flat, pending, Zeros(pcmSize - old(index)));
      }
    }

    /** `_transform`, proved against TransformStep. */
    method Transform(chunk: seq<byte>)
      requires Valid()
      modifies this`index, this`calls, this`out, this`stream, buf
      ensures Valid() && encoderDeleted == old(encoderDeleted)
      ensures stream == old(stream) + chunk
      ensures var r := TransformStep(old(Buffered()), chunk, pcmSize);
        calls == old(calls) + r.frames && Buffered() == r.rest
    {
      ghost var pending := buf[..index];
      ghost var calls0 := calls;
      ghost var r := TransformStep(pending, chunk, pcmSize);
      TransformStepExtends(calls0, pending, chunk, pcmSize);
      stream := stream + chunk;
      if index + |chunk| < pcmSize {
        BufferAll(chunk);
      } else {
        EncodeAndKeepRest(chunk);
      }
    }

    /** The rest of `_transform` once the buffer and chunk hold at least one
        frame: top up and encode a partly filled buffer, encode the frames
        cut from the chunk, and buffer what is held back. */
    method EncodeAndKeepRest(chunk: seq<byte>)
      requires OutputsMatch() && pcmSize > 0 && buf.Length == pcmSize && index <= pcmSize
      requires index + |chunk| >= pcmSize
      modifies this`calls, this`out, this`index, buf
      ensures OutputsMatch() && index <= pcmSize
      ensures var r := TransformStep(old(buf[..index]), chunk, pcmSize);
        calls == old(calls) + r.frames && buf[..index] == r.rest
    {
      ghost var pending := buf[..index];
      ghost var combined := pending + chunk;
      ghost var calls0 := calls;
      ghost var r := TransformStep(pending, chunk, pcmSize);
      var chunkIndex: nat := 0;
      ghost var firsts: seq<seq<byte>> := [];
      if index > 0 {
        chunkIndex := TopUp(chunk);
        firsts := [combined[..pcmSize]];
        assert combined[..pcmSize] == pending + chunk[..chunkIndex];
        assert chunk[chunkIndex..] == combined[pcmSize..];
      } else {
        assert chunk[chunkIndex..] == chunk;
      }
      assert calls == calls0 + firsts;
      ghost var s := Cut(chunk[chunkIndex..], pcmSize);
      assert r.frames == firsts + s.frames && r.rest == s.rest;
      chunkIndex := EncodeFrames(chunk, chunkIndex);
      AppendAssoc(calls0, firsts, s.frames);
      if chunkIndex < |chunk| {
        index := Copy(chunk, chunkIndex, |chunk|, buf, 0);
        assert buf[..index] == chunk[chunkIndex..];
      }
    }

    /** The short-input branch of `_transform`: the whole chunk fits and is
        appended to the buffer. */
    method BufferAll(chunk: seq<byte>)
      requires buf.Length == pcmSize && index + |chunk| < pcmSize
      modifies this`index, buf
      ensures index == old(index) + |chunk| && buf[..index] == old(buf[..index]) + chunk
    {
      var n := Copy(chunk, 0, |chunk|, buf, index);
      index := index + n;
    }

    /** The top-up branch of `_transform`: complete the partly filled buffer
        from the front of the chunk, encode it, and empty it. Returns how
        many bytes of the chunk were used. */
    method TopUp(chunk: seq<byte>) returns (used: nat)
      requires OutputsMatch() && buf.Length == pcmSize && 0 < index <= pcmSize && index + |chunk| >= pcmSize
      modifies this`calls, this`out, this`index, buf
      ensures OutputsMatch()
      ensures used == pcmSize - old(index) && used <= |chunk|
      ensures calls == old(calls) + [old(buf[..index]) + chunk[..used]]
      ensures index == 0
    {
      used := Copy(chunk, 0, |chunk|, buf, index);
      assert buf[..] == old(buf[..index]) + chunk[..used];
      PushEncoded(buf[..]);
      index := 0;
    }

    /** The loop of `_transform`: encode every frame `Cut` takes from
        `chunk[start..]`, and return where the held-back rest starts. */
    method EncodeFrames(chunk: seq<byte>, start: nat) returns (chunkIndex: nat)
      requires OutputsMatch() && start <= |chunk| && pcmSize > 0
      modifies this`calls, this`out
      ensures OutputsMatch()
      ensures start <= chunkIndex <= |chunk| && chunk[chunkIndex..] == Cut(chunk[start..], pcmSize).rest
      ensures calls == old(calls) + Cut(chunk[start..], pcmSize).frames
    {
      ghost var s := Cut(chunk[start..], pcmSize);
      ghost var calls0 := calls;
      ghost var done: seq<seq<byte>> := [];
      chunkIndex := start;
      assert chunk[chunkIndex..] == chunk[start..];
      while chunkIndex + pcmSize < |chunk|
        invariant start <= chunkIndex <= |chunk|
        invariant done + Cut(chunk[chunkIndex..], pcmSize).frames == s.frames
        invariant Cut(chunk[chunkIndex..], pcmSize).rest == s.rest
        invariant calls == calls0 + done
        invariant OutputsMatch()
        decreases |chunk| - chunkIndex
      {
        var frame := chunk[chunkIndex..chunkIndex + pcmSize];
        CutStep(chunk, chunkIndex, pcmSize);
        AppendAssoc(done, [frame], Cut(chunk[chunkIndex + pcmSize..], pcmSize).frames);
        chunkIndex := chunkIndex + pcmSize;
        PushEncoded(chunk[chunkIndex - pcmSize..chunkIndex]);
        done := done + [frame];
      }
      CutShort(chunk, chunkIndex, pcmSize);
      assert done == s.frames;
    }
  }
}
