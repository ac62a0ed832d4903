/** The outbound packetizer: PCM chunks in, VBAN packets out. */
module PcmVban {
  import opened Wrappers
  import opened Bytes
  import opened Reseg
  import opened VbanHeader

  /** A sample count left at zero (or absent) falls back to 256 per packet. */
  function NbSampleOf(option: nat): (n: nat)
    ensures n == if option == 0 then 256 else option
    ensures option <= 256 ==> 1 <= n <= 256
  {
    if option == 0 then 256 else option
  }

  /** The packets `frames` become when the k-th of them (from 0) goes out as
      packet number start + k + 1: that packet's header, then the frame. */
  function Packets(name: seq<byte>, samplesByte: byte, start: nat, frames: seq<seq<byte>>): (ps: seq<seq<byte>>)
    ensures |ps| == |frames|
  {
    if frames == [] then []
    else
      var n := |frames| - 1;
      Packets(name, samplesByte, start, frames[..n]) + [HeaderBytes(name, samplesByte, (start + n + 1) % COUNTER_MOD) + frames[n]]
  }

  lemma PacketsSnoc(name: seq<byte>, samplesByte: byte, start: nat, frames: seq<seq<byte>>, f: seq<byte>)
    ensures Packets(name, samplesByte, start, frames + [f])
         == Packets(name, samplesByte, start, frames) + [HeaderBytes(name, samplesByte, (start + |frames| + 1) % COUNTER_MOD) + f]
  {
    assert (frames + [f])[..|frames|] == frames;
  }

  /** Packet k (from 0) is the header with counter (start + k + 1) mod 2^32,
      then frame k. */
  lemma {:induction false} PacketAt(name: seq<byte>, samplesByte: byte, start: nat, frames: seq<seq<byte>>, k: nat)
    requires k < |frames|
    ensures Packets(name, samplesByte, start, frames)[k]
         == HeaderBytes(name, samplesByte, (start + k + 1) % COUNTER_MOD) + frames[k]
    decreases |frames|
  {
    var n := |frames| - 1;
    if k < n {
      PacketAt(name, samplesByte, start, frames[..n], k);
    }
  }

  /** Every packet is a 28-byte header, carrying the sample byte, the name
      field and its counter, followed by exactly its frame. */
  lemma PacketShape(name: seq<byte>, samplesByte: byte, start: nat, frames: seq<seq<byte>>, k: nat)
    requires k < |frames|
    ensures var p := Packets(name, samplesByte, start, frames)[k];
      |p| == HEADER_SIZE + |frames[k]| &&
      p[..4] == MAGIC && p[4] == 3 && p[5] == samplesByte && p[6] == 1 && p[7] == 1 &&
      p[8..24] == NameField(name) &&
      ReadLE32(p[24..28]) == (start + k + 1) % COUNTER_MOD &&
      p[HEADER_SIZE..] == frames[k]
  {
    PacketAt(name, samplesByte, start, frames, k);
    var h := HeaderBytes(name, samplesByte, (start + k + 1) % COUNTER_MOD);
    HeaderLayout(name, samplesByte, (start + k + 1) % COUNTER_MOD);
    var p := h + frames[k];
    assert p[..4] == h[..4] && p[8..24] == h[8..24] && p[24..28] == h[24..28];
  }

  /** Consecutive packets carry consecutive counters: each is `_genHeader`'s
      step from the one before, wrapping at 2^32. */
  lemma ConsecutiveCounters(name: seq<byte>, samplesByte: byte, start: nat, frames: seq<seq<byte>>, k: nat)
    requires k + 1 < |frames|
    ensures var ps := Packets(name, samplesByte, start, frames);
      |ps[k]| >= HEADER_SIZE && |ps[k + 1]| >= HEADER_SIZE &&
      ReadLE32(ps[k + 1][24..28]) == NextCounter(ReadLE32(ps[k][24..28]))
  {
    PacketShape(name, samplesByte, start, frames, k);
    PacketShape(name, samplesByte, start, frames, k + 1);
    NextCounterOfCount(start + k + 1);
  }

  /** The packets `_transform` cuts from a run of bytes: packet k is a
      header then bytes [k * size, (k + 1) * size) of the run, exactly one
      frame of payload. */
  lemma CutPacketAt(name: seq<byte>, samplesByte: byte, start: nat, data: seq<byte>, size: nat, k: nat)
    requires size > 0 && k < |Cut(data, size).frames|
    ensures (k + 1) * size <= |data|
    ensures var p := Packets(name, samplesByte, start, Cut(data, size).frames)[k];
      |p| == HEADER_SIZE + size && p[5] == samplesByte && p[HEADER_SIZE..] == data[k * size..(k + 1) * size]
  {
    CutFrameAt(data, size, k);
    PacketShape(name, samplesByte, start, Cut(data, size).frames, k);
  }

  method WriteFixedPart(h: array<byte>, samplesByte: byte)
    requires h.Length == HEADER_SIZE
    modifies h
    ensures h[..8] == FixedPart(samplesByte) && h[8..] == old(h[8..])
  {
    h[0], h[1], h[2], h[3] := MAGIC[0], MAGIC[1], MAGIC[2], MAGIC[3];
    h[4] := SpSr(SP_AUDIO, SR_INDEX_48000);
    h[5] := samplesByte;
    h[6] := (NB_CHANNEL - 1) as byte;
    h[7] := DfCodec(CODEC_PCM, DATATYPE_INT16);
  }

  /** Zero the 16-byte name field at offset 8, then copy at most 16 name bytes into it. */
  method WriteName(h: array<byte>, name: seq<byte>)
    requires h.Length == HEADER_SIZE
    modifies h
    ensures h[..8] == old(h[..8]) && h[8..24] == NameField(name) && h[24..] == old(h[24..])
  {
    Fill(h, 0, 8, 24);
    var copied := Copy(name, 0, NAME_SIZE, h, 8);
    forall i | 8 <= i < 24
      ensures h[i] == NameField(name)[i - 8]
    {
    }
  }

  /** Store the counter little-endian in the last four header bytes. */
  method WriteCounter(h: array<byte>, counter: nat)
    requires h.Length == HEADER_SIZE && counter < COUNTER_MOD
    modifies h
    ensures h[..] == old(h[..24]) + LE32(counter)
  {
    var c := LE32(counter);
    h[24], h[25], h[26], h[27] := c[0], c[1], c[2], c[3];
  }

  /** The constructor's header build. */
  method WriteHeader(h: array<byte>, name: seq<byte>, samplesByte: byte, counter: nat)
    requires h.Length == HEADER_SIZE && counter < COUNTER_MOD
    modifies h
    ensures h[..] == HeaderBytes(name, samplesByte, counter)
  {
    WriteFixedPart(h, samplesByte);
    WriteName(h, name);
    ghost var front := h[..24];
    assert front == FixedPart(samplesByte) + NameField(name);
    WriteCounter(h, counter);
  }

  class PCMVBANTransformer {
    const streamName: seq<byte>
    const nbSample: nat
    const nbChannel: nat
    const frameSize: nat
    /** The header buffer, rewritten in place for every packet. */
    const header: array<byte>
    var frameNo: nat
    /** `null` is None; note that an empty Buffer is not null. */
    var remainder: Option<seq<byte>>
    /** Every packet pushed so far, oldest first. */
    var out: seq<seq<byte>>

    /** All bytes given to Transform, and the payloads Transform has packetized. */
    ghost var input: seq<byte>
    ghost var framed: seq<seq<byte>>

    function Pending(): seq<byte>
      reads this
    {
      if remainder.Some? then remainder.value else []
    }

    function SamplesByte(): byte
      reads this
      requires 1 <= nbSample <= 256
    {
      (nbSample - 1) as byte
    }

    /** The counter counts the packets pushed, and the header buffer holds the
        header of the last one (all zeros in the counter before the first). */
    ghost predicate HeaderValid()
      reads this, header
    {
      1 <= nbSample <= 256 && nbChannel == NB_CHANNEL &&
      frameSize == 4 * nbSample &&
      frameNo < COUNTER_MOD && frameNo == |out| % COUNTER_MOD &&
      header.Length == HEADER_SIZE &&
      header[..] == HeaderBytes(streamName, SamplesByte(), frameNo)
    }

    ghost predicate Valid()
      reads this, header
    {
      HeaderValid() &&
      (remainder.Some? ==> |remainder.value| <= frameSize) &&
      Flatten(framed) + Pending() == input
    }

    constructor (streamName: seq<byte>, nbSampleOption: nat)
      requires nbSampleOption <= 256
      ensures Valid() && fresh(header)
      ensures this.streamName == streamName && nbSample == NbSampleOf(nbSampleOption)
      ensures frameSize == nbSample * 4 && frameSize == (if nbSampleOption == 0 then 1024 else nbSampleOption * 4)
      ensures frameNo == 0 && remainder == None && out == [] && input == [] && framed == []
    {
      this.streamName := streamName;
      nbSample := NbSampleOf(nbSampleOption);
      nbChannel := NB_CHANNEL;
      frameSize := NbSampleOf(nbSampleOption) * NB_CHANNEL * 2;
      frameNo := 0;
      header := new byte[HEADER_SIZE];
      remainder := None;
      out := [];
      input := [];
      framed := [];
      new;
      WriteHeader(header, streamName, (nbSample - 1) as byte, frameNo);
    }

    /** `_genHeader`: bump the counter (wrapping), write it into bytes 24..28. */
    method GenHeader() returns (h: seq<byte>)
      requires header.Length == HEADER_SIZE && frameNo < COUNTER_MOD
      modifies this`frameNo, header
      ensures frameNo == NextCounter(old(frameNo))
      ensures header[..] == old(header[..24]) + LE32(frameNo)
      ensures h == header[..]
    {
      frameNo := frameNo + 1;
      if frameNo > 4294967295 {
        frameNo := 0;
      }
      WriteCounter(header, frameNo);
      h := header[..];
    }

    /** `_transform`: join the held remainder and the chunk; below one frame keep
        it all; otherwise cut frames with `Cut` and push each behind a fresh header. */
    method Transform(chunk: seq<byte>)
      requires Valid()
      modifies this, header
      ensures Valid()
      ensures input == old(input) + chunk
      ensures var combined := old(Pending()) + chunk;
        if |combined| < frameSize then
          out == old(out) && remainder == Some(combined) && framed == old(framed)
        else
          var s := Cut(combined, frameSize);
          remainder == Some(s.rest) && framed == old(framed) + s.frames &&
          out == old(out) + Packets(streamName, SamplesByte(), |old(out)|, s.frames)
    {
      ghost var pending := Pending();
      ghost var flat := Flatten(framed);
      assert flat + pending == input;
      AppendAssoc(flat, pending, chunk);
      input := input + chunk;
      var data := chunk;
      if remainder.Some? {
        data := remainder.value + chunk;
        remainder := None;
      }
      assert data == pending + chunk;
      if |data| < frameSize {
        remainder := Some(data);
        assert Flatten(framed) + Pending() == input;
        return;
      }
      ghost var framed0 := framed;
      CutExtends(framed0, data, frameSize);
      Packetize(data);
    }

    /** The loop branch of `_transform` on the joined bytes: push the frames
        and keep what `Cut` leaves as the remainder. */
    method Packetize(data: seq<byte>)
      requires HeaderValid() && |data| >= frameSize
      modifies this`frameNo, this`out, this`framed, this`remainder, header
      ensures HeaderValid()
      ensures remainder == Some(Cut(data, frameSize).rest)
      ensures out == old(out) + Packets(streamName, SamplesByte(), |old(out)|, Cut(data, frameSize).frames)
      ensures framed == old(framed) + Cut(data, frameSize).frames
    {
      var index := PushFrames(data);
      if index < |data| {
        remainder := Some(data[index..]);
      }
    }

    /** Emit one packet: a freshly generated header followed by the payload,
        the header buffer currently carrying sample byte `samplesByte`. */
    method PushPacket(payload: seq<byte>, ghost samplesByte: byte)
      requires header.Length == HEADER_SIZE && frameNo < COUNTER_MOD && frameNo == |out| % COUNTER_MOD
      requires header[..] == HeaderBytes(streamName, samplesByte, frameNo)
      modifies this`frameNo, this`out, header
      ensures frameNo < COUNTER_MOD && frameNo == |out| % COUNTER_MOD
      ensures header[..] == HeaderBytes(streamName, samplesByte, frameNo)
      ensures out == old(out) + [HeaderBytes(streamName, samplesByte, (|old(out)| + 1) % COUNTER_MOD) + payload]
    {
      NextCounterOfCount(|out|);
      HeaderCounterUpdate(streamName, samplesByte, frameNo, NextCounter(frameNo));
      var h := GenHeader();
      out := out + [h + payload];
    }

    /** One turn of the loop: push the next frame behind a fresh header. */
    method PushFrame(frame: seq<byte>, ghost out0: seq<seq<byte>>, ghost done: seq<seq<byte>>)
      requires HeaderValid() && out == out0 + Packets(streamName, SamplesByte(), |out0|, done)
      modifies this`frameNo, this`out, this`framed, header
      ensures HeaderValid() && out == out0 + Packets(streamName, SamplesByte(), |out0|, done + [frame])
      ensures framed == old(framed) + [frame]
    {
      PacketsSnoc(streamName, SamplesByte(), |out0|, done, frame);
      PushPacket(frame, SamplesByte());
      framed := framed + [frame];
    }

    /** The loop of `_transform`: push every frame `Cut` takes from `data`, each
        behind a fresh header, and return where the held-back rest starts. */
    method PushFrames(data: seq<byte>) returns (index: nat)
      requires HeaderValid() && |data| > 0
      modifies this`frameNo, this`out, this`framed, header
      ensures HeaderValid()
      ensures index < |data| && data[index..] == Cut(data, frameSize).rest
      ensures out == old(out) + Packets(streamName, SamplesByte(), |old(out)|, Cut(data, frameSize).frames)
      ensures framed == old(framed) + Cut(data, frameSize).frames
    {
      ghost var s := Cut(data, frameSize);
      ghost var out0 := out;
      ghost var framed0 := framed;
      ghost var done: seq<seq<byte>> := [];
      index := 0;
      assert data[index..] == data;
      while index + frameSize < |data|
        invariant 0 <= index < |data|
        invariant done + Cut(data[index..], frameSize).frames == s.frames
        invariant Cut(data[index..], frameSize).rest == s.rest
        invariant framed == framed0 + done
        invariant out == out0 + Packets(streamName, SamplesByte(), |out0|, done)
        invariant HeaderValid()
        decreases |data| - index
      {
        var frame := data[index..index + frameSize];
        CutStep(data, index, frameSize);
        AppendAssoc(done, [frame], Cut(data[index + frameSize..], frameSize).frames);
        index := index + frameSize;
        PushFrame(frame, out0, done);
        done := done + [frame];
      }
      CutShort(data, index, frameSize);
      assert done == s.frames;
    }

    /** `_flush`: with a remainder, push one short packet whose sample byte is
        the remainder's sample count minus one, then restore the sample byte.
        The remainder is kept. */
    method Flush()
      requires Valid()
      requires remainder.Some? ==> |remainder.value| > 0 && |remainder.value| % BYTES_PER_SAMPLE_FRAME == 0
      modifies this`frameNo, this`out, header
      ensures Valid()
      ensures remainder == old(remainder) && input == old(input) && framed == old(framed)
      ensures old(remainder).None? ==> out == old(out) && frameNo == old(frameNo)
      ensures old(remainder).Some? ==>
        var r := old(remainder).value;
        out == old(out) + [HeaderBytes(streamName, ShortSamplesByte(|r|, nbSample), (|old(out)| + 1) % COUNTER_MOD) + r] &&
        |r| == (ShortSamplesByte(|r|, nbSample) as int + 1) * 4 &&
        Flatten(framed + [r]) == input
    {
      if remainder.Some? {
        var r := remainder.value;
        FlattenAppend(framed, [r]);
        PushShort(r);
      }
    }

    /** The short packet of `_flush`: its header's sample byte is set from the
        payload's length for this packet only, then restored. */
    method PushShort(r: seq<byte>)
      requires HeaderValid() && 0 < |r| <= frameSize && |r| % BYTES_PER_SAMPLE_FRAME == 0
      modifies this`frameNo, this`out, header
      ensures HeaderValid()
      ensures out == old(out) + [HeaderBytes(streamName, ShortSamplesByte(|r|, nbSample), (|old(out)| + 1) % COUNTER_MOD) + r]
    {
      var samples := |r| / nbChannel / 2;
      ghost var sb := ShortSamplesByte(|r|, nbSample);
      assert (samples - 1) as byte == sb;
      header[5] := (samples - 1) as byte;
      HeaderSamplesUpdate(streamName, SamplesByte(), sb, frameNo);
      PushPacket(r, sb);
      HeaderSamplesUpdate(streamName, sb, SamplesByte(), frameNo);
      header[5] := (nbSample - 1) as byte;
    }
  }
}
