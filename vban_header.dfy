/** The 28-byte header of VB-Audio's VBAN protocol, audio sub-protocol, as
    PCMVBANTransformer writes it, and its 32-bit wrapping frame counter. */
module VbanHeader {
  import opened Bytes

  const HEADER_SIZE: nat := 28
  const NAME_SIZE: nat := 16
  const COUNTER_MOD: nat := 0x1_0000_0000

  /** "VBAN" in ASCII. */
  const MAGIC: seq<byte> := [0x56, 0x42, 0x41, 0x4E]

  const SP_AUDIO: nat := 0
  const SR_INDEX_48000: nat := 3
  const DATATYPE_INT16: nat := 1
  const CODEC_PCM: nat := 0
  /** Fixed to two channels of 16-bit samples: four bytes per sample frame. */
  const NB_CHANNEL: nat := 2
  const BYTES_PER_SAMPLE_FRAME: nat := NB_CHANNEL * 2

  /** Byte 4: sub-protocol in the high 3 bits, sample-rate index in the low 5. */
  function SpSr(sp: nat, srIndex: nat): (b: byte)
    requires sp < 8
    ensures b as int / 32 == sp && b as int % 32 == srIndex % 32
  {
    (sp * 32 + srIndex % 32) as byte
  }

  /** Byte 7: data type in the low 3 bits, codec from bit 4 on (bit 3 reserved, 0). */
  function DfCodec(codec: nat, dataType: nat): (b: byte)
    requires codec < 16
    ensures b as int % 8 == dataType % 8 && b as int / 16 == codec
    ensures (b as int / 8) % 2 == 0
  {
    (codec * 16 + dataType % 8) as byte
  }

  /** Bytes 8..24: the stream name, truncated to 16 bytes and zero padded. */
  function NameField(name: seq<byte>): (f: seq<byte>)
    ensures |f| == NAME_SIZE
    ensures forall i :: 0 <= i < NAME_SIZE ==> f[i] == if i < |name| then name[i] else 0
  {
    if |name| >= NAME_SIZE then name[..NAME_SIZE] else name + Zeros(NAME_SIZE - |name|)
  }

  /** Reads a little-endian 32-bit value. */
  function ReadLE32(b: seq<byte>): (c: nat)
    requires |b| == 4
    ensures c < COUNTER_MOD
  {
    b[0] as nat + 256 * (b[1] as nat) + 65536 * (b[2] as nat) + 16777216 * (b[3] as nat)
  }

  /** A 32-bit value as four bytes, least significant first; they read back
      as the value. */
  function LE32(c: nat): (b: seq<byte>)
    requires c < COUNTER_MOD
    ensures |b| == 4
    ensures ReadLE32(b) == c
  {
    var q1 := c / 256;
    var q2 := q1 / 256;
    var q3 := q2 / 256;
    assert c == 256 * q1 + c % 256;
    assert q1 == 256 * q2 + q1 % 256;
    assert q2 == 256 * q3 + q2 % 256;
    assert c / 65536 == q2 && c / 16777216 == q3;
    [(c % 256) as byte, (c / 256 % 256) as byte, (c / 65536 % 256) as byte, (c / 16777216) as byte]
  }

  /** Bytes 0..8: magic, SP/SR byte, samples-minus-one byte,
      channels-minus-one byte, data type/codec byte. */
  function FixedPart(samplesByte: byte): (f: seq<byte>)
    ensures |f| == 8 && f[..4] == MAGIC && f[5] == samplesByte
  {
    MAGIC + [SpSr(SP_AUDIO, SR_INDEX_48000), samplesByte, (NB_CHANNEL - 1) as byte, DfCodec(CODEC_PCM, DATATYPE_INT16)]
  }

  /** The whole header: the fixed part, the name field, the frame counter. */
  function HeaderBytes(name: seq<byte>, samplesByte: byte, counter: nat): (h: seq<byte>)
    requires counter < COUNTER_MOD
    ensures |h| == HEADER_SIZE
  {
    FixedPart(samplesByte) + NameField(name) + LE32(counter)
  }

  /** The byte layout of every header the transformer writes, and that its
      counter field reads back as the counter it was written with. */
  lemma HeaderLayout(name: seq<byte>, samplesByte: byte, counter: nat)
    requires counter < COUNTER_MOD
    ensures var h := HeaderBytes(name, samplesByte, counter);
      |h| == HEADER_SIZE &&
      h[..4] == MAGIC &&
      h[4] == 3 && h[5] == samplesByte && h[6] == 1 && h[7] == 1 &&
      h[8..24] == NameField(name) &&
      ReadLE32(h[24..28]) == counter
  {
    var h := HeaderBytes(name, samplesByte, counter);
    assert h[24..28] == LE32(counter);
  }

  /** Two headers that differ only in their counters. */
  lemma HeaderCounterUpdate(name: seq<byte>, samplesByte: byte, c: nat, c': nat)
    requires c < COUNTER_MOD && c' < COUNTER_MOD
    ensures |HeaderBytes(name, samplesByte, c)| == HEADER_SIZE
    ensures HeaderBytes(name, samplesByte, c)[..24] + LE32(c') == HeaderBytes(name, samplesByte, c')
  {
  }

  /** Two headers that differ only in their sample-count byte. */
  lemma HeaderSamplesUpdate(name: seq<byte>, b: byte, b': byte, c: nat)
    requires c < COUNTER_MOD
    ensures |HeaderBytes(name, b, c)| == HEADER_SIZE
    ensures HeaderBytes(name, b, c)[5 := b'] == HeaderBytes(name, b', c)
  {
  }

  /** The counter step of the header generator: increment, then wrap 4294967296 to 0. */
  function NextCounter(c: nat): (r: nat)
    requires c < COUNTER_MOD
    ensures r < COUNTER_MOD
    ensures r == (c + 1) % COUNTER_MOD
    ensures c < COUNTER_MOD - 1 ==> r == c + 1
    ensures c == COUNTER_MOD - 1 ==> r == 0
  {
    var n := c + 1;
    if n > 4294967295 then 0 else n
  }

  /** The counter after n steps from 0 is n mod 2^32, so the k-th packet
      (from 1) carries k mod 2^32. */
  lemma NextCounterOfCount(n: nat)
    ensures NextCounter(n % COUNTER_MOD) == (n + 1) % COUNTER_MOD
  {
    var q := n / COUNTER_MOD;
    assert n == q * COUNTER_MOD + n % COUNTER_MOD;
    if n % COUNTER_MOD == COUNTER_MOD - 1 {
      assert n + 1 == (q + 1) * COUNTER_MOD;
      DivExact(q + 1);
    } else {
      assert n + 1 == q * COUNTER_MOD + (n % COUNTER_MOD + 1);
      DivRem(q, n % COUNTER_MOD + 1);
    }
  }

  lemma DivExact(q: nat)
    ensures (q * COUNTER_MOD) % COUNTER_MOD == 0
  {
  }

  lemma DivRem(q: nat, r: nat)
    requires r < COUNTER_MOD
    ensures (q * COUNTER_MOD + r) % COUNTER_MOD == r
  {
  }

  /** `samples - 1` written to byte 5 of the flushed packet, where samples is the
      remainder length over two channels of two bytes. */
  function ShortSamplesByte(len: nat, nbSample: nat): (b: byte)
    requires 0 < len <= nbSample * BYTES_PER_SAMPLE_FRAME && len % BYTES_PER_SAMPLE_FRAME == 0 && nbSample <= 256
    ensures (b as int + 1) * BYTES_PER_SAMPLE_FRAME == len
  {
    (len / NB_CHANNEL / 2 - 1) as byte
  }
}
