# DannyAAMMicrophoneBot audio core in Dafny

A Discord microphone bot bridges Discord voice and VB-Audio's VBAN protocol
(PCM audio in UDP datagrams) in both directions. This project models three
parts of its core and proves properties of them.

- **The outbound packetizer** (`PCMVBANTransformer`) turns a stream of 16-bit
  stereo PCM chunks into VBAN audio packets. Each packet is a 28-byte header
  followed by one frame of `nbSample` samples, 1024 bytes by default. The
  header is kept in one buffer that is rewritten in place, and its frame
  counter wraps at 2^32. Bytes short of a frame are carried over to the next
  chunk. Flush sends them as one short packet with its own sample count.
- **The inbound resegmenter** (`PCMOpusTransformer`) regroups PCM chunks into
  fixed `pcmSize`-byte frames in a preallocated buffer. Each frame goes to the
  Opus encoder with its `frameSize`, and each encoded frame is pushed. Flush
  zero-pads the last partial frame.
- **The inbound VBAN gate** (the `vbanStream` object of bot.js) works as
  follows:
  - it records every audio stream name it sees;
  - it forwards only the selected stream, in stereo 48 kHz 16-bit PCM, and only
    while the consumer is reading;
  - a packet of the selected stream in any other format clears the selection.

  The same reading gate feeds the outbound packetizer (`feedVbanOut`).

Module layout:

| module | what it covers |
|---|---|
| `Wrappers` | `Option`; `None` stands for `null` and `undefined`. |
| `Bytes` | Bytes, `Flatten` (`Buffer.concat`), and the in-place `Buffer.copy` and `Buffer.fill`. |
| `Reseg` | `Cut`, the chunking loop both transformers share, with its properties. |
| `VbanHeader` | The header layout and the counter step. |
| `PcmVban` | The outbound packetizer class. |
| `PcmOpus` | The resegmenter class. |
| `VbanGate` | The inbound gate and the outbound feed, as step functions and as classes. |

The two transformer classes change state in place, as the source does. Their
methods are proved against specification functions:
- `Reseg.Cut` and `VbanHeader.HeaderBytes` for the packetizer;
- `PcmOpus.TransformStep` for the resegmenter.

Both classes keep a ghost record of bytes, and their `Valid()` invariants state
conservation against it:
- In the resegmenter, `stream` is every chunk given to `_transform` followed by
  the zeros `_flush` pads with. The frames handed to the encoder, followed by
  what is still buffered, are exactly `stream`.
- In the packetizer, `input` is every chunk given to `_transform`, and `framed`
  holds the payloads `_transform` pushed. `framed` followed by the remainder is
  exactly `input`. `framed` is tied to the packets in `out` only by
  `Transform`'s postcondition. After `Flush`, the remainder is both pushed and
  still held, so it is not added to `framed`.

The foreign parts are passed in as parameters:
- the Opus encoder is a function;
- the return value of `push` (the consumer's backpressure answer) is a method
  argument;
- the VBAN packet parser's output arrives as decoded header fields.

## Model

| member | source | states |
|---|---|---|
| Bytes.Copy | lib/PCMOpusTransformer.js:73 | `Buffer.copy` writes the clamped overlap of source and target in place and returns how many bytes it copied. |
| Bytes.Fill | lib/PCMOpusTransformer.js:64 | `Buffer.fill` sets exactly the given range to the value and leaves the rest alone. |
| Reseg.Cut | lib/PCMVBANTransformer.js:105-114 | Every frame is exactly size bytes. The rest is at most one frame, and it is empty only for empty input, so the loop path always leaves a non-empty remainder. What the frames are is stated in `CutConserves`, `CutCount`, `CutFrameAt` and `CutRest`. |
| Reseg.CutConserves | lib/PCMVBANTransformer.js:105-114 | The frames cut, then the rest, are exactly the input bytes in order. |
| Reseg.CutExtends | lib/PCMVBANTransformer.js:95-114 | The same holds across calls: earlier frames, new frames and the rest equal the earlier output followed by the new data. |
| Reseg.CutCount | lib/PCMVBANTransformer.js:107 | The strict `<` emits (len − 1) / size frames, and they lie inside the input. |
| Reseg.CutFrameAt | lib/PCMVBANTransformer.js:107-109 | Frame k is bytes [k·size, (k+1)·size) of the input. |
| Reseg.CutRest | lib/PCMVBANTransformer.js:112-113 | The rest is everything after the emitted frames. |
| Reseg.ExactMultipleHoldsBack | lib/PCMVBANTransformer.js:107-114 | An input of n whole frames emits n − 1 of them and keeps the last full frame back. |
| Reseg.CutStep | lib/PCMOpusTransformer.js:85-87 | One loop turn cuts the next frame, and the later frames and rest come from what follows it. |
| Reseg.CutShort | lib/PCMOpusTransformer.js:90-92 | When the loop stops, what is left is all rest. |
| VbanHeader.SpSr | lib/PCMVBANTransformer.js:52-53 | Byte 4 holds the sub-protocol in the top 3 bits and the sample-rate index in the low 5. |
| VbanHeader.DfCodec | lib/PCMVBANTransformer.js:56-57 | Byte 7 holds the data type in the low 3 bits, a zero bit 3, and the codec from bit 4 up. |
| VbanHeader.NameField | lib/PCMVBANTransformer.js:58-59 | Bytes 8..24 are the first 16 or fewer name bytes, then zeros. |
| VbanHeader.LE32 | lib/PCMVBANTransformer.js:60 | The counter is written as 4 little-endian bytes, and they read back as the counter. |
| VbanHeader.FixedPart | lib/PCMVBANTransformer.js:51-57 | The first 8 header bytes are 8 long, start with "VBAN" and carry the sample byte at offset 5. `HeaderLayout` gives every byte. |
| VbanHeader.HeaderBytes | lib/PCMVBANTransformer.js:50-60 | The header is 28 bytes: the fixed part, the name field and the counter. `HeaderLayout` gives its bytes. |
| VbanHeader.HeaderLayout | lib/PCMVBANTransformer.js:50-60 | The header is 28 bytes: "VBAN", 3, samples − 1, 1, 1, the name field, then a counter that reads back. |
| VbanHeader.HeaderCounterUpdate | lib/PCMVBANTransformer.js:68 | Rewriting bytes 24..28 in place gives the header with the new counter. |
| VbanHeader.HeaderSamplesUpdate | lib/PCMVBANTransformer.js:86 | Rewriting byte 5 in place gives the header with the new sample byte. |
| VbanHeader.NextCounter | lib/PCMVBANTransformer.js:66-67 | The counter steps to (c + 1) mod 2^32. It wraps from 4294967295 to 0 and otherwise increments. |
| VbanHeader.NextCounterOfCount | lib/PCMVBANTransformer.js:66-67 | n steps from 0 give n mod 2^32, so packet k (counting from 1) carries k mod 2^32. |
| VbanHeader.ShortSamplesByte | lib/PCMVBANTransformer.js:85-86 | The flushed packet's byte 5 is r/4 − 1 for an r-byte remainder. |
| PcmVban.NbSampleOf | lib/PCMVBANTransformer.js:44 | `nbSample` defaults to 256 and stays in 1..256. |
| PcmVban.Packets | lib/PCMVBANTransformer.js:107-109 | One packet per frame. `PacketAt` and `PacketShape` say what each packet is. |
| PcmVban.PacketAt | lib/PCMVBANTransformer.js:107-109 | Packet k of a run is the header with counter (start + k + 1) mod 2^32, followed by frame k. |
| PcmVban.PacketShape | lib/PCMVBANTransformer.js:50-60 | Every packet pushed is a 28-byte header with the sample byte, name field and counter above, then exactly its frame. |
| PcmVban.ConsecutiveCounters | lib/PCMVBANTransformer.js:65-69 | Each packet's counter is the counter step applied to the previous packet's counter. |
| PcmVban.CutPacketAt | lib/PCMVBANTransformer.js:107-110 | A `_transform` packet is 28 + frameSize bytes, byte 5 is nbSample − 1, and its payload is the k-th frame of the joined bytes. |
| PcmVban.WriteFixedPart | lib/PCMVBANTransformer.js:51-57 | The in-place writes leave bytes 0..8 equal to `FixedPart` and bytes 8..28 untouched. |
| PcmVban.WriteName | lib/PCMVBANTransformer.js:58-59 | The in-place zero fill and copy leave bytes 8..24 equal to `NameField` and the rest untouched. |
| PcmVban.WriteCounter | lib/PCMVBANTransformer.js:60 | The in-place write leaves bytes 24..28 equal to `LE32` of the counter and the rest untouched. |
| PcmVban.WriteHeader | lib/PCMVBANTransformer.js:50-60 | The in-place header build leaves the header buffer equal to `HeaderBytes`. |
| PcmVban.PCMVBANTransformer.constructor | lib/PCMVBANTransformer.js:40-63 | Applies the defaults: frameSize = nbSample·4, counter 0, no remainder, header built. |
| PcmVban.PCMVBANTransformer.GenHeader | lib/PCMVBANTransformer.js:65-70 | Increments the counter with wrap-around before writing it, then returns the header. |
| PcmVban.PCMVBANTransformer.Transform | lib/PCMVBANTransformer.js:94-117 | Below one frame nothing is pushed and the joined bytes become the remainder. Otherwise the packets are `Packets` of `Cut` and the remainder is `Cut`'s rest. Every byte is conserved and the remainder stays at most frameSize. |
| PcmVban.PCMVBANTransformer.Packetize | lib/PCMVBANTransformer.js:105-114 | The loop branch pushes `Cut`'s frames and keeps its non-empty rest. |
| PcmVban.PCMVBANTransformer.PushFrames | lib/PCMVBANTransformer.js:107-110 | The while loop pushes exactly `Cut`'s frames, each behind a fresh header. |
| PcmVban.PCMVBANTransformer.PushFrame | lib/PCMVBANTransformer.js:108-109 | One loop turn extends the output by the next packet. |
| PcmVban.PCMVBANTransformer.PushPacket | lib/PCMVBANTransformer.js:109 | Pushes the header with the next counter, followed by the payload. |
| PcmVban.PCMVBANTransformer.PushShort | lib/PCMVBANTransformer.js:85-89 | Pushes a header whose byte 5 is r/4 − 1, followed by r. The header buffer is left with byte 5 at nbSample − 1. |
| PcmVban.PCMVBANTransformer.Flush | lib/PCMVBANTransformer.js:72-92 | With remainder r, pushes one packet whose byte 5 is r/4 − 1 and whose payload is r. Byte 5 is restored to nbSample − 1 and the remainder is kept. Without a remainder nothing happens. |
| PcmOpus.OrDefault | lib/PCMOpusTransformer.js:47-48 | A zero or absent option selects the default; any other value is kept. |
| PcmOpus.TransformStep | lib/PCMOpusTransformer.js:71-95 | Every frame handed to the encoder is exactly pcmSize bytes, and the buffer never holds more than pcmSize bytes. What the frames are is stated in `TransformStepConserves`, `TopUpEncodedFirst` and `ExactFrameCases`. |
| PcmOpus.TransformStepConserves | lib/PCMOpusTransformer.js:71-95 | The frames encoded, then what is buffered, are exactly the buffered bytes followed by the chunk. |
| PcmOpus.TransformStepExtends | lib/PCMOpusTransformer.js:71-95 | Across calls, everything encoded plus the buffer equals all input bytes in order. |
| PcmOpus.TopUpEncodedFirst | lib/PCMOpusTransformer.js:77-80 | A partly filled buffer is completed with the chunk's first pcmSize − index bytes and encoded before any frame cut from the chunk. |
| PcmOpus.ExactFrameCases | lib/PCMOpusTransformer.js:72-92 | An exact frame that completes a partly filled buffer is encoded at once. An exact frame arriving into an empty buffer stays buffered with index = pcmSize. |
| PcmOpus.PCMOpusTransformer.constructor | lib/PCMOpusTransformer.js:43-52 | frameSize defaults to 2880, pcmSize to 11520 and the fill index to 0; a buffer of pcmSize bytes is allocated. |
| PcmOpus.PCMOpusTransformer.Destroy | lib/PCMOpusTransformer.js:54-60 | The encoder is released exactly when it has `delete`. |
| PcmOpus.PCMOpusTransformer.PushEncoded | lib/PCMOpusTransformer.js:65 | One encoder call with frameSize, its output pushed in the same position. |
| PcmOpus.PCMOpusTransformer.Flush | lib/PCMOpusTransformer.js:62-69 | With index > 0: zero-fills the buffer to pcmSize, encodes that one frame and resets index. With index 0: nothing is encoded. The encoder is not released. |
| PcmOpus.PCMOpusTransformer.Transform | lib/PCMOpusTransformer.js:71-95 | The frames encoded are `TransformStep`'s frames and the buffer holds its rest. Conservation holds, 0 ≤ index ≤ pcmSize, and the encoder is not released. |
| PcmOpus.PCMOpusTransformer.BufferAll | lib/PCMOpusTransformer.js:72-75 | A chunk that fits is appended at index, index grows by its length, and nothing is encoded. |
| PcmOpus.PCMOpusTransformer.TopUp | lib/PCMOpusTransformer.js:77-80 | The buffer is completed from the chunk, encoded and emptied. |
| PcmOpus.PCMOpusTransformer.EncodeAndKeepRest | lib/PCMOpusTransformer.js:77-92 | Encodes the top-up frame and then `Cut`'s frames, and buffers the rest. |
| PcmOpus.PCMOpusTransformer.EncodeFrames | lib/PCMOpusTransformer.js:85-88 | The while loop encodes exactly `Cut`'s frames of the rest of the chunk. |
| VbanGate.Offer | bot.js:34-36 | Pushes only while reading; afterwards reading is (was reading and push returned true). |
| VbanGate.Ready | bot.js:46-48 | `read()` sets reading and changes nothing else. |
| VbanGate.Initial | bot.js:18-20 | Empty list, selection "", not reading. |
| VbanGate.OnPacket | bot.js:26-42 | A non-audio packet changes nothing. An audio packet's name is added to the list. The payload is forwarded only for the selected stream in stereo, 48000 Hz, format 1, codec 0, and only while reading. Only a wrong-format packet of the selected stream changes the selection, and it sets it to "". |
| VbanGate.Select | bot.js:87 | The first argument of `vbanin`, or `undefined`. |
| VbanGate.Step | bot.js:26-48 | A packet goes through the handler. A `read()` only sets reading. A `vbanin` only replaces the name with `Select`'s. No event forwards more than one payload or takes one back. |
| VbanGate.Run | bot.js:26-48 | Over any run, pushed payloads are never taken back, and at most one is forwarded per event. |
| VbanGate.RunRecordsNames | bot.js:30 | Over any run, the list is the initial list plus every audio stream name seen; it is never cleared. |
| VbanGate.NoReadNoForward | bot.js:34-48 | Without a `read()`, a stream that is not reading forwards nothing. |
| VbanGate.UnselectedIgnored | bot.js:31 | Until reselected, packets of a stream that is not selected forward nothing and leave the selection alone. |
| VbanGate.MismatchLocksOut | bot.js:37-39 | A wrong-format packet clears the selection, and later packets of the old non-empty name are ignored. |
| VbanGate.ReadyBeforeEachForwardsAll | bot.js:31-48 | With a `read()` before each accepted packet, every payload is forwarded in order, whatever push returns. |
| VbanGate.ReadThenAccept | bot.js:33-48 | A `read()` followed by an accepted packet forwards its payload. |
| VbanGate.Mic1Scenario | bot.js:26-48 | With "mic1" selected and three well-formed 1024-byte packets (counters 5, 6, 7), reading before each delivers exactly those three payloads, 3072 bytes. Without reading, nothing is delivered. |
| VbanGate.VbanInStream.constructor | bot.js:18-20 | The initial gate state. |
| VbanGate.VbanInStream.OnMessage | bot.js:26-42 | The handler updates the fields exactly as `OnPacket` says. |
| VbanGate.VbanInStream.Read | bot.js:46-48 | `read()` sets `reading`. |
| VbanGate.VbanInStream.SelectInput | bot.js:87 | `vbanin` replaces the name with its first argument. |
| VbanGate.VbanOutFeed.constructor | bot.js:109 | The wrapper starts not reading. |
| VbanGate.VbanOutFeed.Feed | bot.js:110-112 | `feedVbanOut` pushes only while reading and stores push's result as `reading`. |
| VbanGate.VbanOutFeed.Read | bot.js:121-123 | The wrapper's `read()` sets `reading`. |

## Left out

- The Discord and Eris glue in bot.js is not modelled: commands, help text, joining, permissions, message dispatch and argument parsing. It is user interface and foreign-library code. Only the `vbanin` assignment is modelled.
- The UDP sockets are not modelled: create, bind, connect, send, close, and the teardown order of `feedVbanOut.close`. They are network I/O.
- Node stream plumbing is not modelled: the `Transform`/`Readable` base classes, `highWaterMark`, the transform callback and `setTransformCB`. `push` appends to an output sequence, and a callback is a return.
- The Opus encoder and `opusFactory` are foreign. `encode` is a function the transformer is built with, and its inputs are recorded. The model takes it to return fresh bytes, so later writes to the buffer do not alias earlier outputs.
- `proccessPacket` in lib/vban is not part of this model. The gate takes decoded header fields. Parsing and its round trip are not modelled.
- Stream names are bytes truncated to 16. Node's `'ascii'` encoding of non-ASCII characters is not modelled.
- PcmVban.PCMVBANTransformer.Flush: has the precondition that the remainder is a positive multiple of 4 bytes. For a remainder of fewer than 4 bytes (an empty one included), samples − 1 is negative and `writeUInt8` throws. For other lengths that are not a multiple of 4, the fractional sample byte is truncated. Neither path is modelled.
- The stream name is modelled as bytes. When `vbanout` is given no name, `Buffer.from(undefined, 'ascii')` in the constructor throws; that path is not modelled.
- PcmVban.PCMVBANTransformer.constructor: has the precondition `nbSample ≤ 256`. A larger value makes `writeUInt8` throw, and that path is not modelled.
- Because both loops use a strict `<`, a remainder or buffer can keep one whole frame instead of emitting it. The model follows this (`Reseg.ExactMultipleHoldsBack`, `PcmOpus.ExactFrameCases`).
- PCMVBANTransformer's `_flush` does not clear the remainder, and the model keeps it.
- PCMOpusTransformer encodes a topped-up buffer at once, even when that frame ends the input exactly.
- The gate does not expire or clear the list of stream names. Selecting a new input only replaces the name; nothing else is invalidated.
- The initial selection is "", so a packet whose stream name is empty matches it. The model keeps this behaviour.
