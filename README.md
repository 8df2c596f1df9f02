# waveio: a verified model of a RIFF/WAVE PCM reader and writer

This project models `src/waveio.py`, a small Python 2 module that reads and
writes uncompressed (linear PCM) WAVE files. A file is a sequence of bytes
(`seq<byte>`, with `byte` the integers 0..255). The model has the module's
five parts:

- **RIFF chunk scanner** (`RiffReader.__init__`, `find_chunk_data`,
  `get_chunk_data`), module `Riff`. `Scan` is the `while` loop over `pos` and
  `nextpos`, and it is proved equal to the recursive reference `ScanSpec`.
  The lemmas about `ScanSpec` characterise a successful scan both ways: the
  chunk list it returns is exactly a list *framed* from offset 12 up to the
  declared RIFF length. That means each entry's payload starts 8 bytes after
  its sub-header, and the next sub-header follows the payload rounded up to
  an even length.
- **WAVE `fmt ` interpreter** (`WaveFileReader.__init__`), module
  `WaveReader`. It unpacks `<HHLL3H` (padding a 16-byte payload to 18 bytes)
  and rejects anything other than PCM with 1 or 2 channels and 8 to 16 bits.
  It derives bytes per frame and the sample count, locates `data`, and binds
  a decoder for 8 or 16 bits only.
- **Sample codec** (`dec_8_*`, `dec_16_*`, and the encode step of
  `__setitem__`), module `SampleCodec`. Little-endian 16-bit and biased 8-bit
  samples map to and from centred int16 values.
- **Random-access reader** (`__len__`, `__getitem__`), module `WaveReader`.
  A reader is an immutable value. Scalar reads and slice reads are proved
  against `Reader.Frames()`, the decoded payload.
- **Sequential writer** (`WaveFileWriter`), module `WaveWriter`. It is a
  class with:
  - the configuration as constant fields;
  - the cursor `curIndex`;
  - `isOpen` (false once `close()` has set the stream to `None`);
  - the sink's bytes `file`, overwritten in place by seek-and-write (`WriteAt`).

  Its invariant `Valid()` ties the sink to a ghost record of the frames
  written, for as long as no failed write has moved the cursor (the ghost
  flag `inOrder`). Under that condition the sink of an open writer is the
  provisional header followed by the encoded frames, and the sink of a
  closed writer is exactly `Finalized(config, frames)`. Once a failed write
  has moved the cursor past frames that were never written, the invariant
  keeps only the header and the configuration.

Module `WaveRoundTrip` connects writer and reader. A writer closed after at
least one frame at 8 or 16 bits and a non-zero sample rate leaves a file that
opens. The reader then
reports the writer's channel count, rate and width, and reads back every
frame. A 16-bit frame comes back as written; an 8-bit frame comes back as its
8-bit quantisation. `RecordAndReadBack` runs the whole pipeline on one
concrete stereo session.

Modules `Results` (the `Option`, `Result` and `Status` values, plus one
`Error` constructor per kind of failure site, listed below) and `LittleEndian`
(`<H`, `<L` and `<h` packing; clamped reads and zero-filling writes on a byte
sequence) support the rest.

### Errors

An `Error` constructor stands for a failure site, not for a Python exception
class. The same exception class can appear under two constructors, and one
constructor can cover several exceptions:

- `StructError`: `struct.error` from unpacking a short RIFF header (src/waveio.py:59), a short chunk sub-header (line 83) or a `fmt ` payload shorter than 18 bytes after padding (line 124), and from packing a value out of range (lines 345-346 and 365-366).
- `WrongRiffType`, `NotRiff`, `BadChunkLength`, `ChunkNotFound`, `UnsupportedFormat`: the ValueErrors of lines 65, 70, 78, 92 and 127. `ChunkNotFound` reaches `__init__` through `get_chunk_data` for `fmt ` (line 120) and `find_chunk_data` for `data` (line 136).
- `ZeroRate`: ZeroDivisionError from the duration (line 140).
- `NoDecoder`: UnboundLocalError at line 158 when no branch bound `sdec`.
- `BadStride`: the ValueError of line 178. `IndexOutOfRange`: the IndexError of line 192.
- `ShortData`: a decoder handed a read shorter than it needs. Depending on the decoder, this is TypeError from `ord('')` (line 205), IndexError from `r[1]` (line 208), `struct.error` from `dec_16_mono`/`dec_16_stereo` (lines 220, 222), or ValueError from `fromstring` or `a.shape =` (lines 211-238). So a `struct.error` raised by a decoder is `ShortData`, not `StructError`.
- `BadSliceStep`, `InvalidSlice`, `SizeMismatch`, `OutOfSequence`, `ShapeMismatch`: the writer's IndexErrors of lines 381 and 392 and ValueErrors of lines 398, 401 and 417.
- `Closed`: AttributeError from `self.f.seek` once `close()` has set the stream to `None`.
- `UnknownParameter`, `BadConfig`: the ValueErrors of lines 323 and 329.

### Behaviour modelled as the code has it

Several behaviours are proved as lemmas rather than corrected:

- **Cursor on a failed write.** `__setitem__` assigns `curindex = stop`
  (src/waveio.py:402) before the shape check (416) and before the write
  (430). A shape mismatch, or any write after `close()`, therefore fails with
  the cursor already advanced (`WaveFileWriter.Assign`). Only the index
  checks (`CheckWrite`) leave the writer unchanged when they fail. A write
  after `close()` fails only because the stream is `None`; the model's error
  for it is `Closed`. The docstring's ordering rule (src/waveio.py:265-267:
  start at 0, each write follows the previous one, no negative indices) is
  what `CheckWrite` enforces.
- **No pad byte.** The writer never writes a pad byte after an odd-length
  `data` payload (src/waveio.py:358-371), although the scanner skips one
  when advancing (line 84).
- **An empty write is a no-op.** Writing zero bytes at an offset past the end
  does not extend the file (`WriteAt`), so an empty in-sequence assignment
  after a failed one leaves the sink as it was.
- **8-bit encode wraps.** `((val + 128) >> 8) + 128` is computed on an int16
  array, so `val + 128` wraps for `val >= 32640`. The encoded byte is then 0,
  which decodes to -32768 (`Encode8Wraps`). Below that bound the encoding
  rounds to the nearest step of 256 (`Encode8Rounds`).
- **Widths the reader cannot open.** The writer accepts 9 to 15 bits and
  stores each sample in two bytes. The reader's validation accepts them too,
  but it binds no decoder, so opening such a file fails
  (`IntermediateDepthUnreadable`).
- **A zero sample rate is unreadable.** The writer accepts a rate of 0 (line
  328 checks only channels and bits). The reader computes the duration
  `sample_count / float(samp_rate)` (line 140) after locating `data` and
  before binding a decoder, so such a file fails to open with
  ZeroDivisionError (`ZeroRateUnreadable`).
- **An empty recording is unreadable.** A writer closed after 0 frames writes
  a RIFF length of 48, which is the file size minus 8. The scanner compares
  `nextpos` with that length as an absolute offset, so it stops before the
  `data` sub-header, and opening fails with "chunk type not found"
  (`EmptyRecordingUnreadable`).

## Model

| member | source | states |
|---|---|---|
| LittleEndian.PackU32 | src/waveio.py:365-366 | `<L` packing of a value below 2^32: four bytes that unpack to it |
| LittleEndian.U16At | src/waveio.py:124 | a `<H` field read at an offset is below 2^16 |
| LittleEndian.U32At | src/waveio.py:59 | a `<L` field read at an offset is below 2^32 |
| LittleEndian.I16At | src/waveio.py:219-220 | a `<h` field read at an offset is in the int16 range |
| LittleEndian.PackI16 | src/waveio.py:345-346 | `<h` packing of an int16: two bytes that unpack to it |
| LittleEndian.PackU32OfU32At | src/waveio.py:59 | unpacking four bytes with `<L` and packing the value again gives the same four bytes |
| LittleEndian.PackI16OfI16At | src/waveio.py:219-220 | unpacking two bytes with `<h` and packing again gives the same two bytes |
| LittleEndian.U32AtSlice | src/waveio.py:83 | a `<L` field depends only on its own four bytes |
| LittleEndian.Read | src/waveio.py:182 | `f.read(n)` after a seek: n bytes from the offset, fewer at end of file, none past it |
| LittleEndian.WriteAt | src/waveio.py:430-431 | a write after a seek: the bytes at the offset are replaced, everything else is unchanged, a gap past the end reads as zero, and an empty write leaves the file as it was, even past the end |
| LittleEndian.WriteAtEnd | src/waveio.py:431 | writing at the current end appends |
| Riff.Padded | src/waveio.py:84 | `(len + 1) & ~1` is even and is len or len + 1 |
| Riff.Walk | src/waveio.py:72-85 | the loop as a recursive definition; no contract of its own, its properties are WalkAhead, WalkNeverBackward, WalkFramed and FramedWalk |
| Riff.ScanSpec | src/waveio.py:57-86 | the reference for the scanner; no contract of its own, its properties are ScanHeaderChecks, ScanNeverBadChunkLength and ScanIsFraming |
| Riff.Scan | src/waveio.py:57-86 | the scanner loop returns exactly what the reference `ScanSpec` defines, error cases included |
| Riff.ScanHeaderChecks | src/waveio.py:59-70 | fewer than 12 bytes fail to unpack; a wrong form type fails first, then a missing `RIFF` tag; a success has both right and records the declared length |
| Riff.WalkAhead | src/waveio.py:76-80 | seeking forward to nextpos and continuing from there are the same walk |
| Riff.WalkNeverBackward | src/waveio.py:75-80 | "bad chunk length" is never raised, because chunk lengths are unsigned |
| Riff.ScanNeverBadChunkLength | src/waveio.py:77-78 | no file makes a scan fail with "bad chunk length" |
| Riff.WalkFramed | src/waveio.py:72-85 | every chunk list the walk returns is framed from its start offset to the declared length |
| Riff.FramedWalk | src/waveio.py:72-85 | every framed chunk list is what the walk returns |
| Riff.ScanIsFraming | src/waveio.py:57-86 | a scan succeeds with chunk list cs exactly when the header is right and cs is framed from offset 12 to the RIFF length (both directions) |
| Riff.FramedIncreasing | src/waveio.py:75-85 | in a framed list the payload positions strictly increase: each chunk starts after the previous padded payload and its sub-header |
| Riff.FindChunk | src/waveio.py:88-92 | fails exactly when no entry has the id; otherwise returns the first entry in scan order with the id |
| Riff.GetChunkData | src/waveio.py:94-98 | succeeds exactly when the chunk is found; returns at most len bytes, and exactly the len bytes at posn when they are in the file |
| SampleCodec.FrameBytes | src/waveio.py:128 | a decoder's frame is 1, 2 or 4 bytes |
| SampleCodec.Decode8 | src/waveio.py:204-205 | `(b - 128) * 256` is a multiple of 256 in [-32768, 32512], negative exactly for bytes below 128 |
| SampleCodec.Wrap16 | src/waveio.py:423 | int16 array arithmetic: congruent to the exact value modulo 2^16, and equal to it when in range |
| SampleCodec.Encode8 | src/waveio.py:423 | the 8-bit encode as written; no contract of its own, its properties are Encode8OfDecode8, Encode8Rounds, Encode8Wraps and Encode8Idempotent |
| SampleCodec.Decode16 | src/waveio.py:219-220 | `<h` decode; with Encode16, an inverse pair by Codec16RoundTrip |
| SampleCodec.Encode16 | src/waveio.py:428 | a 16-bit sample is two bytes; the inverse of Decode16 by Codec16RoundTrip |
| SampleCodec.Saturate | src/waveio.py:408-409 | `np.clip` to int16: in-range values unchanged, larger ones 32767, smaller ones -32768 |
| SampleCodec.Encode8OfDecode8 | src/waveio.py:423 | encoding a decoded 8-bit sample gives back the original byte, for all 256 bytes |
| SampleCodec.Encode8Rounds | src/waveio.py:423 | below 32640 the 8-bit encoding decodes to within 128 of the input (round to nearest step of 256) |
| SampleCodec.Encode8Wraps | src/waveio.py:423 | from 32640 up the int16 sum wraps: the byte is 0 and decodes to -32768 |
| SampleCodec.Encode8Idempotent | src/waveio.py:423 | re-encoding a decoded 8-bit encoding gives the same byte |
| SampleCodec.Codec16RoundTrip | src/waveio.py:219-222 | 16-bit little-endian encode then decode is the identity on int16, and decode then encode is the identity on two bytes |
| SampleCodec.FrameOf | src/waveio.py:204-222 | the scalar decoders: a mono decoder yields a mono frame, a stereo one a pair |
| SampleCodec.DecodeFrame | src/waveio.py:193-194 | a scalar decode succeeds exactly on one whole frame of bytes and yields that frame; a short read fails |
| SampleCodec.DecodeBlock | src/waveio.py:210-239 | the block decoders: exactly n frames of bytes decode to n frames; any success covers all the bytes, and frame k is the k-th frame-sized slice decoded |
| SampleCodec.EncodeSample | src/waveio.py:422-428 | a sample is one byte at 8 bits and two above |
| SampleCodec.EncodeFrame | src/waveio.py:422-428 | a frame's bytes are its channels times the sample size |
| SampleCodec.EncodeFrames | src/waveio.py:428 | `.tostring()` of the block; no contract of its own, its properties are EncodeFramesLength, EncodeFramesAt and WaveWriter.EncodeFramesAppend |
| SampleCodec.EncodeFramesLength | src/waveio.py:428 | a block of uniform frames encodes to frame size times frame count bytes |
| SampleCodec.EncodeFramesAt | src/waveio.py:428 | the k-th frame-sized slice of an encoded block is the k-th frame's encoding |
| SampleCodec.DecodeEncodedFrame | src/waveio.py:204-222 | decoding an encoded frame with the decoder for its width gives the frame at 16 bits and its 8-bit quantisation at 8 bits |
| SampleCodec.DecoderFor | src/waveio.py:144-157 | a decoder is bound exactly for 8 or 16 bits, a stereo one exactly for two channels, and its frame size is channels times sample size |
| SampleCodec.Quantize | src/waveio.py:422-423 | what a written frame reads back as: the same channel count, and the frame itself at 16 bits |
| WaveReader.UnpackFmt | src/waveio.py:120-124 | a 16-byte payload is padded to 18; unpacking succeeds exactly for 16 or at least 18 bytes and reads the fields at their offsets |
| WaveReader.Reader.Frames | src/waveio.py:171-194 | reference for the reads; no contract of its own beyond its definition (sample-count frames, frame k decoded from the k-th frame-sized slice after datapos); Get, GetRange and WaveRoundTrip.ReaderFrames are proved against it |
| WaveReader.Interpret | src/waveio.py:118-163 | a constructed reader satisfies the field invariant (a bound decoder whose frame size is bytes_per_frame, sample count = databytes // bytes_per_frame, a non-zero sample rate) |
| WaveReader.DecoderValid | src/waveio.py:144-159 | a decoder is bound only for 8 or 16 bits, and its frame size is `nchans * (1 + (bits > 8))` |
| WaveReader.OpenSpec | src/waveio.py:118-163 | `WaveFileReader.__init__` as a function, the reference every round-trip lemma is stated in: a success is a valid reader over the whole file whose chunk index is the scan's |
| WaveReader.Open | src/waveio.py:118-163 | construction is the scan with expected type `WAVE` and then the interpretation; a success is a valid reader |
| WaveReader.FormatChecks | src/waveio.py:126-158 | non-PCM, bad channels or bits fail as unsupported; with a data chunk, a rate of 0 fails on the duration (line 140), and otherwise 9..15 bits fail for lack of a decoder; 8 or 16 bits succeed exactly when a data chunk exists and the rate is non-zero |
| WaveReader.LookupFailures | src/waveio.py:119-136 | no `fmt ` chunk fails with "chunk type not found"; a `fmt ` payload neither 16 nor at least 18 bytes long fails to unpack; an accepted format with no `data` chunk fails with "chunk type not found" |
| WaveReader.InterpretFields | src/waveio.py:125-138 | the reader's channels, bits and rate are the `fmt ` fields, and its datapos and databytes are the first `data` chunk's |
| WaveReader.Length | src/waveio.py:139 | the sample count is the number of whole frames in databytes; a trailing partial frame is not counted |
| WaveReader.Get | src/waveio.py:187-194 | an index outside [-n, n) fails with IndexError; otherwise, when the frames are in the file, the result is frame i (i + n for negative i) |
| WaveReader.ScalarFrame | src/waveio.py:193-194 | reading nf bytes at `datapos + nf*i` and decoding them gives frame i |
| WaveReader.ReadFrameAt | src/waveio.py:193-194 | a frame-sized read at pos + size*j decodes to frame j of the bytes from pos |
| WaveReader.SliceBound | src/waveio.py:176 | `slice.indices` for stride 1: absent means the default, negative counts from the end, and the result is clamped to [0, n] |
| WaveReader.GetRange | src/waveio.py:175-185 | a stride other than 1 fails; otherwise the result is the frames [start, stop) after clamping, or empty when stop <= start |
| WaveReader.RangeFrames | src/waveio.py:179-185 | the bytes read for a clamped range block-decode to exactly those frames of the payload |
| WaveReader.RangeBytes | src/waveio.py:181-182 | the read of recs * nf bytes at `datapos + nf*start` lies inside the file and returns exactly those payload bytes |
| WaveReader.NegativeIndex | src/waveio.py:189-192 | index -i reads the same frame as n - i; n and -n-1 are out of range |
| WaveReader.LastFrames | test/test_waveio.py:27-28 | `wr[-k:]` is the last k frames |
| WaveReader.SliceOfOne | src/waveio.py:175-194 | the one-frame slice [i, i+1) holds the frame the scalar index i returns |
| WaveReader.EmptyRange | src/waveio.py:179-185 | a range whose clamped stop is not after its clamped start reads nothing and is empty |
| WaveWriter.ToFrames | src/waveio.py:407-409 | the data after `np.clip`: one frame per row, all mono for a 1-D block and all stereo for pairs |
| WaveWriter.Configure | src/waveio.py:305-346 | an unknown keyword fails; otherwise it succeeds exactly when the resolved configuration is acceptable; bad channels or bits fail with "bad nchans or bits_per_samp" (line 329), and a rate `struct.pack` rejects fails with `struct.error` |
| WaveWriter.ConfigureDefaults | src/waveio.py:306-323 | for each of bits_per_samp, nchans and sample_rate: a keyword wins, else the reference object's field, else the default 16, 1 or 44100 |
| WaveWriter.Acceptable | src/waveio.py:328-333 | predicate; no contract of its own: 1 or 2 channels, 8..16 bits, and a rate whose `<L` fields pack; Configure's success condition |
| WaveWriter.BytesPerFrame | src/waveio.py:330-333 | definition; no contract of its own: nchans, doubled above 8 bits; HeaderLayout and ClosedFileFields state where it lands in the header |
| WaveWriter.ShapeFits | src/waveio.py:413-416 | predicate; no contract of its own: (rows,) for mono, (rows, 2) for stereo; once the index checks pass, WaveFileWriter.Assign fails with ShapeMismatch, writing nothing, when it does not hold |
| WaveWriter.CloseFits | src/waveio.py:364-366 | predicate; no contract of its own: the frame count and both lengths fit `<L`; on an open writer, WaveFileWriter.Close fails with `struct.error` exactly when it does not hold |
| WaveWriter.Resolve | src/waveio.py:306-323 | the configuration before validation; no contract of its own, its properties are ConfigureDefaults and Configure |
| WaveWriter.FmtPayload | src/waveio.py:345-346 | the `fmt ` payload is 16 bytes |
| WaveWriter.HeaderWith | src/waveio.py:343-352 | the header is 56 bytes, so datapos is 56 |
| WaveWriter.HeaderWithAt | src/waveio.py:343-352 | the three length fields sit at 4..8, 44..48 and 52..56, and no other byte depends on them |
| WaveWriter.ProvisionalHeader | src/waveio.py:343-352 | the header `__init__` writes, with "xxxx" in the three length fields; no contract of its own, its layout is WaveRoundTrip.HeaderLayout |
| WaveWriter.Finalize | src/waveio.py:358-371 | patching leaves the file's length unchanged |
| WaveWriter.FinalHeader | src/waveio.py:364-366 | the final header is 56 bytes |
| WaveWriter.Finalized | src/waveio.py:358-371 | final header followed by the encoded frames; no contract of its own, it is what WaveFileWriter.Close and FinalizeWritten produce and what ClosedFileFields lays out |
| WaveWriter.FinalizeHeader | src/waveio.py:364-370 | patching a provisional header followed by data gives the final header (lengths dlen + 48, n, dlen) followed by the same data |
| WaveWriter.FinalizeWritten | src/waveio.py:358-371 | closing a sink holding the provisional header and the encoded frames gives the finalized file of those frames |
| WaveWriter.CheckWrite | src/waveio.py:391-401 | succeeds exactly when start is the cursor and stop is absent or start + len; the error order is IndexError, size mismatch, then out of sequence; the new cursor is start + len |
| WaveWriter.WaveFileWriter.constructor | src/waveio.py:324-353 | an accepted configuration writes the provisional header; cursor 0, open, nothing written |
| WaveWriter.WaveFileWriter.Assign | src/waveio.py:391-431 | a failed index check changes nothing; past it the cursor is stop, a wrong shape or a closed stream fails without writing, and otherwise the frames' bytes are written at `datapos + start*bpf`; the invariant is kept |
| WaveWriter.WaveFileWriter.Emit | src/waveio.py:430-431 | writing the next frames at the cursor's offset extends the sink to header + all frames written |
| WaveWriter.WaveFileWriter.SetItem | src/waveio.py:377-384 | a step other than 1 fails and changes nothing; otherwise the assignment with start defaulting to 0 |
| WaveWriter.WaveFileWriter.SetOne | src/waveio.py:385-388 | `w[i] = v` is the assignment of [v] to [i, i+1) |
| WaveWriter.WaveFileWriter.WriteSamples | src/waveio.py:434-435 | appends at the cursor; the index checks always pass, so the cursor always advances by the row count |
| WaveWriter.WaveFileWriter.Close | src/waveio.py:358-371 | a second close is a no-op; otherwise the three length fields are patched and the stream closed; after in-order writes the file is the finalized file of the frames written |
| WaveWriter.WriteAtPrefix | src/waveio.py:430-431 | a write at or after datapos leaves the header bytes unchanged |
| WaveWriter.AppendFrames | src/waveio.py:430-431 | writing the next frames at `datapos + cursor*bpf` is appending their encoding |
| WaveWriter.EncodeFramesAppend | src/waveio.py:428 | encoding is a homomorphism: two blocks encode to the concatenation of their encodings |
| WaveWriter.OpenWriter | src/waveio.py:305-353 | a failing configuration fails with its error before anything is written; otherwise a fresh open writer holding the provisional header |
| WaveRoundTrip.HeaderLayout | src/waveio.py:343-352 | where every field of the writer's header sits |
| WaveRoundTrip.FmtRoundTrip | src/waveio.py:345-346 | the writer's `fmt ` payload unpacks to PCM, its channels, rate, byte rate, block align and bits |
| WaveRoundTrip.PayloadFields | src/waveio.py:345-346 | each `<hhLLhh` field of the payload reads back as packed |
| WaveRoundTrip.ClosedFileFields | src/waveio.py:358-371 | a closed file has the header fields and lengths of n frames followed by the encoded samples |
| WaveRoundTrip.PatchedLayout | src/waveio.py:364-370 | the final header followed by data has the closed-file layout |
| WaveRoundTrip.ClosedFileScans | src/waveio.py:57-86 | scanning a closed file finds exactly `fmt ` at 20, `fact` at 44 and, if a frame was written, `data` at 56 |
| WaveRoundTrip.WrittenChunksFrame | src/waveio.py:72-85 | the writer's three sub-headers are framed up to the RIFF length |
| WaveRoundTrip.ClosedFileChunks | src/waveio.py:88-98 | in a closed file `fmt ` holds the writer's payload, and `data` is found exactly when a frame was written |
| WaveRoundTrip.EncodedFrameAt | src/waveio.py:422-428 | frame k of an encoded block decodes to the k-th frame quantised |
| WaveRoundTrip.FrameReadBack | src/waveio.py:187-194 | a reader over the writer's samples returns frame k quantised |
| WaveRoundTrip.Quantized | src/waveio.py:422-423 | one frame read back per frame written, identical at 16 bits |
| WaveRoundTrip.LayoutReader | src/waveio.py:118-163 | opening a closed file with frames at 8 or 16 bits and a non-zero rate gives a reader whose every field comes from the writer's configuration |
| WaveRoundTrip.InterpretWritten | src/waveio.py:118-159 | interpreting the writer's chunks fails on the duration at rate 0; otherwise it binds a decoder at 8 or 16 bits and fails for lack of one at 9..15 |
| WaveRoundTrip.LayoutOpens | src/waveio.py:118-194 | a file with the closed layout, at 8 or 16 bits and a non-zero rate, opens and reads back the frames quantised |
| WaveRoundTrip.ReaderFrames | src/waveio.py:171-194 | a reader over the writer's samples reads every written frame back, quantised |
| WaveRoundTrip.ClosedFileOpens | src/waveio.py:343-371 | the round trip: the closed file of at least one frame at 8 or 16 bits and a non-zero rate opens with the writer's channels, rate and bits, its length is the frame count, and it reads back every frame (quantised at 8 bits) |
| WaveRoundTrip.EmptyRecordingUnreadable | src/waveio.py:75 | a writer closed with no frames leaves a file that fails to open with "chunk not found" |
| WaveRoundTrip.LayoutWithoutData | src/waveio.py:136 | a closed layout with 0 frames has no `data` entry, so opening fails |
| WaveRoundTrip.IntermediateDepthUnreadable | src/waveio.py:144-158 | a file written at 9..15 bits fails to open: for lack of a decoder, or on the duration when the rate is 0 |
| WaveRoundTrip.LayoutWithoutDecoder | src/waveio.py:144-158 | a closed layout with frames at 9..15 bits fails to open: for lack of a decoder, or on the duration when the rate is 0 |
| WaveRoundTrip.ZeroRateUnreadable | src/waveio.py:140 | a file written with frames at sample rate 0 fails to open on the duration |
| WaveRoundTrip.LayoutWithoutRate | src/waveio.py:136-140 | a closed layout with frames at rate 0 fails to open on the duration |
| WaveRoundTrip.RecordAndReadBack | src/waveio.py:257-291 | a stereo session: two in-order blocks, one sample clipped at each side, closed and reopened, reads back exactly those three frames |

## Left out

- Opening files by name and the `hasattr(..., 'read'/'write')` checks (src/waveio.py:52-55, 336-339): I/O plumbing. The reader takes the whole file as a byte sequence. The writer starts from an empty sink.
- Host endianness and the `byteswapped()` branches (src/waveio.py:38, 224-239, 425-426): platform details. Only the external little-endian layout is modelled.
- numpy specifics (`fromstring`, `tostring`, dtypes, shape objects): data is a `Block`, either a 1-D sequence of integers or a sequence of pairs. The shape test is `ShapeFits`. Ragged data that numpy cannot convert to an array is not modelled.
- Data given to the writer is taken as unbounded integers. Values outside int32, which `np.asarray(val, np.int32)` would reject or wrap, are clipped like any other.
- `duration` (src/waveio.py:140): its floating-point value is not modelled; only its division by zero for a sample rate of 0 is (`ZeroRate`).
- `shape` (src/waveio.py:160-163): derived from nchans and the sample count, which the reader does model.
- `__repr__`, `__str__` and `__array__` (src/waveio.py:168-169, 196-200, 437-441): trivial wrappers.
- `__del__` (src/waveio.py:373-374): it depends on garbage-collection timing. Only explicit `Close` is modelled.
- The writer's `"bad index"` error for an index that is neither a slice nor an int (src/waveio.py:389-390): the model's `SetItem` and `SetOne` take typed arguments.
- WaveWriter.WaveFileWriter.constructor: it is only called with an accepted configuration, so a `struct.pack` failure after 16 bytes were already written is not modelled. `OpenWriter` checks the configuration before writing anything.
- WaveWriter.WaveFileWriter.WriteSamples: `self[curindex:] = val` is modelled as a direct call of `Assign` with start = cursor and no stop. This is what `__setitem__` does for that slice.
- WaveReader.Open: it returns the reader as a value built from the whole file. Reads are not issued against a live stream, so the seek positions are modelled as offsets into the byte sequence.
- A zero slice step: `__setitem__` rejects it with "slice step must be 1" (src/waveio.py:380), which is `BadSliceStep`. `__getitem__` fails on it earlier, in `slc.indices` (line 176), with ValueError "slice step cannot be zero"; the model reports that case as `BadStride` too, so the two messages are not distinguished.
- The test suite's sine-sweep generation and RMS checks (test/test_waveio.py): floating-point numerics over real files. Only the `wr[-k:]` slice property is modelled (`LastFrames`).
