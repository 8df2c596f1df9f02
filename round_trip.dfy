/** What a WaveFileReader sees in a file a WaveFileWriter closed: the
    writer's header parses to the configuration it was written with, and the
    frames read back are the frames written, quantised to the sample width. */
module WaveRoundTrip {
  import opened Results
  import opened LittleEndian
  import opened Riff
  import opened SampleCodec
  import opened WaveReader
  import opened WaveWriter

  /** Where each field of a header sits once samples follow it. */
  lemma HeaderLayout(c: Config, a: seq<byte>, b: seq<byte>, d: seq<byte>, data: seq<byte>)
    requires Acceptable(c) && |a| == 4 && |b| == 4 && |d| == 4
    ensures var f := HeaderWith(c, a, b, d) + data;
      && |f| == 56 + |data|
      && f[..4] == RiffTag && f[4..8] == a && f[8..12] == WaveTag
      && f[12..16] == FmtTag && f[16..20] == PackU32(16) && f[20..36] == FmtPayload(c)
      && f[36..40] == FactTag && f[40..44] == PackU32(4) && f[44..48] == b
      && f[48..52] == DataTag && f[52..56] == d && f[56..] == data
  {
  }

  /** The 'fmt ' payload the writer packs unpacks to the writer's own
      configuration: PCM, the channel count, the rate and the sample width. */
  lemma FmtRoundTrip(c: Config)
    requires Acceptable(c)
    ensures var bpf := BytesPerFrame(c.nchans, c.bitsPerSample);
      UnpackFmt(FmtPayload(c)) ==
      Ok(FmtFields(1, c.nchans, c.sampleRate, c.sampleRate * bpf, bpf, c.bitsPerSample, 0))
  {
    var p := FmtPayload(c);
    PayloadFields(c);
    var q := p + [0, 0];
    assert q[..16] == p;
    U16AtSlice(q, p, 0, 0);
    U16AtSlice(q, p, 2, 2);
    U32AtSlice(q, p, 4, 4);
    U32AtSlice(q, p, 8, 8);
    U16AtSlice(q, p, 12, 12);
    U16AtSlice(q, p, 14, 14);
  }

  /** The '<hhLLhh' fields of the payload, read back. */
  lemma PayloadFields(c: Config)
    requires Acceptable(c)
    ensures var bpf := BytesPerFrame(c.nchans, c.bitsPerSample);
      var p := FmtPayload(c);
      && U16At(p, 0) == 1 && U16At(p, 2) == c.nchans && U32At(p, 4) == c.sampleRate
      && U32At(p, 8) == c.sampleRate * bpf && U16At(p, 12) == bpf && U16At(p, 14) == c.bitsPerSample
  {
    var bpf := BytesPerFrame(c.nchans, c.bitsPerSample);
    var p := FmtPayload(c);
    var s0, s1, s2, s3 := PackI16(1), PackI16(c.nchans), PackU32(c.sampleRate), PackU32(c.sampleRate * bpf);
    var s4, s5 := PackI16(bpf), PackI16(c.bitsPerSample);
    assert p == s0 + s1 + s2 + s3 + s4 + s5;
    assert p[0..2] == s0[0..2] && p[2..4] == s1[0..2] && p[4..8] == s2[0..4];
    assert p[8..12] == s3[0..4] && p[12..14] == s4[0..2] && p[14..16] == s5[0..2];
    U16AtSlice(p, s0, 0, 0);
    U16AtSlice(p, s1, 2, 0);
    U32AtSlice(p, s2, 4, 0);
    U32AtSlice(p, s3, 8, 0);
    U16AtSlice(p, s4, 12, 0);
    U16AtSlice(p, s5, 14, 0);
  }

  /** The chunk list of a closed file: 'fmt ' at 20, 'fact' at 44 and, when
      a frame was written, 'data' at 56 with the payload's length. */
  function WrittenChunks(dlen: nat): seq<ChunkEntry>
  {
    [ChunkEntry(FmtTag, 20, 16), ChunkEntry(FactTag, 44, 4)] +
    (if dlen > 0 then [ChunkEntry(DataTag, 56, dlen)] else [])
  }

  /** The fields of a closed file with n frames whose samples are `data`,
      as the scanner and the 'fmt ' parser read them. */
  ghost predicate ClosedLayout(f: seq<byte>, c: Config, n: nat, data: seq<byte>)
    requires Acceptable(c)
  {
    var dlen := BytesPerFrame(c.nchans, c.bitsPerSample) * n;
    && |f| == 56 + |data|
    && f[..4] == RiffTag && f[8..12] == WaveTag && U32At(f, 4) == dlen + 48
    && f[12..16] == FmtTag && U32At(f, 16) == 16 && f[20..36] == FmtPayload(c)
    && f[36..40] == FactTag && U32At(f, 40) == 4
    && f[48..52] == DataTag && U32At(f, 52) == dlen
    && f[56..] == data
  }

  lemma ClosedFileFields(c: Config, fs: seq<Frame>)
    requires Acceptable(c) && CloseFits(BytesPerFrame(c.nchans, c.bitsPerSample), |fs|)
    ensures ClosedLayout(Finalized(c, fs), c, |fs|, EncodeFrames(c.bitsPerSample, fs))
  {
    var data := EncodeFrames(c.bitsPerSample, fs);
    assert Finalized(c, fs) == FinalHeader(c, |fs|) + data;
    PatchedLayout(c, |fs|, data);
  }

  lemma PatchedLayout(c: Config, n: nat, data: seq<byte>)
    requires Acceptable(c) && CloseFits(BytesPerFrame(c.nchans, c.bitsPerSample), n)
    ensures ClosedLayout(FinalHeader(c, n) + data, c, n, data)
  {
    var dlen := BytesPerFrame(c.nchans, c.bitsPerSample) * n;
    var a, b, d := PackU32(dlen + 48), PackU32(n), PackU32(dlen);
    FinalHeaderIs(c, n, a, b, d);
    var f := HeaderWith(c, a, b, d) + data;
    HeaderLayout(c, a, b, d, data);
    LayoutOfFields(f, c, n, dlen, data);
  }

  /** The slices of a patched header give its layout. */
  lemma LayoutOfFields(f: seq<byte>, c: Config, n: nat, dlen: nat, data: seq<byte>)
    requires Acceptable(c) && dlen == BytesPerFrame(c.nchans, c.bitsPerSample) * n && dlen + 48 < U32Limit
    requires |f| == 56 + |data| && f[..4] == RiffTag && f[4..8] == PackU32(dlen + 48) && f[8..12] == WaveTag
    requires f[12..16] == FmtTag && f[16..20] == PackU32(16) && f[20..36] == FmtPayload(c)
    requires f[36..40] == FactTag && f[40..44] == PackU32(4)
    requires f[48..52] == DataTag && f[52..56] == PackU32(dlen) && f[56..] == data
    ensures ClosedLayout(f, c, n, data)
  {
    FieldValues(f, dlen + 48, dlen);
  }

  lemma FinalHeaderIs(c: Config, n: nat, a: seq<byte>, b: seq<byte>, d: seq<byte>)
    requires Acceptable(c) && CloseFits(BytesPerFrame(c.nchans, c.bitsPerSample), n)
    requires a == PackU32(BytesPerFrame(c.nchans, c.bitsPerSample) * n + 48) && b == PackU32(n)
    requires d == PackU32(BytesPerFrame(c.nchans, c.bitsPerSample) * n)
    ensures FinalHeader(c, n) == HeaderWith(c, a, b, d)
  {
  }

  /** The '<L' values in a header's length fields. */
  lemma FieldValues(f: seq<byte>, riffLen: nat, dlen: nat)
    requires riffLen < U32Limit && dlen < U32Limit && |f| >= 56
    requires f[4..8] == PackU32(riffLen) && f[16..20] == PackU32(16)
    requires f[40..44] == PackU32(4) && f[52..56] == PackU32(dlen)
    ensures U32At(f, 4) == riffLen && U32At(f, 16) == 16 && U32At(f, 40) == 4 && U32At(f, 52) == dlen
  {
    U32AtSlice(f, PackU32(riffLen), 4, 0);
    U32AtSlice(f, PackU32(16), 16, 0);
    U32AtSlice(f, PackU32(4), 40, 0);
    U32AtSlice(f, PackU32(dlen), 52, 0);
  }

  /** Scanning a closed file finds exactly the writer's chunks; with no
      frames the RIFF length stops the walk before the 'data' sub-header. */
  lemma ClosedFileScans(f: seq<byte>, c: Config, n: nat, data: seq<byte>)
    requires Acceptable(c) && ClosedLayout(f, c, n, data)
    ensures var dlen := BytesPerFrame(c.nchans, c.bitsPerSample) * n;
      ScanSpec(f, Some(WaveTag)) == Ok(RiffIndex(WaveTag, dlen + 48, WrittenChunks(dlen)))
  {
    var dlen := BytesPerFrame(c.nchans, c.bitsPerSample) * n;
    WrittenChunksFrame(f, dlen);
    ScanIsFraming(f, Some(WaveTag), WrittenChunks(dlen));
  }

  lemma WrittenChunksFrame(f: seq<byte>, dlen: nat)
    requires |f| >= 56
    requires f[12..16] == FmtTag && U32At(f, 16) == 16 && f[36..40] == FactTag && U32At(f, 40) == 4
    requires f[48..52] == DataTag && U32At(f, 52) == dlen
    ensures FramedFrom(f, 12, dlen + 48, WrittenChunks(dlen))
  {
    var cs := WrittenChunks(dlen);
    assert Padded(16) == 16 && Padded(4) == 4;
    assert HeaderAt(f, cs[0]) && HeaderAt(f, cs[1]);
    if dlen > 0 {
      assert HeaderAt(f, cs[2]);
    }
  }

  /** The chunks a closed file's reader looks up: 'fmt ' holds the
      writer's payload, and 'data' is there exactly when a frame was written. */
  lemma ClosedFileChunks(f: seq<byte>, payload: seq<byte>, dlen: nat)
    requires |f| >= 56 && f[20..36] == payload
    ensures var index := RiffIndex(WaveTag, dlen + 48, WrittenChunks(dlen));
      && GetChunkData(f, index, FmtTag) == Ok(payload)
      && FindChunk(index.chunks, DataTag) ==
         (if dlen > 0 then Ok(ChunkEntry(DataTag, 56, dlen)) else Err(ChunkNotFound))
  {
    var cs := WrittenChunks(dlen);
    assert FmtTag != DataTag by { assert FmtTag[1] != DataTag[1]; }
    assert FactTag != DataTag by { assert FactTag[0] != DataTag[0]; }
    assert FindChunk(cs, FmtTag) == Ok(cs[0]);
    if dlen > 0 {
      assert cs[1..][1..] == [cs[2]];
    } else {
      assert cs[1..][1..] == [];
    }
  }

  lemma DivMul(bpf: nat, n: nat)
    requires bpf in {1, 2, 4}
    ensures bpf * n / bpf == n
  {
  }

  /** Frame k of an encoded block, decoded with the decoder for its
      width, is the k-th frame quantised. */
  lemma EncodedFrameAt(dec: Decoder, bits: nat, nchans: nat, fs: seq<Frame>, k: nat)
    requires bits in {8, 16} && DecoderFor(bits, nchans) == Some(dec) && nchans in {1, 2}
    requires Uniform(fs, nchans) && k < |fs|
    ensures FrameBytes(dec) * k + FrameBytes(dec) <= |EncodeFrames(bits, fs)|
    ensures FrameAt(dec, EncodeFrames(bits, fs), k) == Quantize(bits, fs[k])
  {
    var n := FrameBytes(dec);
    assert n == FrameSize(bits, nchans);
    EncodeFramesAt(bits, fs, nchans, k);
    DecodeEncodedFrame(bits, fs[k]);
  }

  /** Frame k of a closed file is the k-th written frame, quantised. */
  lemma FrameReadBack(c: Config, fs: seq<Frame>, rd: Reader, k: nat)
    requires Acceptable(c) && c.bitsPerSample in {8, 16} && Uniform(fs, c.nchans)
    requires rd.Valid() && rd.FramesInFile() && rd.dataPos == 56
    requires rd.file[56..] == EncodeFrames(c.bitsPerSample, fs)
    requires rd.nchans == c.nchans && rd.bitsPerSample == c.bitsPerSample && rd.sampleCount == |fs|
    requires k < |fs|
    ensures rd.FrameIndex(k) == Quantize(c.bitsPerSample, fs[k])
  {
    EncodedFrameAt(rd.decoder, c.bitsPerSample, c.nchans, fs, k);
  }

  /** The frames read back from a closed file, one per frame written. */
  function Quantized(bits: nat, fs: seq<Frame>): (qs: seq<Frame>)
    ensures |qs| == |fs|
    ensures bits == 16 ==> qs == fs
  {
    seq(|fs|, k requires 0 <= k < |fs| => Quantize(bits, fs[k]))
  }

  /** The reader's constructor on a closed file with n > 0 frames at 8 or
      16 bits: every field comes from the writer's configuration. */
  lemma LayoutReader(f: seq<byte>, c: Config, n: nat, data: seq<byte>)
    requires Acceptable(c) && c.bitsPerSample in {8, 16} && c.sampleRate > 0 && n > 0
    requires ClosedLayout(f, c, n, data)
    ensures var bpf := BytesPerFrame(c.nchans, c.bitsPerSample);
      var dlen := bpf * n;
      OpenSpec(f) == Ok(Reader(f, RiffIndex(WaveTag, dlen + 48, WrittenChunks(dlen)),
                               c.nchans, c.bitsPerSample, bpf, c.sampleRate, 56, dlen, n,
                               DecoderFor(c.bitsPerSample, c.nchans).value))
  {
    var bpf := BytesPerFrame(c.nchans, c.bitsPerSample);
    var dlen := bpf * n;
    ClosedFileScans(f, c, n, data);
    ClosedFileChunks(f, FmtPayload(c), dlen);
    FmtRoundTrip(c);
    assert dlen > 0;
    DivMul(bpf, n);
    InterpretWritten(f, c, dlen);
  }

  /** Interpret on the writer's chunk list, given what its chunks hold. */
  lemma InterpretWritten(f: seq<byte>, c: Config, dlen: nat)
    requires Acceptable(c) && dlen > 0
    requires var index := RiffIndex(WaveTag, dlen + 48, WrittenChunks(dlen));
      && GetChunkData(f, index, FmtTag) == Ok(FmtPayload(c))
      && FindChunk(index.chunks, DataTag) == Ok(ChunkEntry(DataTag, 56, dlen))
    requires var bpf := BytesPerFrame(c.nchans, c.bitsPerSample);
      UnpackFmt(FmtPayload(c)) == Ok(FmtFields(1, c.nchans, c.sampleRate, c.sampleRate * bpf, bpf, c.bitsPerSample, 0))
    ensures var index := RiffIndex(WaveTag, dlen + 48, WrittenChunks(dlen));
      var bpf := BytesPerFrame(c.nchans, c.bitsPerSample);
      Interpret(f, index) ==
        if c.sampleRate == 0 then Err(ZeroRate)
        else if c.bitsPerSample in {8, 16} then
          Ok(Reader(f, index, c.nchans, c.bitsPerSample, bpf, c.sampleRate, 56, dlen, dlen / bpf,
                    DecoderFor(c.bitsPerSample, c.nchans).value))
        else Err(NoDecoder)
  {
  }

  /** What the reader's constructor makes of a closed file, by its layout. */
  lemma LayoutOpens(f: seq<byte>, c: Config, fs: seq<Frame>)
    requires Acceptable(c) && c.bitsPerSample in {8, 16} && c.sampleRate > 0 && Uniform(fs, c.nchans) && |fs| > 0
    requires ClosedLayout(f, c, |fs|, EncodeFrames(c.bitsPerSample, fs))
    ensures var r := OpenSpec(f);
      && r.Ok? && r.value.Valid()
      && r.value.nchans == c.nchans && r.value.bitsPerSample == c.bitsPerSample
      && r.value.sampleRate == c.sampleRate
      && Length(r.value) == |fs| && r.value.FramesInFile()
      && r.value.Frames() == Quantized(c.bitsPerSample, fs)
  {
    LayoutReader(f, c, |fs|, EncodeFrames(c.bitsPerSample, fs));
    ReaderFrames(OpenSpec(f).value, c, fs);
  }

  /** A reader over a closed file's samples reads every written frame back. */
  lemma ReaderFrames(rd: Reader, c: Config, fs: seq<Frame>)
    requires Acceptable(c) && c.bitsPerSample in {8, 16} && Uniform(fs, c.nchans)
    requires rd.Valid() && rd.dataPos == 56 && |rd.file| == 56 + |EncodeFrames(c.bitsPerSample, fs)|
    requires rd.file[56..] == EncodeFrames(c.bitsPerSample, fs)
    requires rd.nchans == c.nchans && rd.bitsPerSample == c.bitsPerSample && rd.sampleCount == |fs|
    ensures rd.FramesInFile() && rd.Frames() == Quantized(c.bitsPerSample, fs)
  {
    EncodeFramesLength(c.bitsPerSample, fs, c.nchans);
    assert rd.bytesPerFrame == FrameSize(c.bitsPerSample, c.nchans);
    forall k | 0 <= k < |fs| ensures rd.Frames()[k] == Quantized(c.bitsPerSample, fs)[k] {
      FrameReadBack(c, fs, rd, k);
    }
  }

  /** The round trip: once at least one frame was written at 8 or 16 bits
      and a non-zero sample rate, the closed file opens with the writer's channel count, rate and width,
      holds one frame per frame written, and reads back each frame as
      written at 16 bits and as its 8-bit quantisation at 8 bits. */
  lemma ClosedFileOpens(c: Config, fs: seq<Frame>)
    requires Acceptable(c) && c.bitsPerSample in {8, 16} && c.sampleRate > 0 && Uniform(fs, c.nchans) && |fs| > 0
    requires CloseFits(BytesPerFrame(c.nchans, c.bitsPerSample), |fs|)
    ensures var r := OpenSpec(Finalized(c, fs));
      && r.Ok? && r.value.Valid()
      && r.value.nchans == c.nchans && r.value.bitsPerSample == c.bitsPerSample
      && r.value.sampleRate == c.sampleRate
      && Length(r.value) == |fs| && r.value.FramesInFile()
      && r.value.Frames() == Quantized(c.bitsPerSample, fs)
  {
    ClosedFileFields(c, fs);
    LayoutOpens(Finalized(c, fs), c, fs);
  }

  /** A writer closed before any frame was written leaves a file the reader
      rejects: the RIFF length ends the walk at the 'data' sub-header. */
  lemma EmptyRecordingUnreadable(c: Config)
    requires Acceptable(c)
    ensures OpenSpec(Finalized(c, [])) == Err(ChunkNotFound)
  {
    ClosedFileFields(c, []);
    LayoutWithoutData(Finalized(c, []), c, EncodeFrames(c.bitsPerSample, []));
  }

  lemma LayoutWithoutData(f: seq<byte>, c: Config, data: seq<byte>)
    requires Acceptable(c) && ClosedLayout(f, c, 0, data)
    ensures OpenSpec(f) == Err(ChunkNotFound)
  {
    ClosedFileScans(f, c, 0, data);
    ClosedFileChunks(f, FmtPayload(c), 0);
    FmtRoundTrip(c);
  }

  /** The writer accepts 9 to 15 bits per sample and stores them in two
      bytes, but the reader binds no decoder for them (it fails earlier, on
      the duration, when the rate is 0). */
  lemma IntermediateDepthUnreadable(c: Config, fs: seq<Frame>)
    requires Acceptable(c) && 8 < c.bitsPerSample < 16 && |fs| > 0
    requires CloseFits(BytesPerFrame(c.nchans, c.bitsPerSample), |fs|)
    ensures OpenSpec(Finalized(c, fs)) == Err(if c.sampleRate == 0 then ZeroRate else NoDecoder)
  {
    ClosedFileFields(c, fs);
    LayoutWithoutDecoder(Finalized(c, fs), c, |fs|, EncodeFrames(c.bitsPerSample, fs));
  }

  lemma LayoutWithoutDecoder(f: seq<byte>, c: Config, n: nat, data: seq<byte>)
    requires Acceptable(c) && 8 < c.bitsPerSample < 16 && n > 0
    requires ClosedLayout(f, c, n, data)
    ensures OpenSpec(f) == Err(if c.sampleRate == 0 then ZeroRate else NoDecoder)
  {
    var dlen := BytesPerFrame(c.nchans, c.bitsPerSample) * n;
    var index := RiffIndex(WaveTag, dlen + 48, WrittenChunks(dlen));
    ClosedFileScans(f, c, n, data);
    assert OpenSpec(f) == Interpret(f, index);
    ClosedFileChunks(f, FmtPayload(c), dlen);
    FmtRoundTrip(c);
    assert dlen > 0;
    InterpretWritten(f, c, dlen);
  }

  /** The writer accepts a sample rate of 0, but the reader's duration
      divides by it: a file closed with frames at rate 0 does not open. */
  lemma ZeroRateUnreadable(c: Config, fs: seq<Frame>)
    requires Acceptable(c) && c.sampleRate == 0 && |fs| > 0
    requires CloseFits(BytesPerFrame(c.nchans, c.bitsPerSample), |fs|)
    ensures OpenSpec(Finalized(c, fs)) == Err(ZeroRate)
  {
    ClosedFileFields(c, fs);
    LayoutWithoutRate(Finalized(c, fs), c, |fs|, EncodeFrames(c.bitsPerSample, fs));
  }

  lemma LayoutWithoutRate(f: seq<byte>, c: Config, n: nat, data: seq<byte>)
    requires Acceptable(c) && c.sampleRate == 0 && n > 0
    requires ClosedLayout(f, c, n, data)
    ensures OpenSpec(f) == Err(ZeroRate)
  {
    var dlen := BytesPerFrame(c.nchans, c.bitsPerSample) * n;
    var index := RiffIndex(WaveTag, dlen + 48, WrittenChunks(dlen));
    ClosedFileScans(f, c, n, data);
    assert OpenSpec(f) == Interpret(f, index);
    ClosedFileChunks(f, FmtPayload(c), dlen);
    FmtRoundTrip(c);
    assert dlen > 0;
    InterpretWritten(f, c, dlen);
  }

  /** A client session: a stereo writer takes two blocks in order (one
      sample beyond the int16 range is clipped), is closed, and a reader
      opened on the result sees the three frames. */
  method RecordAndReadBack() returns (frames: seq<Frame>)
    ensures frames == [Stereo(100, -100), Stereo(32767, -32768), Stereo(7, 8)]
  {
    var c := Config(16, 2, 8000);
    var first := Pairs([(100, -100), (40000, -40000)]);
    var second := Pairs([(7, 8)]);
    ghost var fs := SessionFrames(first, second);
    var w := new WaveFileWriter(c);
    var r1 := w.WriteSamples(first);
    var r2 := w.WriteSamples(second);
    assert w.written == fs;
    var r3 := w.Close();
    assert w.file == Finalized(c, fs);
    ClosedFileOpens(c, fs);
    var rd := Open(w.file);
    frames := rd.value.Frames();
  }

  lemma SessionFrames(first: Block, second: Block) returns (fs: seq<Frame>)
    requires first == Pairs([(100, -100), (40000, -40000)]) && second == Pairs([(7, 8)])
    ensures fs == ToFrames(first) + ToFrames(second)
    ensures fs == [Stereo(100, -100), Stereo(32767, -32768), Stereo(7, 8)]
  {
    fs := [Stereo(100, -100), Stereo(32767, -32768), Stereo(7, 8)];
    assert ToFrames(first) == fs[..2];
    assert ToFrames(second) == fs[2..];
  }
}
