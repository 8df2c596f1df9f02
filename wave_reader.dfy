/** The WAVE interpretation of a scanned RIFF file and its random-access
    read view (WaveFileReader in src/waveio.py). */
module WaveReader {
  import opened Results
  import opened LittleEndian
  import opened Riff
  import opened SampleCodec

  /** The fields of '<HHLL3H', the first 18 bytes of the 'fmt ' payload. */
  datatype FmtFields = FmtFields(
    compCode: nat, nchans: nat, sampleRate: nat, bytesPerSec: nat,
    blockAlign: nat, bitsPerSample: nat, extraBytes: nat)

  /** A 16-byte payload is padded with two zero bytes; only the first 18
      bytes are unpacked, and fewer than 18 fail to unpack. */
  function UnpackFmt(dat: seq<byte>): (r: Result<FmtFields>)
    ensures r.Ok? <==> |dat| == 16 || |dat| >= 18
    ensures r.Err? ==> r.error == StructError
    ensures r.Ok? ==> (r.value.compCode == U16At(dat, 0) && r.value.nchans == U16At(dat, 2) &&
                       r.value.sampleRate == U32At(dat, 4) && r.value.bitsPerSample == U16At(dat, 14))
    ensures r.Ok? && |dat| == 16 ==> r.value.extraBytes == 0
  {
    var d := if |dat| == 16 then dat + [0, 0] else dat;
    if |d| < 18 then Err(StructError)
    else
      Ok(FmtFields(U16At(d, 0), U16At(d, 2), U32At(d, 4), U32At(d, 8), U16At(d, 12), U16At(d, 14), U16At(d, 16)))
  }

  /** The reader's fields after a successful construction; it never changes. */
  datatype Reader = Reader(
    file: seq<byte>, index: RiffIndex,
    nchans: nat, bitsPerSample: nat, bytesPerFrame: nat, sampleRate: nat,
    dataPos: nat, dataBytes: nat, sampleCount: nat, decoder: Decoder)
  {
    /** What construction guarantees about the fields. */
    ghost predicate Valid()
    {
      && nchans in {1, 2} && bitsPerSample in {8, 16}
      && DecoderFor(bitsPerSample, nchans) == Some(decoder)
      && bytesPerFrame == nchans * SampleBytes(bitsPerSample) == FrameBytes(decoder)
      && sampleCount == dataBytes / bytesPerFrame
      && sampleRate > 0
    }

    /** Every whole frame the 'data' chunk declares is present in the file. */
    ghost predicate FramesInFile()
    {
      dataPos + bytesPerFrame * sampleCount <= |file|
    }

    /** Frame k of the 'data' payload, decoded. */
    function FrameIndex(k: nat): Frame
      requires Valid() && FramesInFile() && k < sampleCount
    {
      MulMono(bytesPerFrame, k + 1, sampleCount);
      MulSucc(bytesPerFrame, k);
      FrameAt(decoder, file[dataPos..], k)
    }

    /** All frames of the payload: the reference the reads are proved against. */
    function Frames(): (fs: seq<Frame>)
      requires Valid() && FramesInFile()
      ensures |fs| == sampleCount && forall k :: 0 <= k < |fs| ==> fs[k] == FrameIndex(k)
    {
      seq(sampleCount, k requires 0 <= k < sampleCount => FrameIndex(k))
    }
  }

  lemma MulMono(n: nat, a: nat, b: nat)
    requires a <= b
    ensures n * a <= n * b
  {
  }

  /** WaveFileReader.__init__ after the scan: the 'fmt ' chunk is read and
      checked, the 'data' chunk located, the duration computed (which fails
      for a sample rate of 0), and a decoder bound for 8 or 16 bits. */
  function Interpret(file: seq<byte>, index: RiffIndex): (r: Result<Reader>)
    ensures r.Ok? ==> r.value.Valid() && r.value.file == file && r.value.index == index
  {
    match GetChunkData(file, index, FmtTag)
    case Err(e) => Err(e)
    case Ok(dat) =>
      match UnpackFmt(dat)
      case Err(e) => Err(e)
      case Ok(fmt) =>
        if fmt.compCode != 1 || fmt.nchans !in {1, 2} || !(8 <= fmt.bitsPerSample <= 16) then
          Err(UnsupportedFormat)
        else
          var bpf := fmt.nchans * (1 + if fmt.bitsPerSample > 8 then 1 else 0);
          match FindChunk(index.chunks, DataTag)
          case Err(e) => Err(e)
          case Ok(data) =>
            if fmt.sampleRate == 0 then Err(ZeroRate)
            else
              match DecoderFor(fmt.bitsPerSample, fmt.nchans)
              case None => Err(NoDecoder)
              case Some(dec) =>
                DecoderValid(fmt.bitsPerSample, fmt.nchans, dec);
                Ok(Reader(file, index, fmt.nchans, fmt.bitsPerSample, bpf, fmt.sampleRate,
                          data.posn, data.len, data.len / bpf, dec))
  }

  /** A bound decoder is one of the four, and its frame size is what the
      reader computes for bytes_per_frame. */
  lemma DecoderValid(bits: nat, nchans: nat, dec: Decoder)
    requires nchans in {1, 2} && DecoderFor(bits, nchans) == Some(dec)
    ensures bits in {8, 16}
    ensures FrameBytes(dec) == nchans * SampleBytes(bits) == nchans * (1 + if bits > 8 then 1 else 0)
  {
  }

  /** Opening a reader on a whole file: scan with expected type WAVE, then interpret. */
  function OpenSpec(file: seq<byte>): (r: Result<Reader>)
    ensures r.Ok? ==> r.value.Valid() && r.value.file == file && ScanSpec(file, Some(WaveTag)) == Ok(r.value.index)
  {
    match ScanSpec(file, Some(WaveTag))
    case Ok(index) => Interpret(file, index)
    case Err(e) => Err(e)
  }

  /** WaveFileReader.__init__. */
  method Open(file: seq<byte>) returns (r: Result<Reader>)
    ensures r == OpenSpec(file)
    ensures r.Ok? ==> r.value.Valid()
  {
    var scanned := Scan(file, Some(WaveTag));
    match scanned
    case Err(e) => r := Err(e);
    case Ok(index) => r := Interpret(file, index);
  }

  /** The 'fmt ' checks: what makes construction fail once the fields are unpacked. */
  lemma FormatChecks(file: seq<byte>, index: RiffIndex)
    requires GetChunkData(file, index, FmtTag).Ok?
    requires UnpackFmt(GetChunkData(file, index, FmtTag).value).Ok?
    ensures var fmt := UnpackFmt(GetChunkData(file, index, FmtTag).value).value;
      && ((fmt.compCode != 1 || fmt.nchans !in {1, 2} || !(8 <= fmt.bitsPerSample <= 16)) ==>
           Interpret(file, index) == Err(UnsupportedFormat))
      && ((fmt.compCode == 1 && fmt.nchans in {1, 2} && 8 <= fmt.bitsPerSample <= 16 &&
           FindChunk(index.chunks, DataTag).Ok? && fmt.sampleRate == 0) ==>
           Interpret(file, index) == Err(ZeroRate))
      && ((fmt.compCode == 1 && fmt.nchans in {1, 2} && 8 < fmt.bitsPerSample < 16 &&
           FindChunk(index.chunks, DataTag).Ok? && fmt.sampleRate > 0) ==>
           Interpret(file, index) == Err(NoDecoder))
      && ((fmt.compCode == 1 && fmt.nchans in {1, 2} && fmt.bitsPerSample in {8, 16}) ==>
           Interpret(file, index).Ok? == (FindChunk(index.chunks, DataTag).Ok? && fmt.sampleRate > 0))
  {
  }

  /** The lookup and unpack failures, in source order: no 'fmt ' chunk, a
      'fmt ' payload too short to unpack, and (once the format is accepted)
      no 'data' chunk. */
  lemma LookupFailures(file: seq<byte>, index: RiffIndex)
    ensures (forall k :: 0 <= k < |index.chunks| ==> index.chunks[k].id != FmtTag) ==>
      Interpret(file, index) == Err(ChunkNotFound)
    ensures GetChunkData(file, index, FmtTag).Ok? ==>
      var n := |GetChunkData(file, index, FmtTag).value|;
      n != 16 && n < 18 ==> Interpret(file, index) == Err(StructError)
    ensures GetChunkData(file, index, FmtTag).Ok? && UnpackFmt(GetChunkData(file, index, FmtTag).value).Ok? ==>
      var fmt := UnpackFmt(GetChunkData(file, index, FmtTag).value).value;
      (fmt.compCode == 1 && fmt.nchans in {1, 2} && 8 <= fmt.bitsPerSample <= 16 &&
       forall k :: 0 <= k < |index.chunks| ==> index.chunks[k].id != DataTag) ==>
      Interpret(file, index) == Err(ChunkNotFound)
  {
  }

  /** A successful construction takes its format from the 'fmt ' fields and
      its payload from the first 'data' chunk. */
  lemma InterpretFields(file: seq<byte>, index: RiffIndex)
    requires Interpret(file, index).Ok?
    ensures var rd := Interpret(file, index).value;
      var fmt := UnpackFmt(GetChunkData(file, index, FmtTag).value).value;
      var data := FindChunk(index.chunks, DataTag).value;
      && rd.nchans == fmt.nchans && rd.bitsPerSample == fmt.bitsPerSample && rd.sampleRate == fmt.sampleRate
      && rd.dataPos == data.posn && rd.dataBytes == data.len
  {
    var dat := GetChunkData(file, index, FmtTag).value;
    var fmt := UnpackFmt(dat).value;
    var data := FindChunk(index.chunks, DataTag).value;
    var dec := DecoderFor(fmt.bitsPerSample, fmt.nchans).value;
    var bpf := fmt.nchans * (1 + if fmt.bitsPerSample > 8 then 1 else 0);
    assert Interpret(file, index) == Ok(Reader(file, index, fmt.nchans, fmt.bitsPerSample, bpf, fmt.sampleRate,
                                               data.posn, data.len, data.len / bpf, dec));
  }

  /** __len__: the sample count; a trailing partial frame is not counted. */
  function Length(rd: Reader): (n: nat)
    requires rd.Valid()
    ensures rd.bytesPerFrame * n <= rd.dataBytes < rd.bytesPerFrame * n + rd.bytesPerFrame
  {
    rd.sampleCount
  }

  /** __getitem__ with an integer: a negative index counts from the end. */
  function Get(rd: Reader, i: int): (r: Result<Frame>)
    requires rd.Valid()
    ensures r.Ok? ==> -(rd.sampleCount as int) <= i < rd.sampleCount
    ensures !(-(rd.sampleCount as int) <= i < rd.sampleCount) ==> r == Err(IndexOutOfRange)
    ensures -(rd.sampleCount as int) <= i < rd.sampleCount && rd.FramesInFile() ==>
      r == Ok(rd.Frames()[if i < 0 then i + rd.sampleCount else i])
  {
    var n := rd.sampleCount;
    var nf := rd.bytesPerFrame;
    var j := if i < 0 then i + n else i;
    if !(0 <= j < n) then Err(IndexOutOfRange)
    else
      var r := DecodeFrame(rd.decoder, Read(rd.file, rd.dataPos + nf * j, nf));
      assert rd.FramesInFile() ==> r == Ok(rd.FrameIndex(j)) by {
        if rd.FramesInFile() {
          ScalarFrame(rd, j);
        }
      }
      r
  }

  lemma ScalarFrame(rd: Reader, j: nat)
    requires rd.Valid() && rd.FramesInFile() && j < rd.sampleCount
    ensures var nf := rd.bytesPerFrame;
      DecodeFrame(rd.decoder, Read(rd.file, rd.dataPos + nf * j, nf)) == Ok(rd.FrameIndex(j))
  {
    var nf := rd.bytesPerFrame;
    MulMono(nf, j + 1, rd.sampleCount);
    MulSucc(nf, j);
    ReadFrameAt(rd.decoder, rd.file, rd.dataPos, j);
  }

  /** A scalar read of frame j of the payload at pos decodes that frame. */
  lemma ReadFrameAt(dec: Decoder, file: seq<byte>, pos: nat, j: nat)
    requires pos + FrameBytes(dec) * j + FrameBytes(dec) <= |file|
    ensures FrameBytes(dec) * j + FrameBytes(dec) <= |file[pos..]|
    ensures DecodeFrame(dec, Read(file, pos + FrameBytes(dec) * j, FrameBytes(dec))) ==
      Ok(FrameAt(dec, file[pos..], j))
  {
    var n := FrameBytes(dec);
    var off := n * j;
    var d := Read(file, pos + off, n);
    assert d == file[pos + off..pos + off + n];
    assert file[pos..][off..off + n] == d;
  }

  /** The frames `small` holds are those of `big` from frame a on. */
  lemma FrameAtOffset(dec: Decoder, big: seq<byte>, small: seq<byte>, a: nat, k: nat)
    requires FrameBytes(dec) * a + |small| <= |big|
    requires small == big[FrameBytes(dec) * a..FrameBytes(dec) * a + |small|]
    requires FrameBytes(dec) * k + FrameBytes(dec) <= |small|
    ensures FrameBytes(dec) * (a + k) + FrameBytes(dec) <= |big|
    ensures FrameAt(dec, small, k) == FrameAt(dec, big, a + k)
  {
    var n := FrameBytes(dec);
    var base := n * a + n * k;
    assert n * (a + k) == base;
    var x, y := small[n * k..n * k + n], big[base..base + n];
    forall j | 0 <= j < n ensures x[j] == y[j] {
      assert small[n * k + j] == big[n * a + (n * k + j)];
    }
    assert x == y;
  }

  /** slice.indices(n) for one bound with step 1: negative values count from
      the end, and the result is clamped into [0, n]. */
  function SliceBound(x: Option<int>, n: nat, absent: nat): (r: nat)
    requires absent <= n
    ensures x.None? ==> r == absent
    ensures x.Some? && 0 <= x.value <= n ==> r == x.value
    ensures x.Some? && -(n as int) <= x.value < 0 ==> r == x.value + n
    ensures x.Some? && x.value > n ==> r == n
    ensures x.Some? && x.value < -(n as int) ==> r == 0
  {
    match x
    case None => absent
    case Some(v) =>
      var w := if v < 0 then v + n else v;
      if w < 0 then 0 else if w > n then n else w
  }

  /** __getitem__ with a slice: stride 1 only; no read when the clamped range
      is empty, else one read of recs * nf bytes, block-decoded. */
  function GetRange(rd: Reader, start: Option<int>, stop: Option<int>, step: Option<int>): (r: Result<seq<Frame>>)
    requires rd.Valid()
    ensures step.Some? && step.value != 1 ==> r == Err(BadStride)
    ensures r.Ok? ==> |r.value| <= rd.sampleCount
    ensures (step.None? || step.value == 1) && rd.FramesInFile() ==>
      var a := SliceBound(start, rd.sampleCount, 0);
      var b := SliceBound(stop, rd.sampleCount, rd.sampleCount);
      r == Ok(if a < b then rd.Frames()[a..b] else [])
  {
    if step.Some? && step.value != 1 then Err(BadStride)
    else
      var n := rd.sampleCount;
      var nf := rd.bytesPerFrame;
      var a := SliceBound(start, n, 0);
      var b := SliceBound(stop, n, n);
      var recs := if b > a then b - a else 0;
      var d := if recs > 0 then Read(rd.file, rd.dataPos + nf * a, nf * recs) else [];
      var r := DecodeBlock(rd.decoder, d, recs);
      assert r.Ok? ==> |r.value| <= n by {
        if r.Ok? {
          BlockWithinData(rd, a, recs, d, r.value);
        }
      }
      assert rd.FramesInFile() ==> r == Ok(if a < b then rd.Frames()[a..b] else []) by {
        if rd.FramesInFile() {
          RangeFrames(rd, a, b, d);
        }
      }
      r
  }

  lemma BlockWithinData(rd: Reader, a: nat, recs: nat, d: seq<byte>, fs: seq<Frame>)
    requires rd.Valid() && a + recs <= rd.sampleCount
    requires |d| <= rd.bytesPerFrame * recs && |fs| * rd.bytesPerFrame == |d|
    ensures |fs| <= rd.sampleCount
  {
    if |fs| > recs {
      MulMono(rd.bytesPerFrame, recs + 1, |fs|);
      MulSucc(rd.bytesPerFrame, recs);
    }
  }

  lemma RangeFrames(rd: Reader, a: nat, b: nat, d: seq<byte>)
    requires rd.Valid() && rd.FramesInFile() && a <= rd.sampleCount && b <= rd.sampleCount
    requires var nf := rd.bytesPerFrame;
      d == if b > a then Read(rd.file, rd.dataPos + nf * a, nf * (b - a)) else []
    ensures DecodeBlock(rd.decoder, d, if b > a then b - a else 0) == Ok(if a < b then rd.Frames()[a..b] else [])
  {
    if b > a {
      RangeBytes(rd, a, b - a);
      DecodedRange(rd, a, b - a, d);
    }
  }

  lemma DecodedRange(rd: Reader, a: nat, recs: nat, d: seq<byte>)
    requires rd.Valid() && rd.FramesInFile() && a + recs <= rd.sampleCount
    requires var nf := rd.bytesPerFrame;
      nf * a + nf * recs <= |rd.file[rd.dataPos..]| && d == rd.file[rd.dataPos..][nf * a..nf * a + nf * recs]
    ensures DecodeBlock(rd.decoder, d, recs) == Ok(rd.Frames()[a..a + recs])
  {
    assert |d| == FrameBytes(rd.decoder) * recs;
    var fs := DecodeBlock(rd.decoder, d, recs).value;
    var want := rd.Frames()[a..a + recs];
    forall k | 0 <= k < recs ensures fs[k] == want[k] {
      RangeFrameAt(rd, a, recs, d, k);
    }
    assert fs == want;
  }

  /** The bytes of a range read are the payload bytes of those frames. */
  lemma RangeBytes(rd: Reader, a: nat, recs: nat)
    requires rd.Valid() && rd.FramesInFile() && a + recs <= rd.sampleCount
    ensures var nf := rd.bytesPerFrame;
      && nf * a + nf * recs <= |rd.file[rd.dataPos..]|
      && Read(rd.file, rd.dataPos + nf * a, nf * recs) == rd.file[rd.dataPos..][nf * a..nf * a + nf * recs]
  {
    var nf := rd.bytesPerFrame;
    MulMono(nf, a + recs, rd.sampleCount);
    assert nf * (a + recs) == nf * a + nf * recs;
  }

  lemma RangeFrameAt(rd: Reader, a: nat, recs: nat, d: seq<byte>, k: nat)
    requires rd.Valid() && rd.FramesInFile() && a + recs <= rd.sampleCount && k < recs
    requires var nf := rd.bytesPerFrame;
      nf * a + nf * recs <= |rd.file[rd.dataPos..]| && d == rd.file[rd.dataPos..][nf * a..nf * a + nf * recs]
    ensures FrameBytes(rd.decoder) * k + FrameBytes(rd.decoder) <= |d|
    ensures FrameAt(rd.decoder, d, k) == rd.FrameIndex(a + k)
  {
    var nf := rd.bytesPerFrame;
    MulMono(nf, k + 1, recs);
    MulSucc(nf, k);
    FrameAtOffset(rd.decoder, rd.file[rd.dataPos..], d, a, k);
  }

  // ---------------------------------------------------------------------------
  // Properties of indexing and slicing

  /** A negative index counts from the end; N and -N-1 are out of range. */
  lemma NegativeIndex(rd: Reader, i: int)
    requires rd.Valid() && 0 < i <= rd.sampleCount
    ensures Get(rd, -i) == Get(rd, rd.sampleCount - i)
    ensures Get(rd, rd.sampleCount) == Err(IndexOutOfRange)
    ensures Get(rd, -(rd.sampleCount as int) - 1) == Err(IndexOutOfRange)
  {
  }

  /** wr[-k:] yields the last k frames (for k > 0; wr[-0:] is wr[0:]). */
  lemma LastFrames(rd: Reader, k: nat)
    requires rd.Valid() && rd.FramesInFile() && 0 < k <= rd.sampleCount
    ensures GetRange(rd, Some(-(k as int)), None, None) == Ok(rd.Frames()[rd.sampleCount - k..])
  {
    var n := rd.sampleCount;
    assert SliceBound(Some(-(k as int)), n, 0) == n - k;
    assert rd.Frames()[n - k..n] == rd.Frames()[n - k..];
  }

  /** A one-frame slice reads the same frame as the scalar index. */
  lemma SliceOfOne(rd: Reader, i: nat)
    requires rd.Valid() && rd.FramesInFile() && i < rd.sampleCount
    ensures GetRange(rd, Some(i as int), Some(i as int + 1), None) == Ok([Get(rd, i).value])
  {
    var n := rd.sampleCount;
    assert SliceBound(Some(i as int), n, 0) == i;
    assert SliceBound(Some(i as int + 1), n, n) == i + 1;
    assert rd.Frames()[i..i + 1] == [rd.Frames()[i]];
  }

  /** A range whose clamped start is not before its clamped stop is empty, not an error. */
  lemma EmptyRange(rd: Reader, start: int, stop: int)
    requires rd.Valid() && SliceBound(Some(start), rd.sampleCount, 0) >= SliceBound(Some(stop), rd.sampleCount, rd.sampleCount)
    ensures GetRange(rd, Some(start), Some(stop), None) == Ok([])
  {
  }
}
