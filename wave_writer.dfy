/** The sequential WAVE writer (WaveFileWriter in src/waveio.py): a
    provisional header with placeholder lengths, in-order sample writes, and
    a close that patches the three length fields. */
module WaveWriter {
  import opened Results
  import opened LittleEndian
  import opened Riff
  import opened SampleCodec

  /** bits_per_samp, nchans and sample_rate, as configured. */
  datatype Config = Config(bitsPerSample: int, nchans: int, sampleRate: int)

  /** Data supplied to an assignment, after np.asarray: a 1-D array of
      values (mono shape) or an N x 2 array of pairs (stereo shape). */
  datatype Block = Flat(values: seq<int>) | Pairs(pairs: seq<(int, int)>)

  /** A single value assigned with an integer index. */
  datatype Value = One(x: int) | Two(left: int, right: int)

  function Rows(val: Block): nat
  {
    match val
    case Flat(vs) => |vs|
    case Pairs(ps) => |ps|
  }

  /** The shape test: the block's shape is (rows,) for mono, (rows, 2) for stereo. */
  predicate ShapeFits(val: Block, nchans: int)
  {
    if nchans == 2 then val.Pairs? else val.Flat?
  }

  /** The frames a block stands for, after np.clip to the int16 range. */
  function ToFrames(val: Block): (fs: seq<Frame>)
    ensures |fs| == Rows(val)
    ensures Uniform(fs, if val.Flat? then 1 else 2)
  {
    match val
    case Flat(vs) => seq(|vs|, k requires 0 <= k < |vs| => Mono(Saturate(vs[k])))
    case Pairs(ps) => seq(|ps|, k requires 0 <= k < |ps| => Stereo(Saturate(ps[k].0), Saturate(ps[k].1)))
  }

  const KnownKeys: set<string> := {"bits_per_samp", "nchans", "sample_rate"}

  /** The configuration before validation: defaults 16 bits, 1 channel,
      44100 Hz, replaced by a reference object's fields, each replaced in
      turn by a keyword argument of the same name. */
  function Resolve(refobj: Option<Config>, kw: map<string, int>): Config
  {
    var base := if refobj.Some? then refobj.value else Config(16, 1, 44100);
    Config(
      if "bits_per_samp" in kw then kw["bits_per_samp"] else base.bitsPerSample,
      if "nchans" in kw then kw["nchans"] else base.nchans,
      if "sample_rate" in kw then kw["sample_rate"] else base.sampleRate)
  }

  /** Bytes per frame: nchans, doubled above 8 bits. */
  function BytesPerFrame(nchans: int, bits: int): int
  {
    if bits > 8 then nchans * 2 else nchans
  }

  /** What __init__ accepts: 1 or 2 channels, 8 to 16 bits, and a sample
      rate whose '<L' fields (the rate and the byte rate) can be packed. */
  predicate Acceptable(c: Config)
  {
    && c.nchans in {1, 2} && 8 <= c.bitsPerSample <= 16
    && 0 <= c.sampleRate && c.sampleRate * BytesPerFrame(c.nchans, c.bitsPerSample) < U32Limit
  }

  /** The configuration part of __init__, with its error paths in order:
      unknown keyword, bad channels or bits, a rate struct.pack rejects. */
  function Configure(refobj: Option<Config>, kw: map<string, int>): (r: Result<Config>)
    ensures !(kw.Keys <= KnownKeys) ==> r == Err(UnknownParameter)
    ensures kw.Keys <= KnownKeys ==> (r.Ok? <==> Acceptable(Resolve(refobj, kw)))
    ensures kw.Keys <= KnownKeys ==>
      var c := Resolve(refobj, kw);
      (c.nchans !in {1, 2} || !(8 <= c.bitsPerSample <= 16)) ==> r == Err(BadConfig)
    ensures kw.Keys <= KnownKeys ==>
      var c := Resolve(refobj, kw);
      (c.nchans in {1, 2} && 8 <= c.bitsPerSample <= 16 && !Acceptable(c)) ==> r == Err(StructError)
    ensures r.Ok? ==> r.value == Resolve(refobj, kw) && Acceptable(r.value)
  {
    if !(kw.Keys <= KnownKeys) then Err(UnknownParameter)
    else
      var c := Resolve(refobj, kw);
      if c.nchans !in {1, 2} || !(8 <= c.bitsPerSample <= 16) then Err(BadConfig)
      else if !Acceptable(c) then Err(StructError)
      else Ok(c)
  }

  /** Each field separately: a keyword wins, then the reference object, then
      the default (16 bits, 1 channel, 44100 Hz). */
  lemma ConfigureDefaults(refobj: Option<Config>, kw: map<string, int>)
    ensures Configure(None, map[]) == Ok(Config(16, 1, 44100))
    ensures "nchans" in kw ==> Resolve(refobj, kw).nchans == kw["nchans"]
    ensures "nchans" !in kw && refobj.Some? ==> Resolve(refobj, kw).nchans == refobj.value.nchans
    ensures "nchans" !in kw && refobj.None? ==> Resolve(refobj, kw).nchans == 1
    ensures "bits_per_samp" in kw ==> Resolve(refobj, kw).bitsPerSample == kw["bits_per_samp"]
    ensures "bits_per_samp" !in kw && refobj.Some? ==> Resolve(refobj, kw).bitsPerSample == refobj.value.bitsPerSample
    ensures "bits_per_samp" !in kw && refobj.None? ==> Resolve(refobj, kw).bitsPerSample == 16
    ensures "sample_rate" in kw ==> Resolve(refobj, kw).sampleRate == kw["sample_rate"]
    ensures "sample_rate" !in kw && refobj.Some? ==> Resolve(refobj, kw).sampleRate == refobj.value.sampleRate
    ensures "sample_rate" !in kw && refobj.None? ==> Resolve(refobj, kw).sampleRate == 44100
  {
    assert Acceptable(Config(16, 1, 44100));
  }

  // ---------------------------------------------------------------------------
  // Header layout

  const Placeholder: seq<byte> := [0x78, 0x78, 0x78, 0x78]   // "xxxx"

  /** The 16-byte 'fmt ' payload '<hhLLhh': PCM, channels, rate, byte rate,
      block align, bits. */
  function FmtPayload(c: Config): (r: seq<byte>)
    requires Acceptable(c)
    ensures |r| == 16
  {
    var bpf := BytesPerFrame(c.nchans, c.bitsPerSample);
    PackI16(1) + PackI16(c.nchans) + PackU32(c.sampleRate) + PackU32(c.sampleRate * bpf) +
    PackI16(bpf) + PackI16(c.bitsPerSample)
  }

  /** The 56-byte header with the given values in the RIFF length, 'fact'
      count and 'data' length fields. */
  function HeaderWith(c: Config, riffLen: seq<byte>, count: seq<byte>, dataLen: seq<byte>): (r: seq<byte>)
    requires Acceptable(c) && |riffLen| == 4 && |count| == 4 && |dataLen| == 4
    ensures |r| == 56
  {
    RiffTag + riffLen + WaveTag + FmtTag + PackU32(16) + FmtPayload(c) +
    FactTag + PackU32(4) + count + DataTag + dataLen
  }

  /** What __init__ writes: every length field still "xxxx". */
  function ProvisionalHeader(c: Config): seq<byte>
    requires Acceptable(c)
  {
    HeaderWith(c, Placeholder, Placeholder, Placeholder)
  }

  /** close() succeeds only when struct.pack accepts the three '<L' values. */
  predicate CloseFits(bpf: nat, n: nat)
  {
    n < U32Limit && bpf * n + 48 < U32Limit
  }

  /** close(): the RIFF length dlen + datapos - 8 at offset 4, then the
      frame count, "data" and dlen at datapos - 12. */
  function Finalize(file: seq<byte>, bpf: nat, n: nat): (r: seq<byte>)
    requires |file| >= 56 && CloseFits(bpf, n)
    ensures |r| == |file|
  {
    var dlen := bpf * n;
    WriteAt(WriteAt(file, 4, PackU32(dlen + 56 - 8)), 56 - 12, PackU32(n) + DataTag + PackU32(dlen))
  }

  /** The header close() leaves after n frames: RIFF length dlen + 48, the
      frame count in 'fact', and dlen = n * bpf in 'data'. */
  function FinalHeader(c: Config, n: nat): (r: seq<byte>)
    requires Acceptable(c) && CloseFits(BytesPerFrame(c.nchans, c.bitsPerSample), n)
    ensures |r| == 56
  {
    var dlen := BytesPerFrame(c.nchans, c.bitsPerSample) * n;
    HeaderWith(c, PackU32(dlen + 48), PackU32(n), PackU32(dlen))
  }

  /** The file a writer holds after the frames fs were written in order and it was closed. */
  function Finalized(c: Config, fs: seq<Frame>): seq<byte>
    requires Acceptable(c) && CloseFits(BytesPerFrame(c.nchans, c.bitsPerSample), |fs|)
  {
    FinalHeader(c, |fs|) + EncodeFrames(c.bitsPerSample, fs)
  }

  /** Patching the provisional header in place gives the final header; the
      samples after it are untouched. */
  lemma FinalizeHeader(c: Config, data: seq<byte>, n: nat)
    requires Acceptable(c) && CloseFits(BytesPerFrame(c.nchans, c.bitsPerSample), n)
    ensures Finalize(ProvisionalHeader(c) + data, BytesPerFrame(c.nchans, c.bitsPerSample), n) ==
            FinalHeader(c, n) + data
  {
    var bpf := BytesPerFrame(c.nchans, c.bitsPerSample);
    var dlen := bpf * n;
    var before := ProvisionalHeader(c) + data;
    var after := FinalHeader(c, n) + data;
    var patched := Finalize(before, bpf, n);
    assert |patched| == |after|;
    forall k | 0 <= k < |after| ensures patched[k] == after[k] {
      if k < 56 {
        HeaderWithAt(c, Placeholder, Placeholder, Placeholder, k);
        HeaderWithAt(c, PackU32(dlen + 48), PackU32(n), PackU32(dlen), k);
      }
    }
  }

  /** Byte k of a header: the three length fields occupy 4..8, 44..48 and
      52..56, and the other bytes do not depend on them. */
  lemma HeaderWithAt(c: Config, a: seq<byte>, b: seq<byte>, d: seq<byte>, k: nat)
    requires Acceptable(c) && |a| == 4 && |b| == 4 && |d| == 4 && k < 56
    ensures var h := HeaderWith(c, a, b, d);
      && (4 <= k < 8 ==> h[k] == a[k - 4])
      && (44 <= k < 48 ==> h[k] == b[k - 44])
      && (52 <= k < 56 ==> h[k] == d[k - 52])
      && (!(4 <= k < 8 || 44 <= k < 48 || 52 <= k < 56) ==>
            h[k] == HeaderWith(c, Placeholder, Placeholder, Placeholder)[k])
  {
  }

  // ---------------------------------------------------------------------------
  // Sequencing

  /** The index checks of __setitem__, in order: a negative start or a stop
      before start (IndexError), a stop that disagrees with the data's length,
      a start other than the cursor. On success the new cursor. */
  function CheckWrite(cursor: nat, start: int, stop: Option<int>, rows: nat): (r: Result<nat>)
    ensures r.Ok? <==> start == cursor && (stop.None? || stop.value == start + rows)
    ensures r.Ok? ==> r.value == start + rows
    ensures (start < 0 || (stop.Some? && stop.value < start)) ==> r == Err(InvalidSlice)
    ensures start >= 0 && stop.Some? && stop.value >= start && stop.value != start + rows ==> r == Err(SizeMismatch)
    ensures start >= 0 && (stop.None? || stop.value == start + rows) && start != cursor ==> r == Err(OutOfSequence)
  {
    if start < 0 || (stop.Some? && stop.value < start) then Err(InvalidSlice)
    else
      var end := if stop.None? then start + rows else stop.value;
      if stop.Some? && rows + start != end then Err(SizeMismatch)
      else if cursor != start then Err(OutOfSequence)
      else Ok(end)
  }

  class WaveFileWriter {
    const nchans: int
    const bitsPerSample: int
    const sampleRate: int
    const bytesPerFrame: nat
    const dataPos: nat
    /** The provisional header written by __init__. */
    const header: seq<byte>
    /** Frames written so far: where the next write must start. */
    var curIndex: nat
    /** False once close() has set the stream to None. */
    var isOpen: bool
    /** The bytes of the output stream. */
    var file: seq<byte>
    /** The frames written, while every accepted write also wrote its bytes. */
    ghost var written: seq<Frame>
    /** No failed write has moved the cursor, and the sink was not written after close. */
    ghost var inOrder: bool

    function Cfg(): Config
    {
      Config(bitsPerSample, nchans, sampleRate)
    }

    ghost predicate Valid()
      reads this
    {
      ValidAt(curIndex)
    }

    /** The writer's invariant with the cursor at `cursor`: the configuration
        was accepted, the header is intact while open, and while every write
        went in order the sink holds the header and exactly the frames written
        (the final header once closed). */
    ghost predicate ValidAt(cursor: nat)
      reads this
    {
      && Acceptable(Cfg()) && bytesPerFrame == BytesPerFrame(nchans, bitsPerSample)
      && bytesPerFrame == FrameSize(bitsPerSample, nchans)
      && dataPos == 56 && header == ProvisionalHeader(Cfg()) && |file| >= dataPos
      && (isOpen ==> file[..dataPos] == header)
      && (inOrder ==> |written| == cursor && Uniform(written, nchans))
      && (inOrder && isOpen ==> file == header + EncodeFrames(bitsPerSample, written))
      && (inOrder && !isOpen ==> CloseFits(bytesPerFrame, cursor) && file == Finalized(Cfg(), written))
    }

    /** __init__ once the configuration is accepted: the provisional header
        is written and the data starts right after it. */
    constructor (c: Config)
      requires Acceptable(c)
      ensures Valid()
      ensures Cfg() == c && curIndex == 0 && isOpen && dataPos == 56
      ensures file == ProvisionalHeader(c) && written == [] && inOrder
    {
      nchans, bitsPerSample, sampleRate := c.nchans, c.bitsPerSample, c.sampleRate;
      var bpf := if c.bitsPerSample > 8 then c.nchans * 2 else c.nchans;
      bytesPerFrame := bpf;
      curIndex := 0;
      var head := RiffTag + Placeholder + WaveTag + FmtTag;
      var d := PackU32(16) + FmtPayload(c);
      var tail := FactTag + PackU32(4) + Placeholder + DataTag + Placeholder;
      dataPos := |head| + |d| + |tail|;
      file := head + d + tail;
      header := file;
      isOpen := true;
      written := [];
      inOrder := true;
      new;
      assert EncodeFrames(bitsPerSample, []) == [];
      assert file[..56] == file;
    }

    /** The body of __setitem__ once start and stop are known. */
    method Assign(start: int, stop: Option<int>, val: Block) returns (r: Status)
      requires Valid()
      modifies this
      ensures Valid() && isOpen == old(isOpen)
      ensures var chk := CheckWrite(old(curIndex), start, stop, Rows(val));
        && (chk.Err? ==> r == Failed(chk.error) && curIndex == old(curIndex) && file == old(file))
        && (chk.Ok? ==> curIndex == chk.value)
        && (chk.Ok? && !ShapeFits(val, nchans) ==> r == Failed(ShapeMismatch) && file == old(file))
        && (chk.Ok? && ShapeFits(val, nchans) && !old(isOpen) ==> r == Failed(Closed) && file == old(file))
        && (chk.Ok? && ShapeFits(val, nchans) && old(isOpen) ==>
              r == Done &&
              file == WriteAt(old(file), dataPos + start * bytesPerFrame, EncodeFrames(bitsPerSample, ToFrames(val))))
      ensures inOrder ==> old(inOrder)
      ensures r == Done ==> inOrder == old(inOrder)
      ensures inOrder && r == Done ==> written == old(written) + ToFrames(val)
    {
      var chk := CheckWrite(curIndex, start, stop, Rows(val));
      if chk.Err? {
        return Failed(chk.error);
      }
      var begin := curIndex;
      curIndex := chk.value;
      var frames := ToFrames(val);
      if !ShapeFits(val, nchans) {
        if Rows(val) != 0 {
          inOrder := false;
        } else {
          assert curIndex == begin;
        }
        return Failed(ShapeMismatch);
      }
      if !isOpen {
        if Rows(val) != 0 {
          inOrder := false;
        } else {
          assert curIndex == begin;
        }
        return Failed(Closed);
      }
      Emit(begin, frames);
      r := Done;
    }

    /** The write at the end of __setitem__: the frames' bytes at
        datapos + start * bytes_per_frame. */
    method Emit(begin: nat, frames: seq<Frame>)
      requires ValidAt(begin) && isOpen && Uniform(frames, nchans)
      modifies this
      ensures ValidAt(begin + |frames|) && isOpen && inOrder == old(inOrder)
      ensures curIndex == old(curIndex)
      ensures file == WriteAt(old(file), dataPos + begin * bytesPerFrame, EncodeFrames(bitsPerSample, frames))
      ensures inOrder ==> written == old(written) + frames
    {
      var bytes := EncodeFrames(bitsPerSample, frames);
      var at := dataPos + begin * bytesPerFrame;
      ghost var before := file;
      file := WriteAt(file, at, bytes);
      WriteAtPrefix(before, at, bytes, dataPos);
      if inOrder {
        assert at == |header| + FrameSize(bitsPerSample, nchans) * |written| by {
          MulComm(begin, bytesPerFrame);
        }
        AppendFrames(header, bitsPerSample, nchans, written, frames, at);
        written := written + frames;
      }
    }

    /** Slice assignment w[start:stop] = val (step must be absent or 1; an
        absent start is 0). */
    method SetItem(start: Option<int>, stop: Option<int>, step: Option<int>, val: Block) returns (r: Status)
      requires Valid()
      modifies this
      ensures Valid() && isOpen == old(isOpen)
      ensures step.Some? && step.value != 1 ==>
        r == Failed(BadSliceStep) && curIndex == old(curIndex) && file == old(file)
      ensures (step.None? || step.value == 1) ==>
        var s := if start.Some? then start.value else 0;
        var chk := CheckWrite(old(curIndex), s, stop, Rows(val));
        && (chk.Err? ==> r == Failed(chk.error) && curIndex == old(curIndex) && file == old(file))
        && (chk.Ok? ==> curIndex == chk.value)
        && (chk.Ok? && !ShapeFits(val, nchans) ==> r == Failed(ShapeMismatch) && file == old(file))
        && (chk.Ok? && ShapeFits(val, nchans) && !old(isOpen) ==> r == Failed(Closed) && file == old(file))
        && (chk.Ok? && ShapeFits(val, nchans) && old(isOpen) ==>
              r == Done &&
              file == WriteAt(old(file), dataPos + s * bytesPerFrame, EncodeFrames(bitsPerSample, ToFrames(val))))
    {
      if step.Some? && step.value != 1 {
        return Failed(BadSliceStep);
      }
      var s := if start.Some? then start.value else 0;
      r := Assign(s, stop, val);
    }

    /** Integer-index assignment w[i] = v: the range [i, i + 1) with val = [v]. */
    method SetOne(i: int, v: Value) returns (r: Status)
      requires Valid()
      modifies this
      ensures Valid() && isOpen == old(isOpen)
      ensures var val := if v.One? then Flat([v.x]) else Pairs([(v.left, v.right)]);
        var chk := CheckWrite(old(curIndex), i, Some(i + 1), 1);
        && (chk.Err? ==> r == Failed(chk.error) && curIndex == old(curIndex) && file == old(file))
        && (chk.Ok? ==> curIndex == i + 1)
        && (chk.Ok? && !ShapeFits(val, nchans) ==> r == Failed(ShapeMismatch) && file == old(file))
        && (chk.Ok? && ShapeFits(val, nchans) && !old(isOpen) ==> r == Failed(Closed) && file == old(file))
        && (chk.Ok? && ShapeFits(val, nchans) && old(isOpen) ==>
              r == Done &&
              file == WriteAt(old(file), dataPos + i * bytesPerFrame, EncodeFrames(bitsPerSample, ToFrames(val))))
    {
      var val := if v.One? then Flat([v.x]) else Pairs([(v.left, v.right)]);
      r := Assign(i, Some(i + 1), val);
    }

    /** write_samples: self[curindex:] = val, an assignment starting at the
        cursor with open stop and no step, so the index checks always pass. */
    method WriteSamples(val: Block) returns (r: Status)
      requires Valid()
      modifies this
      ensures Valid() && isOpen == old(isOpen)
      ensures curIndex == old(curIndex) + Rows(val)
      ensures !ShapeFits(val, nchans) ==> r == Failed(ShapeMismatch) && file == old(file)
      ensures ShapeFits(val, nchans) && !old(isOpen) ==> r == Failed(Closed) && file == old(file)
      ensures ShapeFits(val, nchans) && old(isOpen) ==>
        r == Done && file == WriteAt(old(file), dataPos + old(curIndex) * bytesPerFrame,
                                     EncodeFrames(bitsPerSample, ToFrames(val)))
      ensures isOpen && ShapeFits(val, nchans) ==> inOrder == old(inOrder)
      ensures inOrder && isOpen && ShapeFits(val, nchans) ==> written == old(written) + ToFrames(val)
    {
      r := Assign(curIndex, None, val);
    }

    /** close(): a no-op once closed; otherwise patch the three length fields. */
    method Close() returns (r: Status)
      requires Valid()
      modifies this
      ensures Valid() && curIndex == old(curIndex) && inOrder == old(inOrder) && written == old(written)
      ensures !old(isOpen) ==> r == Done && !isOpen && file == old(file)
      ensures old(isOpen) && !CloseFits(bytesPerFrame, curIndex) ==>
        r == Failed(StructError) && isOpen && file == old(file)
      ensures old(isOpen) && CloseFits(bytesPerFrame, curIndex) ==>
        r == Done && !isOpen && file == Finalize(old(file), bytesPerFrame, curIndex)
      ensures old(isOpen) && inOrder && CloseFits(bytesPerFrame, curIndex) ==>
        file == Finalized(Cfg(), written)
    {
      if !isOpen {
        return Done;
      }
      var n := curIndex;
      var p := dataPos;
      var dlen := bytesPerFrame * n;
      if !(n < U32Limit && dlen < U32Limit && dlen + p - 8 < U32Limit) {
        return Failed(StructError);
      }
      var d2 := PackU32(n) + DataTag + PackU32(dlen);
      var d1 := PackU32(dlen + p - 8);
      var patched := WriteAt(WriteAt(file, 4, d1), p - 12, d2);
      assert patched == Finalize(file, bytesPerFrame, n);
      if inOrder {
        FinalizeWritten(Cfg(), written, file, n);
      }
      file := patched;
      isOpen := false;
      r := Done;
    }
  }

  /** Closing a sink that holds the provisional header and the frames
      written gives the finalized file. */
  lemma FinalizeWritten(c: Config, written: seq<Frame>, file: seq<byte>, n: nat)
    requires Acceptable(c) && CloseFits(BytesPerFrame(c.nchans, c.bitsPerSample), n) && |written| == n
    requires file == ProvisionalHeader(c) + EncodeFrames(c.bitsPerSample, written)
    ensures |file| >= 56
    ensures Finalize(file, BytesPerFrame(c.nchans, c.bitsPerSample), n) == Finalized(c, written)
  {
    FinalizeHeader(c, EncodeFrames(c.bitsPerSample, written), n);
  }

  /** Writing at or after offset m leaves the first m bytes as they were. */
  lemma WriteAtPrefix(file: seq<byte>, off: nat, d: seq<byte>, m: nat)
    requires m <= off && m <= |file|
    ensures WriteAt(file, off, d)[..m] == file[..m]
  {
  }

  lemma MulComm(a: int, b: int)
    ensures a * b == b * a
  {
  }

  /** An in-order write at the cursor appends the encoded frames. */
  lemma AppendFrames(header: seq<byte>, bits: nat, nchans: nat, written: seq<Frame>, frames: seq<Frame>, at: nat)
    requires bits >= 8 && Uniform(written, nchans) && Uniform(frames, nchans)
    requires at == |header| + FrameSize(bits, nchans) * |written|
    ensures WriteAt(header + EncodeFrames(bits, written), at, EncodeFrames(bits, frames)) ==
            header + EncodeFrames(bits, written + frames)
  {
    EncodeFramesLength(bits, written, nchans);
    EncodeFramesAppend(bits, written, frames);
    AppendAt(header, EncodeFrames(bits, written), EncodeFrames(bits, frames), at,
             EncodeFrames(bits, written + frames));
  }

  /** Writing at the end of header + e appends. */
  lemma AppendAt(header: seq<byte>, e: seq<byte>, d: seq<byte>, off: nat, whole: seq<byte>)
    requires off == |header| + |e| && whole == e + d
    ensures WriteAt(header + e, off, d) == header + whole
  {
    WriteAtEnd(header + e, d);
    AppendAssoc(header, e, d);
  }

  lemma AppendAssoc(a: seq<byte>, b: seq<byte>, c: seq<byte>)
    ensures (a + b) + c == a + (b + c)
  {
  }

  lemma {:induction false} EncodeFramesAppend(bits: nat, a: seq<Frame>, b: seq<Frame>)
    requires bits >= 8
    ensures EncodeFrames(bits, a + b) == EncodeFrames(bits, a) + EncodeFrames(bits, b)
    decreases |a|
  {
    if |a| == 0 {
      assert a + b == b;
    } else {
      assert (a + b)[1..] == a[1..] + b;
      EncodeFramesAppend(bits, a[1..], b);
    }
  }

  /** WaveFileWriter(fout, refobj, **kw) on an empty sink: the configuration
      is resolved and checked first, and only an accepted one writes the
      provisional header. */
  method OpenWriter(refobj: Option<Config>, kw: map<string, int>) returns (r: Result<WaveFileWriter>)
    ensures Configure(refobj, kw).Err? ==> r == Err(Configure(refobj, kw).error)
    ensures Configure(refobj, kw).Ok? ==>
      && r.Ok? && fresh(r.value) && r.value.Valid()
      && r.value.Cfg() == Configure(refobj, kw).value
      && r.value.file == ProvisionalHeader(r.value.Cfg())
      && r.value.curIndex == 0 && r.value.isOpen && r.value.inOrder && r.value.written == []
  {
    var c := Configure(refobj, kw);
    if c.Err? {
      return Err(c.error);
    }
    var w := new WaveFileWriter(c.value);
    r := Ok(w);
  }
}
