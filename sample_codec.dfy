/** Conversion between the stored PCM layouts (unsigned 8-bit, signed 16-bit
    little-endian) and centred 16-bit sample values: the dec_* functions and
    the encode step of WaveFileWriter.__setitem__. */
module SampleCodec {
  import opened Results
  import opened LittleEndian

  type int16 = x: int | -0x8000 <= x < 0x8000

  /** One time step: a single value for mono, a (left, right) pair for stereo. */
  datatype Frame = Mono(v: int16) | Stereo(left: int16, right: int16)

  function Channels(f: Frame): nat
  {
    if f.Mono? then 1 else 2
  }

  /** The decoder pair bound at open time for 8 or 16 bits, mono or stereo. */
  datatype Decoder = Dec8Mono | Dec8Stereo | Dec16Mono | Dec16Stereo

  /** Bytes one frame takes for a decoder. */
  function FrameBytes(dec: Decoder): (n: nat)
    ensures n in {1, 2, 4}
  {
    match dec
    case Dec8Mono => 1
    case Dec8Stereo => 2
    case Dec16Mono => 2
    case Dec16Stereo => 4
  }

  // ---------------------------------------------------------------------------
  // Single samples

  /** 8-bit decode: (b - 128) * 256. */
  function Decode8(b: byte): (v: int16)
    ensures v % 0x100 == 0 && -0x8000 <= v <= 0x7f00
    ensures b < 0x80 <==> v < 0
  {
    (b - 0x80) * 0x100
  }

  /** numpy int16 arithmetic: the result wraps modulo 2^16. */
  function Wrap16(x: int): (r: int16)
    ensures (r - x) % U16Limit == 0
    ensures -0x8000 <= x < 0x8000 ==> r == x
  {
    (x + 0x8000) % U16Limit - 0x8000
  }

  /** 8-bit encode as written: (((val + 128) >> 8) + 128).astype(uint8) on an
      int16 array, so val + 128 wraps for val >= 32640; >> on a signed value
      is an arithmetic shift, i.e. floor division by 256 (Dafny's `/` with a
      positive divisor); astype(uint8) keeps the low byte. */
  function Encode8(v: int16): byte
  {
    var biased := Wrap16(v + 0x80);
    var shifted := biased / 0x100;
    (shifted + 0x80) % 0x100
  }

  /** 16-bit decode: '<h'. */
  function Decode16(s: seq<byte>): int16
    requires |s| == 2
  {
    I16At(s, 0)
  }

  /** 16-bit encode: the int16 value stored little-endian. */
  function Encode16(v: int16): (r: seq<byte>)
    ensures |r| == 2
  {
    PackI16(v)
  }

  /** np.clip(val, -32768, 32767): out-of-range input saturates. */
  function Saturate(x: int): (r: int16)
    ensures -0x8000 <= x < 0x8000 ==> r == x
    ensures x >= 0x8000 ==> r == 0x7fff
    ensures x < -0x8000 ==> r == -0x8000
  {
    if x < -0x8000 then -0x8000 else if x > 0x7fff then 0x7fff else x
  }

  /** Encoding a decoded 8-bit sample gives back the original byte. */
  lemma Encode8OfDecode8(b: byte)
    ensures Encode8(Decode8(b)) == b
  {
    var v := Decode8(b);
    assert Wrap16(v + 0x80) == v + 0x80;
    assert (v + 0x80) / 0x100 == b - 0x80;
  }

  /** Below 32640, 8-bit encoding rounds to the nearest multiple of 256:
      the decoded value is within 128 of the input. */
  lemma {:induction false} Encode8Rounds(v: int16)
    requires v < 0x7f80
    ensures Decode8(Encode8(v)) - 0x80 <= v < Decode8(Encode8(v)) + 0x80
  {
    var q := (v + 0x80) / 0x100;
    assert Wrap16(v + 0x80) == v + 0x80;
    assert -0x80 <= q < 0x80;
    assert Encode8(v) == q + 0x80;
    assert 0x100 * q <= v + 0x80 < 0x100 * q + 0x100;
  }

  /** From 32640 up, 8-bit encoding yields byte 0, which decodes to the most
      negative value: the loudest positive samples change sign. */
  lemma Encode8Wraps(v: int16)
    requires v >= 0x7f80
    ensures Encode8(v) == 0 && Decode8(Encode8(v)) == -0x8000
  {
    assert Wrap16(v + 0x80) == v + 0x80 - U16Limit;
  }

  /** Repeated 8-bit quantisation is stable. */
  lemma Encode8Idempotent(v: int16)
    ensures Encode8(Decode8(Encode8(v))) == Encode8(v)
  {
    Encode8OfDecode8(Encode8(v));
  }

  /** 16-bit encode then decode is the identity, and so is decode then encode. */
  lemma Codec16RoundTrip(v: int16, s: seq<byte>)
    requires |s| == 2
    ensures Decode16(Encode16(v)) == v
    ensures Encode16(Decode16(s)) == s
  {
    PackI16OfI16At(s, 0);
  }

  // ---------------------------------------------------------------------------
  // Frames

  /** The scalar decoders dec_8_mono .. dec_16_stereo on exactly one frame of bytes. */
  function FrameOf(dec: Decoder, s: seq<byte>): (f: Frame)
    requires |s| == FrameBytes(dec)
    ensures f.Mono? <==> dec in {Dec8Mono, Dec16Mono}
  {
    match dec
    case Dec8Mono => Mono(Decode8(s[0]))
    case Dec8Stereo => Stereo(Decode8(s[0]), Decode8(s[1]))
    case Dec16Mono => Mono(Decode16(s[0..2]))
    case Dec16Stereo => Stereo(Decode16(s[0..2]), Decode16(s[2..4]))
  }

  /** Frame k of a block of bytes. */
  function FrameAt(dec: Decoder, s: seq<byte>, k: nat): Frame
    requires FrameBytes(dec) * k + FrameBytes(dec) <= |s|
  {
    var n := FrameBytes(dec);
    FrameOf(dec, s[n * k..n * k + n])
  }

  /** A scalar read: the decoders fail (IndexError, TypeError or struct.error)
      when the read came back short. */
  function DecodeFrame(dec: Decoder, s: seq<byte>): (r: Result<Frame>)
    ensures r.Ok? <==> |s| == FrameBytes(dec)
    ensures r.Err? ==> r.error == ShortData
    ensures r.Ok? ==> r.value == FrameAt(dec, s, 0)
  {
    if |s| != FrameBytes(dec) then Err(ShortData) else Ok(FrameOf(dec, s))
  }

  /** The block decoders dec_*_arr(s, n). The mono ones decode whatever bytes
      they get (np.fromstring; 16-bit rejects an odd byte count); the stereo
      ones reshape to (n, 2), which fails unless the size is exact. */
  function DecodeBlock(dec: Decoder, s: seq<byte>, n: nat): (r: Result<seq<Frame>>)
    ensures |s| == FrameBytes(dec) * n ==> r.Ok? && |r.value| == n
    ensures r.Ok? ==> |r.value| * FrameBytes(dec) == |s|
    ensures r.Ok? ==> forall k :: 0 <= k < |r.value| ==> r.value[k] == FrameAt(dec, s, k)
  {
    match dec
    case Dec8Mono =>
      Ok(seq(|s|, k requires 0 <= k < |s| => FrameAt(dec, s, k)))
    case Dec8Stereo =>
      if |s| != 2 * n then Err(ShortData)
      else Ok(seq(n, k requires 0 <= k < n => FrameAt(dec, s, k)))
    case Dec16Mono =>
      if |s| % 2 != 0 then Err(ShortData)
      else Ok(seq(|s| / 2, k requires 0 <= k < |s| / 2 => FrameAt(dec, s, k)))
    case Dec16Stereo =>
      if |s| != 4 * n then Err(ShortData)
      else Ok(seq(n, k requires 0 <= k < n => FrameAt(dec, s, k)))
  }

  // ---------------------------------------------------------------------------
  // Encoding

  /** Bytes per stored sample: 2 above 8 bits. */
  function SampleBytes(bits: nat): nat
  {
    if bits > 8 then 2 else 1
  }

  function EncodeSample(bits: nat, v: int16): (r: seq<byte>)
    requires bits >= 8
    ensures |r| == SampleBytes(bits)
  {
    if bits == 8 then [Encode8(v)] else Encode16(v)
  }

  /** One frame's bytes, left channel first. */
  function EncodeFrame(bits: nat, f: Frame): (r: seq<byte>)
    requires bits >= 8
    ensures |r| == Channels(f) * SampleBytes(bits)
  {
    match f
    case Mono(v) => EncodeSample(bits, v)
    case Stereo(l, r) => EncodeSample(bits, l) + EncodeSample(bits, r)
  }

  /** A block's bytes, frames in order (the .tostring() of the array). */
  function EncodeFrames(bits: nat, fs: seq<Frame>): seq<byte>
    requires bits >= 8
  {
    if |fs| == 0 then [] else EncodeFrame(bits, fs[0]) + EncodeFrames(bits, fs[1..])
  }

  /** All frames have `nchans` channels. */
  predicate Uniform(fs: seq<Frame>, nchans: nat)
  {
    forall k :: 0 <= k < |fs| ==> Channels(fs[k]) == nchans
  }

  /** An encoded block of uniform frames is |fs| frames of nchans * SampleBytes
      bytes each. */
  lemma {:induction false} EncodeFramesLength(bits: nat, fs: seq<Frame>, nchans: nat)
    requires bits >= 8 && Uniform(fs, nchans)
    ensures |EncodeFrames(bits, fs)| == FrameSize(bits, nchans) * |fs|
    decreases |fs|
  {
    if |fs| > 0 {
      var n := FrameSize(bits, nchans);
      EncodeFramesLength(bits, fs[1..], nchans);
      assert |EncodeFrame(bits, fs[0])| == n;
      MulSucc(n, |fs[1..]|);
    }
  }

  lemma MulSucc(n: int, m: int)
    ensures n * (m + 1) == n + n * m
  {
  }

  /** Bytes per frame for a bit depth and channel count. */
  function FrameSize(bits: nat, nchans: nat): nat
  {
    nchans * SampleBytes(bits)
  }

  /** The k-th frame-sized slice of an encoded block is the k-th frame's encoding. */
  lemma {:induction false} EncodeFramesAt(bits: nat, fs: seq<Frame>, nchans: nat, k: nat)
    requires bits >= 8 && Uniform(fs, nchans) && k < |fs|
    ensures FrameSize(bits, nchans) * k + FrameSize(bits, nchans) <= |EncodeFrames(bits, fs)|
    ensures var n := FrameSize(bits, nchans);
      EncodeFrames(bits, fs)[n * k..n * k + n] == EncodeFrame(bits, fs[k])
    decreases |fs|
  {
    var n := FrameSize(bits, nchans);
    var head, tail := EncodeFrame(bits, fs[0]), EncodeFrames(bits, fs[1..]);
    assert EncodeFrames(bits, fs) == head + tail;
    assert |head| == n;
    if k > 0 {
      assert Uniform(fs[1..], nchans);
      EncodeFramesAt(bits, fs[1..], nchans, k - 1);
      assert fs[1..][k - 1] == fs[k];
      ShiftSlice(head, tail, n, k, EncodeFrame(bits, fs[k]));
    } else {
      EncodeFramesLength(bits, fs, nchans);
      HeadSlice(head, tail, n, k);
    }
  }

  /** Frame k of head + tail is frame k - 1 of tail when head is one frame. */
  lemma ShiftSlice(head: seq<byte>, tail: seq<byte>, n: nat, k: nat, x: seq<byte>)
    requires |head| == n && k > 0
    requires n * (k - 1) + n <= |tail| && tail[n * (k - 1)..n * (k - 1) + n] == x
    ensures n * k + n <= |head + tail| && (head + tail)[n * k..n * k + n] == x
  {
    var j := n * (k - 1);
    assert n * k == n + j by { MulSucc(n, k - 1); }
    assert (head + tail)[n + j..n + j + n] == tail[j..j + n];
  }

  lemma HeadSlice(head: seq<byte>, tail: seq<byte>, n: nat, k: nat)
    requires |head| == n && k == 0
    ensures n * k + n <= |head + tail| && (head + tail)[n * k..n * k + n] == head
  {
    assert n * k == 0;
    assert (head + tail)[0..n] == head;
  }

  /** The decoder a reader binds for a bit depth and channel count, if any. */
  function DecoderFor(bits: nat, nchans: nat): (r: Option<Decoder>)
    ensures r.Some? <==> bits in {8, 16}
    ensures r.Some? ==> (r.value in {Dec8Stereo, Dec16Stereo} <==> nchans == 2)
    ensures r.Some? && nchans in {1, 2} ==> FrameBytes(r.value) == nchans * SampleBytes(bits)
  {
    if bits == 8 then Some(if nchans == 2 then Dec8Stereo else Dec8Mono)
    else if bits == 16 then Some(if nchans == 2 then Dec16Stereo else Dec16Mono)
    else None
  }

  /** What reading back a written frame gives: the same frame at 16 bits,
      the 8-bit quantisation of it at 8 bits. */
  function Quantize(bits: nat, f: Frame): (q: Frame)
    ensures Channels(q) == Channels(f)
    ensures bits == 16 ==> q == f
  {
    if bits != 8 then f
    else match f
      case Mono(v) => Mono(Decode8(Encode8(v)))
      case Stereo(l, r) => Stereo(Decode8(Encode8(l)), Decode8(Encode8(r)))
  }

  /** Decoding an encoded frame with the matching decoder yields its quantisation. */
  lemma DecodeEncodedFrame(bits: nat, f: Frame)
    requires bits in {8, 16} && DecoderFor(bits, Channels(f)).Some?
    ensures var dec := DecoderFor(bits, Channels(f)).value;
      |EncodeFrame(bits, f)| == FrameBytes(dec) && FrameOf(dec, EncodeFrame(bits, f)) == Quantize(bits, f)
  {
    var e := EncodeFrame(bits, f);
    match f
    case Mono(v) =>
    case Stereo(l, r) =>
      if bits == 16 {
        assert e[0..2] == Encode16(l) && e[2..4] == Encode16(r);
      } else {
        assert e[0] == Encode8(l) && e[1] == Encode8(r);
      }
  }
}
